/**
 The server object of the server thread. Its methods are proved to change the books as `ServerBooks` says, and to post
 exactly the commands that go with the change.
 */
module ServerThread {
  import opened Ordering
  import opened TabPositions
  import opened BrowserTabs
  import opened Environment
  import opened ServerBooks

  /** A command on its way to the GUI thread; `sync` if somebody waits for the reply. */
  datatype Message = Message(cmd: Command, sync: bool)

  function TabKills(ids: seq<TabId>): seq<Message> {
    seq(|ids|, i requires 0 <= i < |ids| => Message(CmdKillTab(ids[i], true), false))
  }

  function ShortcutKills(ids: seq<TabId>): seq<Message> {
    seq(|ids|, i requires 0 <= i < |ids| => Message(CmdKillShortcut(ids[i]), false))
  }

  /** `ids` lists `all`, each once, in some order. */
  ghost predicate Lists(ids: seq<TabId>, all: set<TabId>) {
    Distinct(ids) && Elements(ids) == all
  }

  lemma ElementsSnoc<T>(s: seq<T>, x: T)
    ensures Elements(s + [x]) == Elements(s) + {x}
    ensures Distinct(s) && x !in Elements(s) ==> Distinct(s + [x])
  {
  }

  method ListOf(all: set<TabId>) returns (ids: seq<TabId>)
    ensures Lists(ids, all)
  {
    ids := [];
    var todo := all;
    while todo != {}
      invariant todo <= all && Distinct(ids) && Elements(ids) == all - todo
      decreases |todo|
    {
      var id :| id in todo;
      ElementsSnoc(ids, id);
      ids := ids + [id];
      todo := todo - {id};
    }
  }

  /** The collecting loops of `pruneExpiredTabs`. */
  method ExpiredIds(leases: map<TabId, Lease>, now: int) returns (ids: seq<TabId>)
    ensures Lists(ids, Expired(leases, now))
  {
    ids := [];
    var todo := leases.Keys;
    while todo != {}
      invariant todo <= leases.Keys && Distinct(ids) && Elements(ids) == Expired(leases, now) - todo
      decreases |todo|
    {
      var id :| id in todo;
      if leases[id].Until? && leases[id].deadline <= now {
        ElementsSnoc(ids, id);
        ids := ids + [id];
      }
      todo := todo - {id};
    }
  }

  lemma {:induction false} ForgetAllShortcuts(books: Books, ids: seq<TabId>)
    ensures ForgetAll(books, ids).shortcutLeases == books.shortcutLeases
    decreases |ids|
  {
    if |ids| > 0 {
      ForgetAllShortcuts(books, ids[..|ids| - 1]);
    }
  }

  class Server {
    const cfg: Config
    var tabLeases: map<TabId, Lease>
    var shortcutLeases: map<TabId, Lease>
    var connectionTabs: map<Connection, set<TabId>>
    var extraTabId: TabId
    var posted: seq<Message>

    function State(): Books
      reads this
    {
      Books(tabLeases, shortcutLeases, connectionTabs, extraTabId)
    }

    constructor (cfg: Config)
      ensures this.cfg == cfg && State() == Books(map[], map[], map[], "") && posted == []
      ensures Partition(cfg, State())
    {
      this.cfg := cfg;
      tabLeases, shortcutLeases, connectionTabs, extraTabId, posted := map[], map[], map[], "", [];
    }

    method RememberOwnedTab(bev: Connection, tabId: TabId)
      modifies this`tabLeases, this`connectionTabs
      ensures State() == Remember(cfg, old(State()), bev, tabId)
    {
      if tabId == "" {
        return;
      }
      if tabId !in tabLeases {
        tabLeases := tabLeases[tabId := Unlimited];
      }
      if cfg.tabLifetimeByConnection {
        var tabs := if bev in connectionTabs then connectionTabs[bev] else {};
        connectionTabs := connectionTabs[bev := tabs + {tabId}];
      }
    }

    /** The loop of `forgetOwnedTab`. */
    method DisownTab(tabId: TabId)
      modifies this`connectionTabs
      ensures connectionTabs == Disown(old(connectionTabs), tabId)
    {
      ghost var all := connectionTabs;
      var todo := connectionTabs.Keys;
      while todo != {}
        invariant todo <= connectionTabs.Keys <= all.Keys
        invariant forall c :: c in todo ==> connectionTabs[c] == all[c]
        invariant forall c :: c in all && c !in todo ==>
                    if all[c] - {tabId} == {} then c !in connectionTabs
                    else c in connectionTabs && connectionTabs[c] == all[c] - {tabId}
        decreases |todo|
      {
        var c :| c in todo;
        var left := connectionTabs[c] - {tabId};
        if left == {} {
          connectionTabs := connectionTabs - {c};
        } else {
          connectionTabs := connectionTabs[c := left];
        }
        todo := todo - {c};
      }
    }

    method ForgetOwnedTab(tabId: TabId)
      modifies this`tabLeases, this`extraTabId, this`connectionTabs
      ensures State() == Forget(old(State()), tabId)
    {
      if tabId == "" {
        return;
      }
      tabLeases := tabLeases - {tabId};
      if extraTabId == tabId {
        extraTabId := "";
      }
      DisownTab(tabId);
    }

    /** Kill and forget, without waiting: the loop of `eraseOwnedTabs` and the first one of `pruneExpiredTabs`. */
    method KillAndForget(ids: seq<TabId>)
      modifies this`tabLeases, this`extraTabId, this`connectionTabs, this`posted
      ensures State() == ForgetAll(old(State()), ids) && posted == old(posted) + TabKills(ids)
    {
      for i := 0 to |ids|
        invariant State() == ForgetAll(old(State()), ids[..i]) && posted == old(posted) + TabKills(ids[..i])
      {
        assert ids[..i + 1][..i] == ids[..i];
        assert TabKills(ids[..i + 1]) == TabKills(ids[..i]) + [Message(CmdKillTab(ids[i], true), false)];
        posted := posted + [Message(CmdKillTab(ids[i], true), false)];
        ForgetOwnedTab(ids[i]);
      }
      assert ids[..|ids|] == ids;
    }

    method EraseOwnedTabs(bev: Connection) returns (order: seq<TabId>)
      requires Partition(cfg, State())
      modifies this`tabLeases, this`extraTabId, this`connectionTabs, this`posted
      ensures Lists(order, if cfg.tabLifetimeByConnection then Owned(old(connectionTabs), bev) else {})
      ensures State() == ForgetAll(old(State()), order) && posted == old(posted) + TabKills(order)
    {
      order := [];
      if !cfg.tabLifetimeByConnection || bev !in connectionTabs {
        return;
      }
      order := ListOf(connectionTabs[bev]);
      KillAndForget(order);
    }

    method EraseConnection(bev: Connection)
      modifies this`connectionTabs
      ensures State() == DropConnection(old(State()), bev)
    {
      connectionTabs := connectionTabs - {bev};
    }

    method KillShortcuts(ids: seq<TabId>)
      modifies this`shortcutLeases, this`posted
      ensures State() == ForgetShortcuts(old(State()), Elements(ids)) && posted == old(posted) + ShortcutKills(ids)
    {
      for i := 0 to |ids|
        invariant shortcutLeases == old(shortcutLeases) - Elements(ids[..i])
        invariant posted == old(posted) + ShortcutKills(ids[..i])
      {
        assert ids[..i + 1] == ids[..i] + [ids[i]];
        assert ShortcutKills(ids[..i + 1]) == ShortcutKills(ids[..i]) + [Message(CmdKillShortcut(ids[i]), false)];
        posted := posted + [Message(CmdKillShortcut(ids[i]), false)];
        shortcutLeases := shortcutLeases - {ids[i]};
      }
      assert ids[..|ids|] == ids;
    }

    /** The lease part of `pruneExpiredTabs`. */
    method PruneExpiredTabs(now: int) returns (tabOrder: seq<TabId>, shortcutOrder: seq<TabId>)
      modifies this
      ensures Lists(tabOrder, Expired(old(tabLeases), now)) && Lists(shortcutOrder, Expired(old(shortcutLeases), now))
      ensures State() == ForgetShortcuts(ForgetAll(old(State()), tabOrder), Elements(shortcutOrder))
      ensures posted == old(posted) + TabKills(tabOrder) + ShortcutKills(shortcutOrder)
    {
      tabOrder := ExpiredIds(tabLeases, now);
      KillAndForget(tabOrder);
      ForgetAllShortcuts(old(State()), tabOrder);
      shortcutOrder := ExpiredIds(shortcutLeases, now);
      KillShortcuts(shortcutOrder);
    }

    function IsExtraTab(tabId: TabId): bool
      reads this
    {
      tabId != "" && tabId == extraTabId
    }

    /** The handlers up to the point where they answer or wait. */
    method BeginRequest(req: Request, now: int) returns (begun: Begun)
      modifies this
      ensures (begun, State()) == Begin(old(State()), req, now)
      ensures posted == old(posted) + (if begun.Posts? then [Message(begun.cmd, true)] else [])
    {
      match req {
        case NewTab(url, pref, uuid) => begun := Posts(CmdNewTab(url, pref, uuid));
        case Kill(id) => begun := Posts(CmdKillTab(id, !IsExtraTab(id)));
        case Navigate(id, url) => begun := Posts(CmdNavigate(id, url));
        case Blink(id) => begun := Posts(CmdBlink(id));
        case GetMap => begun := Posts(CmdGetMap);
        case Alive(id, ttl) =>
          if ttl < 0 {
            return Answered(BadRequest);
          }
          if id !in tabLeases {
            return Answered(InvalidTab);
          }
          if ttl != 0 {
            tabLeases := tabLeases[id := Until(now + ttl * TICKS_PER_SECOND)];
            return Answered(Ok);
          }
          begun := Posts(CmdKillTab(id, true));
        case NewShortcut(pref, uuid) => begun := Posts(CmdNewShortcut(pref, uuid));
        case KillShortcut(id) => begun := Posts(CmdKillShortcut(id));
        case ShortcutAlive(id, ttl) =>
          if ttl < 0 {
            return Answered(BadRequest);
          }
          if id !in shortcutLeases {
            return Answered(InvalidTab);
          }
          if ttl != 0 {
            shortcutLeases := shortcutLeases[id := Until(now + ttl * TICKS_PER_SECOND)];
            return Answered(Ok);
          }
          begun := Posts(CmdKillShortcut(id));
      }
      posted := posted + [Message(begun.cmd, true)];
    }

    /** The handlers after the wait. */
    method FinishRequest(bev: Connection, cmd: Command, reply: Reply) returns (answer: Answer)
      modifies this
      ensures State() == Finish(cfg, old(State()), bev, cmd, reply) && answer == Convert(reply)
      ensures posted == old(posted)
    {
      answer := Convert(reply);
      if reply != Result(OK) {
        return;
      }
      match cmd {
        case CmdNewTab(url, pref, uuid) =>
          RememberOwnedTab(bev, uuid);
          if pref == POS_EXTRA {
            extraTabId := uuid;
          }
        case CmdKillTab(id, force) =>
          if force {
            ForgetOwnedTab(id);
          }
        case CmdNewShortcut(pref, uuid) =>
          if uuid !in shortcutLeases {
            shortcutLeases := shortcutLeases[uuid := Unlimited];
          }
        case CmdKillShortcut(id) =>
          shortcutLeases := shortcutLeases - {id};
        case _ =>
      }
    }
  }
}
