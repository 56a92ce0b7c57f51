/**
 What the server thread keeps about tabs and shortcuts: leases, owners and the extra tab; what every request does to
 these books before and after the GUI has answered; and the invariant of ownership.
 */
module ServerBooks {
  import opened Ordering
  import opened TabPositions
  import opened BrowserTabs
  import opened Environment

  /** A lease without a deadline, or one that ends at a time. */
  datatype Lease = Unlimited | Until(deadline: int)

  datatype Config = Config(tabLifetimeByConnection: bool, shortcutsEnabled: bool, shortcutMaxCount: int)

  /** `tabLeases`, `shortcutLeases`, `connectionTabs` and `extraTabId` (empty: none). */
  datatype Books = Books(
    tabLeases: map<TabId, Lease>,
    shortcutLeases: map<TabId, Lease>,
    connectionTabs: map<Connection, set<TabId>>,
    extraTabId: TabId)

  // ---------- bookkeeping ----------

  function Owned(tabs: map<Connection, set<TabId>>, c: Connection): set<TabId> {
    if c in tabs then tabs[c] else {}
  }

  /** `rememberOwnedTab` */
  function Remember(cfg: Config, books: Books, c: Connection, id: TabId): Books {
    if id == "" then books
    else books.(
         tabLeases := if id in books.tabLeases then books.tabLeases else books.tabLeases[id := Unlimited],
         connectionTabs := if cfg.tabLifetimeByConnection
                           then books.connectionTabs[c := Owned(books.connectionTabs, c) + {id}]
                           else books.connectionTabs)
  }

  /** A tab taken from all owners; an owner left with nothing is dropped. */
  function Disown(tabs: map<Connection, set<TabId>>, id: TabId): map<Connection, set<TabId>> {
    map c | c in tabs && tabs[c] - {id} != {} :: tabs[c] - {id}
  }

  /** `forgetOwnedTab` */
  function Forget(books: Books, id: TabId): Books {
    if id == "" then books
    else books.(
         tabLeases := books.tabLeases - {id},
         extraTabId := if books.extraTabId == id then "" else books.extraTabId,
         connectionTabs := Disown(books.connectionTabs, id))
  }

  function ForgetAll(books: Books, ids: seq<TabId>): Books {
    if |ids| == 0 then books else Forget(ForgetAll(books, ids[..|ids| - 1]), ids[|ids| - 1])
  }

  function ForgetShortcuts(books: Books, ids: set<TabId>): Books {
    books.(shortcutLeases := books.shortcutLeases - ids)
  }

  function Expired(leases: map<TabId, Lease>, now: int): set<TabId> {
    set id | id in leases && leases[id].Until? && leases[id].deadline <= now
  }

  /** `eraseConnection` on the owners. */
  function DropConnection(books: Books, c: Connection): Books {
    books.(connectionTabs := books.connectionTabs - {c})
  }

  // ---------- requests ----------

  datatype Request =
    | NewTab(url: string, pref: int, uuid: TabId)
    | Kill(id: TabId)
    | Navigate(id: TabId, url: string)
    | Blink(id: TabId)
    | GetMap
    | Alive(id: TabId, ttl: int)
    | NewShortcut(pref: int, uuid: TabId)
    | KillShortcut(id: TabId)
    | ShortcutAlive(id: TabId, ttl: int)

  /** A command for the GUI thread. */
  datatype Command =
    | CmdNewTab(url: string, pref: int, uuid: TabId)
    | CmdKillTab(id: TabId, force: bool)
    | CmdNavigate(id: TabId, url: string)
    | CmdBlink(id: TabId)
    | CmdGetMap
    | CmdNewShortcut(pref: int, uuid: TabId)
    | CmdKillShortcut(id: TabId)

  /** What the GUI puts into a `CmdResponse`. */
  datatype Reply = Result(code: ResultCode) | Map(cells: seq<Cell>)

  /** What goes back to the client; `Never` where the GUI command was undefined. */
  datatype Answer = Ok | BadRequest | InvalidTab | ExecFailed | TabMapIs(cells: seq<Cell>) | Never

  /** A handler answers at once, or posts a command and waits. */
  datatype Begun = Answered(answer: Answer) | Posts(cmd: Command)

  /** A handler up to its answer or to the command it waits for. */
  function Begin(books: Books, req: Request, now: int): (Begun, Books) {
    match req
    case NewTab(url, pref, uuid) => (Posts(CmdNewTab(url, pref, uuid)), books)
    case Kill(id) => (Posts(CmdKillTab(id, !(id != "" && id == books.extraTabId))), books)
    case Navigate(id, url) => (Posts(CmdNavigate(id, url)), books)
    case Blink(id) => (Posts(CmdBlink(id)), books)
    case GetMap => (Posts(CmdGetMap), books)
    case Alive(id, ttl) =>
      if ttl < 0 then (Answered(BadRequest), books)
      else if id !in books.tabLeases then (Answered(InvalidTab), books)
      else if ttl == 0 then (Posts(CmdKillTab(id, true)), books)
      else (Answered(Ok), books.(tabLeases := books.tabLeases[id := Until(now + ttl * TICKS_PER_SECOND)]))
    case NewShortcut(pref, uuid) => (Posts(CmdNewShortcut(pref, uuid)), books)
    case KillShortcut(id) => (Posts(CmdKillShortcut(id)), books)
    case ShortcutAlive(id, ttl) =>
      if ttl < 0 then (Answered(BadRequest), books)
      else if id !in books.shortcutLeases then (Answered(InvalidTab), books)
      else if ttl == 0 then (Posts(CmdKillShortcut(id)), books)
      else (Answered(Ok), books.(shortcutLeases := books.shortcutLeases[id := Until(now + ttl * TICKS_PER_SECOND)]))
  }

  /** `convertGuiResultToMadt` */
  function Convert(reply: Reply): Answer {
    match reply
    case Map(cells) => TabMapIs(cells)
    case Result(OK) => Ok
    case Result(TabNotFound) => InvalidTab
    case Result(ExecError) => ExecFailed
    case Result(Undefined) => Never
  }

  /** A handler after the GUI has replied. */
  function Finish(cfg: Config, books: Books, c: Connection, cmd: Command, reply: Reply): Books {
    if reply != Result(OK) then books
    else
      match cmd
      case CmdNewTab(url, pref, uuid) =>
        var remembered := Remember(cfg, books, c, uuid);
        if pref == POS_EXTRA then remembered.(extraTabId := uuid) else remembered
      case CmdKillTab(id, force) => if force then Forget(books, id) else books
      case CmdNewShortcut(pref, uuid) =>
        books.(shortcutLeases := if uuid in books.shortcutLeases then books.shortcutLeases
                                 else books.shortcutLeases[uuid := Unlimited])
      case CmdKillShortcut(id) => books.(shortcutLeases := books.shortcutLeases - {id})
      case _ => books
  }

  // ---------- ownership ----------

  ghost predicate HasOwner(tabs: map<Connection, set<TabId>>, id: TabId) {
    exists c :: c in tabs && id in tabs[c]
  }

  /** The owners' sets are nonempty, pairwise disjoint and together the leased tabs. */
  ghost predicate Partitioned(tabs: map<Connection, set<TabId>>, leased: set<TabId>) {
    && (forall c :: c in tabs ==> tabs[c] != {} && tabs[c] <= leased)
    && (forall c, d, id {:trigger id in tabs[c], id in tabs[d]} ::
          c in tabs && d in tabs && id in tabs[c] && id in tabs[d] ==> c == d)
    && (forall id :: id in leased ==> HasOwner(tabs, id))
  }

  /** With lifetime by connection on, the owners partition the leased tabs; off, there are none. */
  ghost predicate Partition(cfg: Config, books: Books) {
    && "" !in books.tabLeases
    && (books.extraTabId != "" ==> books.extraTabId in books.tabLeases)
    && (if cfg.tabLifetimeByConnection then Partitioned(books.connectionTabs, books.tabLeases.Keys)
        else books.connectionTabs == map[])
  }

  lemma OwnOneMore(tabs: map<Connection, set<TabId>>, leased: set<TabId>, c: Connection, id: TabId)
    requires Partitioned(tabs, leased) && id !in leased
    ensures Partitioned(tabs[c := Owned(tabs, c) + {id}], leased + {id})
  {
    var after := tabs[c := Owned(tabs, c) + {id}];
    forall k | k in leased + {id} ensures HasOwner(after, k) {
      if k == id {
        assert id in after[c];
      } else {
        var d :| d in tabs && k in tabs[d];
        assert k in after[d];
      }
    }
  }

  lemma OwnOneLess(tabs: map<Connection, set<TabId>>, leased: set<TabId>, id: TabId)
    requires Partitioned(tabs, leased)
    ensures Partitioned(Disown(tabs, id), leased - {id})
  {
    var after := Disown(tabs, id);
    forall k | k in leased - {id} ensures HasOwner(after, k) {
      var d :| d in tabs && k in tabs[d];
      assert k in tabs[d] - {id};
      assert k in after[d];
    }
  }

  lemma RememberKeepsPartition(cfg: Config, books: Books, c: Connection, id: TabId)
    requires Partition(cfg, books) && id != "" && id !in books.tabLeases
    ensures Partition(cfg, Remember(cfg, books, c, id))
  {
    if cfg.tabLifetimeByConnection {
      OwnOneMore(books.connectionTabs, books.tabLeases.Keys, c, id);
      assert Remember(cfg, books, c, id).tabLeases.Keys == books.tabLeases.Keys + {id};
    }
  }

  lemma ForgetKeepsPartition(cfg: Config, books: Books, id: TabId)
    requires Partition(cfg, books)
    ensures Partition(cfg, Forget(books, id))
  {
    if cfg.tabLifetimeByConnection {
      OwnOneLess(books.connectionTabs, books.tabLeases.Keys, id);
      assert id != "" ==> Forget(books, id).tabLeases.Keys == books.tabLeases.Keys - {id};
    }
  }

  lemma {:induction false} ForgetAllContents(books: Books, ids: seq<TabId>)
    requires "" !in ids
    ensures ForgetAll(books, ids).tabLeases == books.tabLeases - Elements(ids)
    ensures ForgetAll(books, ids).shortcutLeases == books.shortcutLeases
    ensures ForgetAll(books, ids).extraTabId == if books.extraTabId in ids then "" else books.extraTabId
    decreases |ids|
  {
    if |ids| > 0 {
      var n := |ids| - 1;
      ForgetAllContents(books, ids[..n]);
      assert ids == ids[..n] + [ids[n]];
      assert Elements(ids) == Elements(ids[..n]) + {ids[n]};
    }
  }

  lemma {:induction false} ForgetAllKeepsPartition(cfg: Config, books: Books, ids: seq<TabId>)
    requires Partition(cfg, books)
    ensures Partition(cfg, ForgetAll(books, ids))
    decreases |ids|
  {
    if |ids| > 0 {
      ForgetAllKeepsPartition(cfg, books, ids[..|ids| - 1]);
      ForgetKeepsPartition(cfg, ForgetAll(books, ids[..|ids| - 1]), ids[|ids| - 1]);
    }
  }

  /** What the owners are left with after a list of tabs is forgotten. */
  lemma {:induction false} ForgetAllOwners(books: Books, ids: seq<TabId>, c: Connection)
    requires "" !in ids
    requires forall d :: d in books.connectionTabs ==> books.connectionTabs[d] != {}
    ensures var left := Owned(books.connectionTabs, c) - Elements(ids);
            && (c in ForgetAll(books, ids).connectionTabs <==> left != {})
            && Owned(ForgetAll(books, ids).connectionTabs, c) == left
    decreases |ids|
  {
    if |ids| > 0 {
      var n := |ids| - 1;
      ForgetAllOwners(books, ids[..n], c);
      assert ids == ids[..n] + [ids[n]];
      assert Elements(ids) == Elements(ids[..n]) + {ids[n]};
    }
  }

  lemma OwnersApart(tabs: map<Connection, set<TabId>>, leased: set<TabId>, c: Connection, d: Connection)
    requires Partitioned(tabs, leased) && c != d
    ensures Owned(tabs, d) - Owned(tabs, c) == Owned(tabs, d)
  {
  }

  /**
   Closing a connection forgets exactly its own tabs: every other lease and every other owner is as before, and the
   connection owns nothing any more.
   */
  lemma CloseForgetsOwn(cfg: Config, books: Books, c: Connection, ids: seq<TabId>)
    requires Partition(cfg, books) && cfg.tabLifetimeByConnection
    requires Elements(ids) == Owned(books.connectionTabs, c)
    ensures var after := DropConnection(ForgetAll(books, ids), c);
            && Partition(cfg, after)
            && after.tabLeases == books.tabLeases - Owned(books.connectionTabs, c)
            && c !in after.connectionTabs
            && forall d :: d != c ==> Owned(after.connectionTabs, d) == Owned(books.connectionTabs, d)
  {
    var tabs := books.connectionTabs;
    assert forall id :: id in ids <==> id in Elements(ids);
    assert "" !in ids;
    ForgetAllContents(books, ids);
    ForgetAllKeepsPartition(cfg, books, ids);
    ForgetAllOwners(books, ids, c);
    assert DropConnection(ForgetAll(books, ids), c) == ForgetAll(books, ids);
    forall d | d != c ensures Owned(ForgetAll(books, ids).connectionTabs, d) == Owned(tabs, d) {
      ForgetAllOwners(books, ids, d);
      OwnersApart(tabs, books.tabLeases.Keys, c, d);
    }
  }
}
