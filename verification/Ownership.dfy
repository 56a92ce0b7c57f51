/**
 Who owns a tab: with lifetime by connection, the connection whose request created it, over all runs; so a connection
 takes exactly the tabs it has created with it when it closes.
 */
module Ownership {
  import opened Ordering
  import opened TabPositions
  import opened Environment
  import opened ServerBooks
  import opened ServerThread
  import opened TwoThreads
  import opened Lifecycle
  import opened Effects

  ghost predicate Creates(entry: Entry, id: TabId, c: Connection) {
    entry.c == c && entry.req.NewTab? && entry.req.uuid == id && entry.answer == Ok
  }

  /** The log has an accepted create of the tab by the connection. */
  ghost predicate CreatedBy(log: seq<Entry>, id: TabId, c: Connection) {
    exists i :: 0 <= i < |log| && Creates(log[i], id, c)
  }

  lemma CreatedAfter(log: seq<Entry>, entry: Entry, id: TabId, c: Connection)
    ensures CreatedBy(log + [entry], id, c) <==> CreatedBy(log, id, c) || Creates(entry, id, c)
  {
    if i :| 0 <= i < |log| && Creates(log[i], id, c) {
      assert (log + [entry])[i] == log[i];
    }
    if Creates(entry, id, c) {
      assert (log + [entry])[|log|] == entry;
    }
  }

  /** Creates in the log are of ids drawn. */
  ghost predicate LogIsDrawn(a: Atomic) {
    forall i :: 0 <= i < |a.log| && a.log[i].req.NewTab? ==> a.log[i].req.uuid in a.used
  }

  /** A leased tab is owned by a connection iff that connection has created it. */
  ghost predicate CreatorsOwn(cfg: Config, a: Atomic) {
    && LogIsDrawn(a)
    && (cfg.tabLifetimeByConnection ==>
          forall id, c :: id in a.books.tabLeases ==>
            (id in Owned(a.books.connectionTabs, c) <==> CreatedBy(a.log, id, c)))
  }

  /** If owners and leases only lose tabs, and the log gains no accepted create, creators go on owning. */
  lemma LossKeeps(cfg: Config, a: Atomic, after: Atomic, gone: set<TabId>)
    requires CreatorsOwn(cfg, a) && LogIsDrawn(after)
    requires after.books.tabLeases.Keys == a.books.tabLeases.Keys - gone
    requires forall c :: Owned(after.books.connectionTabs, c) == Owned(a.books.connectionTabs, c) - gone
    requires forall id, c :: CreatedBy(after.log, id, c) == CreatedBy(a.log, id, c)
    ensures CreatorsOwn(cfg, after)
  {
  }

  lemma LogAfterReceive(cfg: Config, a: Atomic, e: Event)
    requires Arrives(cfg, a, e)
    ensures AtomicNext(cfg, a, e).log == a.log + [Entry(e.c, e.req, AnswerTo(cfg, a, e), e.now)]
    ensures AtomicNext(cfg, a, e).used == a.used + Drawn(e.req)
  {
  }

  lemma DrawnAfterReceive(cfg: Config, a: Atomic, e: Event)
    requires Arrives(cfg, a, e) && LogIsDrawn(a)
    ensures LogIsDrawn(AtomicNext(cfg, a, e))
  {
    LogAfterReceive(cfg, a, e);
  }

  lemma NewIsUnowned(cfg: Config, a: Atomic, id: TabId, c: Connection)
    requires Sound(cfg, a) && a.gui.Running? && id !in a.used
    ensures id !in Owned(a.books.connectionTabs, c)
  {
    OwnedAreLeased(cfg, a.books, c);
  }

  lemma NewTabKeepsCreators(cfg: Config, a: Atomic, e: Event)
    requires Arrives(cfg, a, e) && CreatorsOwn(cfg, a) && e.req.NewTab? && AnswerTo(cfg, a, e) == Ok
    ensures CreatorsOwn(cfg, AtomicNext(cfg, a, e))
  {
    var after, uuid := AtomicNext(cfg, a, e), e.req.uuid;
    var entry := Entry(e.c, e.req, Ok, e.now);
    LogAfterReceive(cfg, a, e);
    DrawnAfterReceive(cfg, a, e);
    NewTabEffect(cfg, a, e);
    if cfg.tabLifetimeByConnection {
      forall id, c | id in after.books.tabLeases
        ensures id in Owned(after.books.connectionTabs, c) <==> CreatedBy(after.log, id, c)
      {
        CreatedAfter(a.log, entry, id, c);
        if id == uuid {
          assert !CreatedBy(a.log, uuid, c);
          NewIsUnowned(cfg, a, uuid, c);
        }
      }
    }
  }

  /** What a request other than an accepted create takes from owners and leases. */
  lemma OtherRequests(cfg: Config, a: Atomic, e: Event) returns (gone: set<TabId>)
    requires Arrives(cfg, a, e) && !(e.req.NewTab? && AnswerTo(cfg, a, e) == Ok)
    ensures AtomicNext(cfg, a, e).books.tabLeases.Keys == a.books.tabLeases.Keys - gone
    ensures forall c :: Owned(AtomicNext(cfg, a, e).books.connectionTabs, c) == Owned(a.books.connectionTabs, c) - gone
  {
    gone := {};
    match e.req {
      case NewTab(_, _, _) => NewTabEffect(cfg, a, e);
      case Kill(id) =>
        KillEffect(cfg, a, e);
        gone := if id in a.books.tabLeases && id != a.books.extraTabId then {id} else {};
      case Navigate(_, _) => NavigateEffect(cfg, a, e);
      case Blink(_) => LookEffect(cfg, a, e);
      case GetMap => LookEffect(cfg, a, e);
      case Alive(id, ttl) =>
        AliveEffect(cfg, a, e);
        gone := if id in a.books.tabLeases && ttl == 0 then {id} else {};
      case NewShortcut(_, _) => NewShortcutEffect(cfg, a, e);
      case KillShortcut(_) => KillShortcutEffect(cfg, a, e);
      case ShortcutAlive(_, _) => ShortcutAliveEffect(cfg, a, e);
    }
  }

  lemma ReceiveKeepsCreators(cfg: Config, a: Atomic, e: Event)
    requires Arrives(cfg, a, e) && CreatorsOwn(cfg, a)
    ensures CreatorsOwn(cfg, AtomicNext(cfg, a, e))
  {
    if e.req.NewTab? && AnswerTo(cfg, a, e) == Ok {
      NewTabKeepsCreators(cfg, a, e);
    } else {
      var after, entry := AtomicNext(cfg, a, e), Entry(e.c, e.req, AnswerTo(cfg, a, e), e.now);
      LogAfterReceive(cfg, a, e);
      DrawnAfterReceive(cfg, a, e);
      forall id, c ensures CreatedBy(after.log, id, c) == CreatedBy(a.log, id, c) {
        CreatedAfter(a.log, entry, id, c);
      }
      var gone := OtherRequests(cfg, a, e);
      LossKeeps(cfg, a, after, gone);
    }
  }

  /** Forgetting a list takes it from leases and owners alike. */
  lemma ForgetTakes(cfg: Config, books: Books, ids: seq<TabId>)
    requires Partition(cfg, books) && "" !in ids
    ensures ForgetAll(books, ids).tabLeases.Keys == books.tabLeases.Keys - Elements(ids)
    ensures forall c :: Owned(ForgetAll(books, ids).connectionTabs, c) == Owned(books.connectionTabs, c) - Elements(ids)
  {
    ForgetAllContents(books, ids);
    forall c ensures Owned(ForgetAll(books, ids).connectionTabs, c) == Owned(books.connectionTabs, c) - Elements(ids) {
      ForgetAllOwners(books, ids, c);
    }
  }

  lemma PruneKeepsCreators(cfg: Config, a: Atomic, e: Event)
    requires Sound(cfg, a) && e.Prune? && AtomicEnabled(cfg, a, e) && CreatorsOwn(cfg, a)
    ensures CreatorsOwn(cfg, AtomicNext(cfg, a, e))
  {
    assert forall id :: id in e.tabOrder <==> id in Elements(e.tabOrder);
    ForgetTakes(cfg, a.books, e.tabOrder);
    LossKeeps(cfg, a, AtomicNext(cfg, a, e), Elements(e.tabOrder));
  }

  lemma CloseKeepsCreators(cfg: Config, a: Atomic, e: Event)
    requires Sound(cfg, a) && e.Close? && AtomicEnabled(cfg, a, e) && CreatorsOwn(cfg, a)
    ensures CreatorsOwn(cfg, AtomicNext(cfg, a, e))
  {
    var after := AtomicNext(cfg, a, e);
    assert forall id :: id in e.order <==> id in Elements(e.order);
    OwnedAreLeased(cfg, a.books, e.c);
    ForgetTakes(cfg, a.books, e.order);
    if cfg.tabLifetimeByConnection {
      CloseForgetsOwn(cfg, a.books, e.c, e.order);
      assert Owned(after.books.connectionTabs, e.c) == {};
      LossKeeps(cfg, a, after, Elements(e.order));
    }
  }

  lemma {:induction false} AtomicRunKeepsCreators(cfg: Config, a: Atomic, events: seq<Event>)
    requires Sound(cfg, a) && CreatorsOwn(cfg, a) && AtomicLegal(cfg, a, events)
    ensures CreatorsOwn(cfg, AtomicAfter(cfg, a, events))
    decreases |events|
  {
    if |events| > 0 {
      var e := events[0];
      match e {
        case Receive(_, _, _) =>
          ReceiveKeeps(cfg, a, e);
          ReceiveKeepsCreators(cfg, a, e);
        case Prune(_, _, _) =>
          PruneKeeps(cfg, a, e);
          PruneKeepsCreators(cfg, a, e);
        case Close(_, _) =>
          CloseKeeps(cfg, a, e);
          CloseKeepsCreators(cfg, a, e);
        case GuiStep =>
        case Resume =>
      }
      AtomicRunKeepsCreators(cfg, AtomicNext(cfg, a, e), events[1..]);
    }
  }

  /** Over all runs with lifetime by connection: a leased tab is owned by exactly who has created it. */
  lemma OwnerIsCreator(cfg: Config, events: seq<Event>, id: TabId, c: Connection)
    requires Legal(cfg, START, events) && Reached(cfg, events).phase.Idle? && cfg.tabLifetimeByConnection
    requires id in Reached(cfg, events).books.tabLeases
    ensures id in Owned(Reached(cfg, events).books.connectionTabs, c) <==> CreatedBy(Reached(cfg, events).log, id, c)
    ensures exists d :: CreatedBy(Reached(cfg, events).log, id, d)
  {
    Refines(cfg, START, events);
    assert Abstract(cfg, START) == ATOMIC_START;
    AtomicRunKeepsCreators(cfg, ATOMIC_START, Visible(events));
    RunKeeps(cfg, events);
    QueuedKillsMeetLeases(cfg, events);
    var s := Reached(cfg, events);
    var d :| d in s.books.connectionTabs && id in s.books.connectionTabs[d];
    assert id in Owned(s.books.connectionTabs, d);
    assert CreatedBy(s.log, id, d);
  }

  /** In every run a close kills and forgets exactly the leased tabs that its connection has created. */
  lemma CloseTakesCreated(cfg: Config, events: seq<Event>, e: Event)
    requires Legal(cfg, START, events) && e.Close? && Enabled(cfg, Reached(cfg, events), e)
    requires cfg.tabLifetimeByConnection
    ensures var s, s' := Reached(cfg, events), Next(cfg, Reached(cfg, events), e);
            && (forall id :: id in e.order <==> id in s.books.tabLeases && CreatedBy(s.log, id, e.c))
            && s'.books.tabLeases == s.books.tabLeases - Elements(e.order)
            && s'.queue == s.queue + TabKills(e.order)
  {
    var s := Reached(cfg, events);
    CloseInRun(cfg, events, e);
    QueuedKillsMeetLeases(cfg, events);
    OwnedAreLeased(cfg, s.books, e.c);
    assert forall id :: id in e.order <==> id in Elements(e.order);
    forall id | id in s.books.tabLeases
      ensures id in Owned(s.books.connectionTabs, e.c) <==> CreatedBy(s.log, id, e.c)
    {
      OwnerIsCreator(cfg, events, id, e.c);
    }
  }
}
