/**
 What the tab lifecycle guarantees over all runs of the two threads: leases and live tabs agree, owners partition the
 leases, replies are right, deadlines are kept, and every request is answered once.
 */
module Lifecycle {
  import opened Ordering
  import opened TabPositions
  import opened BrowserTabs
  import opened Environment
  import opened ServerBooks
  import opened ServerThread
  import opened ZoneAllocation
  import opened TwoThreads
  import Runs = TabRuns
  import History = ZoneHistory
  import Boards = Shortcuts

  // ---------- what the atomic server keeps ----------

  /** The extra tab of the books is the extra tab of the browser. */
  ghost predicate ExtraAgrees(tabs: Tabs, extra: TabId) {
    forall id :: id in tabs ==> (tabs[id].pref == POS_EXTRA <==> id == extra)
  }

  /** Live tabs and shortcuts are the leased ones, positions are in order, owners partition the leases. */
  ghost predicate Consistent(cfg: Config, books: Books, tabs: Tabs, board: Boards.Board, used: set<TabId>) {
    && tabs.Keys == books.tabLeases.Keys
    && board.Keys == books.shortcutLeases.Keys
    && Inv(tabs) && Boards.BoardInv(board, MaxShortcuts(cfg))
    && Partition(cfg, books) && ExtraAgrees(tabs, books.extraTabId)
    && "" in used && tabs.Keys <= used && board.Keys <= used
  }

  ghost predicate Sound(cfg: Config, a: Atomic) {
    a.gui.Running? ==> Consistent(cfg, a.books, a.gui.tabs, a.gui.board, a.used)
  }

  /** The commands the handlers post: new ids are new, and only the extra tab is killed without force. */
  ghost predicate Postable(books: Books, cmd: Command) {
    match cmd
    case CmdNewTab(url, pref, uuid) => uuid != "" && uuid !in books.tabLeases
    case CmdNewShortcut(pref, uuid) => uuid !in books.shortcutLeases
    case CmdKillTab(id, force) => force || (id != "" && id == books.extraTabId)
    case _ => true
  }

  lemma RememberedTab(cfg: Config, books: Books, c: Connection, id: TabId)
    requires Partition(cfg, books) && id != "" && id !in books.tabLeases
    ensures var after := Remember(cfg, books, c, id);
            && after.tabLeases.Keys == books.tabLeases.Keys + {id}
            && after.shortcutLeases == books.shortcutLeases && after.extraTabId == books.extraTabId
            && Partition(cfg, after) && Partition(cfg, after.(extraTabId := id))
  {
    RememberKeepsPartition(cfg, books, c, id);
  }

  lemma NewExtraAgrees(tabs: Tabs, after: Tabs, id: TabId, pref: int, extra: TabId)
    requires ExtraAgrees(tabs, extra) && id !in tabs && id != "" && after.Keys == tabs.Keys + {id}
    requires after[id].pref == pref && forall k :: k in tabs ==> after[k].pref == tabs[k].pref
    requires pref == POS_EXTRA ==> !HasExtra(tabs)
    requires extra != "" ==> extra in tabs
    ensures ExtraAgrees(after, if pref == POS_EXTRA then id else extra)
  {
  }

  /** A create adds one tab with the preference asked for, and changes nobody else's. */
  lemma CreatedTabs(tabs: Tabs, id: TabId, url: string, pref: int)
    requires Inv(tabs) && id !in tabs && Create(tabs, id, url, pref).Placed?
    ensures var after := Create(tabs, id, url, pref).tabs;
            && after.Keys == tabs.Keys + {id}
            && after[id].pref == pref
            && (forall k :: k in tabs ==> after[k].pref == tabs[k].pref)
            && (pref == POS_EXTRA ==> !HasExtra(tabs))
  {
    if IsZone(pref) {
      Runs.CreateZoneKeepsInv(tabs, id, url, pref);
      DealFrame(tabs[id := Tab(url, pref, -1)], pref);
    }
  }

  lemma NewTabKeeps(cfg: Config, a: Atomic, c: Connection, req: Request, cmd: Command, since: int)
    requires Sound(cfg, a) && a.gui.Running? && cmd.CmdNewTab? && Postable(a.books, cmd) && cmd.uuid in a.used
    ensures Sound(cfg, Settle(cfg, a, c, req, cmd, since))
  {
    var tabs, uuid := a.gui.tabs, cmd.uuid;
    var r := Create(tabs, uuid, cmd.url, cmd.pref);
    if r.Placed? {
      Runs.CreateKeepsInv(tabs, uuid, cmd.url, cmd.pref);
      CreatedTabs(tabs, uuid, cmd.url, cmd.pref);
      RememberedTab(cfg, a.books, c, uuid);
      var books := Finish(cfg, a.books, c, cmd, Result(OK));
      assert Partition(cfg, books);
      NewExtraAgrees(tabs, r.tabs, uuid, cmd.pref, a.books.extraTabId);
    }
  }

  lemma KillKeeps(cfg: Config, a: Atomic, c: Connection, req: Request, cmd: Command, since: int)
    requires Sound(cfg, a) && a.gui.Running? && cmd.CmdKillTab? && Postable(a.books, cmd)
    ensures Sound(cfg, Settle(cfg, a, c, req, cmd, since))
  {
    Runs.KillKeepsInv(a.gui.tabs, cmd.id, cmd.force);
    ForgetKeepsPartition(cfg, a.books, cmd.id);
  }

  lemma NavigateKeeps(cfg: Config, a: Atomic, c: Connection, req: Request, cmd: Command, since: int)
    requires Sound(cfg, a) && a.gui.Running? && cmd.CmdNavigate?
    ensures Sound(cfg, Settle(cfg, a, c, req, cmd, since))
  {
    if cmd.id in a.gui.tabs {
      Runs.NavigatePlaces(a.gui.tabs, cmd.id, cmd.url);
    }
  }

  /** Leases and live tabs agree whatever becomes of the shortcuts. */
  lemma OtherShortcuts(cfg: Config, books: Books, tabs: Tabs, board: Boards.Board, used: set<TabId>,
                       leases: map<TabId, Lease>, after: Boards.Board)
    requires Consistent(cfg, books, tabs, board, used)
    requires after.Keys == leases.Keys && after.Keys <= used && Boards.BoardInv(after, MaxShortcuts(cfg))
    ensures Consistent(cfg, books.(shortcutLeases := leases), tabs, after, used)
  {
  }

  lemma NewShortcutKeeps(cfg: Config, a: Atomic, c: Connection, req: Request, cmd: Command, since: int)
    requires Sound(cfg, a) && a.gui.Running? && Postable(a.books, cmd)
    requires cmd.CmdNewShortcut? && cmd.uuid in a.used
    ensures Sound(cfg, Settle(cfg, a, c, req, cmd, since))
  {
    Boards.AddOutcome(a.gui.board, cmd.uuid, cmd.pref, MaxShortcuts(cfg));
    var after := Settle(cfg, a, c, req, cmd, since);
    OtherShortcuts(cfg, a.books, a.gui.tabs, a.gui.board, a.used, after.books.shortcutLeases, after.gui.board);
  }

  lemma KillShortcutKeeps(cfg: Config, a: Atomic, c: Connection, req: Request, cmd: Command, since: int)
    requires Sound(cfg, a) && a.gui.Running? && cmd.CmdKillShortcut?
    ensures Sound(cfg, Settle(cfg, a, c, req, cmd, since))
  {
    var after := Settle(cfg, a, c, req, cmd, since);
    assert cmd.id !in a.gui.board ==> a.gui.board - {cmd.id} == a.gui.board;
    OtherShortcuts(cfg, a.books, a.gui.tabs, a.gui.board, a.used, after.books.shortcutLeases, after.gui.board);
  }

  lemma SettleKeeps(cfg: Config, a: Atomic, c: Connection, req: Request, cmd: Command, since: int)
    requires Sound(cfg, a) && a.gui.Running? && Postable(a.books, cmd)
    requires cmd.CmdNewTab? || cmd.CmdNewShortcut? ==> cmd.uuid in a.used
    ensures Sound(cfg, Settle(cfg, a, c, req, cmd, since))
  {
    match cmd {
      case CmdNewTab(_, _, _) => NewTabKeeps(cfg, a, c, req, cmd, since);
      case CmdKillTab(_, _) => KillKeeps(cfg, a, c, req, cmd, since);
      case CmdNavigate(_, _) => NavigateKeeps(cfg, a, c, req, cmd, since);
      case CmdNewShortcut(_, _) => NewShortcutKeeps(cfg, a, c, req, cmd, since);
      case CmdKillShortcut(_) => KillShortcutKeeps(cfg, a, c, req, cmd, since);
      case CmdBlink(_) =>
      case CmdGetMap =>
    }
  }

  /** Before the GUI is asked, a request changes no more than a deadline. */
  lemma BeginBooks(books: Books, req: Request, now: int)
    ensures var after := Begin(books, req, now).1;
            && after.tabLeases.Keys == books.tabLeases.Keys
            && after.shortcutLeases.Keys == books.shortcutLeases.Keys
            && after.connectionTabs == books.connectionTabs && after.extraTabId == books.extraTabId
  {
  }

  lemma BeginKeeps(cfg: Config, a: Atomic, e: Event)
    requires Sound(cfg, a) && e.Receive? && AtomicEnabled(cfg, a, e)
    ensures var (begun, books) := Begin(a.books, e.req, e.now);
            && Sound(cfg, a.(books := books, now := e.now, used := a.used + Drawn(e.req)))
            && (begun.Posts? ==>
                  && Postable(books, begun.cmd)
                  && (begun.cmd.CmdNewTab? || begun.cmd.CmdNewShortcut? ==> begun.cmd.uuid in a.used + Drawn(e.req)))
  {
    BeginBooks(a.books, e.req, e.now);
  }

  lemma ReceiveKeeps(cfg: Config, a: Atomic, e: Event)
    requires Sound(cfg, a) && e.Receive? && AtomicEnabled(cfg, a, e)
    ensures Sound(cfg, AtomicNext(cfg, a, e))
  {
    var (begun, books) := Begin(a.books, e.req, e.now);
    var a' := a.(books := books, now := e.now, used := a.used + Drawn(e.req));
    BeginKeeps(cfg, a, e);
    if begun.Posts? {
      SettleKeeps(cfg, a', e.c, e.req, begun.cmd, e.now);
    }
  }

  lemma {:induction false} TabKillsRun(cfg: Config, tabs: Tabs, board: Boards.Board, ids: seq<TabId>)
    ensures RunAll(cfg, Running(tabs, board), TabKills(ids)) == Running(tabs - Elements(ids), board)
    ensures Inv(tabs) ==> Inv(tabs - Elements(ids))
    decreases |ids|
  {
    if |ids| == 0 {
      assert tabs - Elements(ids) == tabs;
    } else {
      assert TabKills(ids)[1..] == TabKills(ids[1..]);
      var next := TabPositions.Kill(tabs, ids[0], true);
      if Inv(tabs) {
        Runs.KillKeepsInv(tabs, ids[0], true);
      }
      TabKillsRun(cfg, next, board, ids[1..]);
      assert ids == [ids[0]] + ids[1..];
      assert tabs - Elements(ids) == next - Elements(ids[1..]);
    }
  }

  lemma {:induction false} ShortcutKillsRun(cfg: Config, tabs: Tabs, board: Boards.Board, ids: seq<TabId>)
    ensures RunAll(cfg, Running(tabs, board), ShortcutKills(ids)) == Running(tabs, board - Elements(ids))
    decreases |ids|
  {
    if |ids| == 0 {
      assert board - Elements(ids) == board;
    } else {
      assert ShortcutKills(ids)[1..] == ShortcutKills(ids[1..]);
      ShortcutKillsRun(cfg, tabs, board - {ids[0]}, ids[1..]);
      assert ids == [ids[0]] + ids[1..];
      assert board - Elements(ids) == (board - {ids[0]}) - Elements(ids[1..]);
    }
  }

  /** Tabs forgotten in the books and killed in the browser. */
  lemma ForgetKeeps(cfg: Config, books: Books, tabs: Tabs, board: Boards.Board, used: set<TabId>, ids: seq<TabId>)
    requires Consistent(cfg, books, tabs, board, used) && "" !in ids && Inv(tabs - Elements(ids))
    ensures Consistent(cfg, ForgetAll(books, ids), tabs - Elements(ids), board, used)
  {
    ForgetAllContents(books, ids);
    ForgetAllKeepsPartition(cfg, books, ids);
    assert forall id :: id in ids <==> id in Elements(ids);
  }

  /** What the kills posted by a prune leave. */
  lemma PruneKillsRun(cfg: Config, tabs: Tabs, board: Boards.Board, ids: seq<TabId>, shortcuts: seq<TabId>)
    ensures RunAll(cfg, Running(tabs, board), TabKills(ids) + ShortcutKills(shortcuts))
            == Running(tabs - Elements(ids), board - Elements(shortcuts))
    ensures Inv(tabs) ==> Inv(tabs - Elements(ids))
  {
    RunAllAppend(cfg, Running(tabs, board), TabKills(ids), ShortcutKills(shortcuts));
    TabKillsRun(cfg, tabs, board, ids);
    ShortcutKillsRun(cfg, tabs - Elements(ids), board, shortcuts);
  }

  lemma PruneKeeps(cfg: Config, a: Atomic, e: Event)
    requires Sound(cfg, a) && e.Prune? && AtomicEnabled(cfg, a, e)
    ensures Sound(cfg, AtomicNext(cfg, a, e))
  {
    if a.gui.Running? {
      var tabs, board, books := a.gui.tabs, a.gui.board, ForgetAll(a.books, e.tabOrder);
      PruneKillsRun(cfg, tabs, board, e.tabOrder, e.shortcutOrder);
      assert "" !in e.tabOrder by {
        assert forall id :: id in e.tabOrder ==> id in Elements(e.tabOrder);
      }
      ForgetKeeps(cfg, a.books, tabs, board, a.used, e.tabOrder);
      var shortcuts := board - Elements(e.shortcutOrder);
      OtherShortcuts(cfg, books, tabs - Elements(e.tabOrder), board, a.used,
                     books.shortcutLeases - Elements(e.shortcutOrder), shortcuts);
    }
  }

  lemma OwnedAreLeased(cfg: Config, books: Books, c: Connection)
    requires Partition(cfg, books)
    ensures Owned(books.connectionTabs, c) <= books.tabLeases.Keys
    ensures "" !in Owned(books.connectionTabs, c)
  {
  }

  lemma CloseKeeps(cfg: Config, a: Atomic, e: Event)
    requires Sound(cfg, a) && e.Close? && AtomicEnabled(cfg, a, e)
    ensures Sound(cfg, AtomicNext(cfg, a, e))
  {
    TabKillsRun(cfg, a.gui.tabs, a.gui.board, e.order);
    assert forall id :: id in e.order <==> id in Elements(e.order);
    if cfg.tabLifetimeByConnection {
      OwnedAreLeased(cfg, a.books, e.c);
      CloseForgetsOwn(cfg, a.books, e.c, e.order);
    }
    ForgetKeeps(cfg, a.books, a.gui.tabs, a.gui.board, a.used, e.order);
  }

  // ---------- deadlines ----------

  /** The deadline last granted to a tab, as the answered requests tell it. */
  function Granted(log: seq<Entry>, id: TabId): Lease {
    if |log| == 0 then Unlimited
    else
      var last := log[|log| - 1];
      if last.req.Alive? && last.req.id == id && last.req.ttl > 0 && last.answer == Ok then
        Until(last.time + last.req.ttl * TICKS_PER_SECOND)
      else Granted(log[..|log| - 1], id)
  }

  function GrantedShortcut(log: seq<Entry>, id: TabId): Lease {
    if |log| == 0 then Unlimited
    else
      var last := log[|log| - 1];
      if last.req.ShortcutAlive? && last.req.id == id && last.req.ttl > 0 && last.answer == Ok then
        Until(last.time + last.req.ttl * TICKS_PER_SECOND)
      else GrantedShortcut(log[..|log| - 1], id)
  }

  /** Every lease is what was last granted; nothing was ever granted to an id not drawn yet. */
  ghost predicate LeasesAreGrants(a: Atomic) {
    && a.books.tabLeases.Keys <= a.used && a.books.shortcutLeases.Keys <= a.used
    && (forall id :: id in a.books.tabLeases ==> a.books.tabLeases[id] == Granted(a.log, id))
    && (forall id :: id in a.books.shortcutLeases ==> a.books.shortcutLeases[id] == GrantedShortcut(a.log, id))
    && (forall id :: id !in a.used ==> Granted(a.log, id) == GrantedShortcut(a.log, id) == Unlimited)
  }

  lemma GrantedAfter(log: seq<Entry>, entry: Entry, id: TabId)
    ensures Granted(log + [entry], id) ==
            (if entry.req.Alive? && entry.req.id == id && entry.req.ttl > 0 && entry.answer == Ok
             then Until(entry.time + entry.req.ttl * TICKS_PER_SECOND) else Granted(log, id))
    ensures GrantedShortcut(log + [entry], id) ==
            (if entry.req.ShortcutAlive? && entry.req.id == id && entry.req.ttl > 0 && entry.answer == Ok
             then Until(entry.time + entry.req.ttl * TICKS_PER_SECOND) else GrantedShortcut(log, id))
  {
    assert (log + [entry])[..|log + [entry]| - 1] == log;
  }

  /** A request answered at once grants at most the lease it asks for. */
  lemma AnsweredGrants(a: Atomic, e: Event, entry: Entry, books: Books)
    requires LeasesAreGrants(a) && e.Receive?
    requires Begin(a.books, e.req, e.now) == (Answered(entry.answer), books)
    requires entry.req == e.req && entry.time == e.now
    ensures LeasesAreGrants(a.(books := books, log := a.log + [entry], now := e.now, used := a.used + Drawn(e.req)))
  {
    forall id ensures Granted(a.log + [entry], id) == Granted(a.log, id) || (id in books.tabLeases &&
        e.req.Alive? && e.req.id == id && books.tabLeases[id] == Granted(a.log + [entry], id))
    {
      GrantedAfter(a.log, entry, id);
    }
    forall id ensures GrantedShortcut(a.log + [entry], id) == GrantedShortcut(a.log, id) || (id in books.shortcutLeases
        && e.req.ShortcutAlive? && e.req.id == id
        && books.shortcutLeases[id] == GrantedShortcut(a.log + [entry], id))
    {
      GrantedAfter(a.log, entry, id);
    }
    forall id | id in books.tabLeases ensures books.tabLeases[id] == Granted(a.log + [entry], id) {
      GrantedAfter(a.log, entry, id);
    }
    forall id | id in books.shortcutLeases ensures books.shortcutLeases[id] == GrantedShortcut(a.log + [entry], id) {
      GrantedAfter(a.log, entry, id);
    }
  }

  /** A request that goes through the GUI grants nothing; a new id starts without a deadline. */
  lemma PostedGrants(cfg: Config, a: Atomic, e: Event, entry: Entry, cmd: Command)
    requires LeasesAreGrants(a) && e.Receive? && AtomicEnabled(cfg, a, e)
    requires Begin(a.books, e.req, e.now).0 == Posts(cmd) && entry.req == e.req
    requires AtomicNext(cfg, a, e).log == a.log + [entry]
    ensures LeasesAreGrants(AtomicNext(cfg, a, e))
  {
    forall id ensures Granted(a.log + [entry], id) == Granted(a.log, id)
    {
      GrantedAfter(a.log, entry, id);
    }
    forall id ensures GrantedShortcut(a.log + [entry], id) == GrantedShortcut(a.log, id)
    {
      GrantedAfter(a.log, entry, id);
    }
  }

  lemma ReceiveGrants(cfg: Config, a: Atomic, e: Event)
    requires LeasesAreGrants(a) && e.Receive? && AtomicEnabled(cfg, a, e)
    ensures LeasesAreGrants(AtomicNext(cfg, a, e))
  {
    var a' := AtomicNext(cfg, a, e);
    var entry := a'.log[|a.log|];
    assert a'.log == a.log + [entry];
    var (begun, books) := Begin(a.books, e.req, e.now);
    if begun.Answered? {
      AnsweredGrants(a, e, entry, books);
    } else {
      PostedGrants(cfg, a, e, entry, begun.cmd);
    }
  }

  lemma PostingGrants(cfg: Config, a: Atomic, e: Event)
    requires LeasesAreGrants(a) && (e.Prune? || e.Close?) && AtomicEnabled(cfg, a, e)
    requires Sound(cfg, a)
    ensures LeasesAreGrants(AtomicNext(cfg, a, e))
  {
    match e
    case Prune(now, tabOrder, shortcutOrder) =>
      assert forall id :: id in tabOrder ==> id in Elements(tabOrder);
      ForgetAllContents(a.books, tabOrder);
    case Close(c, order) =>
      OwnedAreLeased(cfg, a.books, c);
      assert forall id :: id in order ==> id in Elements(order);
      ForgetAllContents(a.books, order);
  }

  // ---------- all runs ----------

  const ATOMIC_START := Atomic(START_BOOKS, Running(map[], map[]), [], 0, {""})

  lemma {:induction false} AtomicRunKeeps(cfg: Config, a: Atomic, events: seq<Event>)
    requires Sound(cfg, a) && LeasesAreGrants(a) && AtomicLegal(cfg, a, events)
    ensures Sound(cfg, AtomicAfter(cfg, a, events)) && LeasesAreGrants(AtomicAfter(cfg, a, events))
    decreases |events|
  {
    if |events| > 0 {
      var e := events[0];
      match e {
        case Receive(_, _, _) =>
          ReceiveKeeps(cfg, a, e);
          ReceiveGrants(cfg, a, e);
        case Prune(_, _, _) =>
          PruneKeeps(cfg, a, e);
          PostingGrants(cfg, a, e);
        case Close(_, _) =>
          CloseKeeps(cfg, a, e);
          PostingGrants(cfg, a, e);
      }
      AtomicRunKeeps(cfg, AtomicNext(cfg, a, e), events[1..]);
    }
  }

  /** The state after a run of the two threads from the start. */
  ghost function Reached(cfg: Config, events: seq<Event>): System
    requires Legal(cfg, START, events)
  {
    After(cfg, START, events)
  }

  lemma RunKeeps(cfg: Config, events: seq<Event>)
    requires Legal(cfg, START, events)
    ensures WellFormed(Reached(cfg, events))
    ensures Sound(cfg, Abstract(cfg, Reached(cfg, events)))
    ensures LeasesAreGrants(Abstract(cfg, Reached(cfg, events)))
  {
    Refines(cfg, START, events);
    assert Abstract(cfg, START) == ATOMIC_START;
    AtomicRunKeeps(cfg, ATOMIC_START, Visible(events));
  }

  /**
   Whenever the server thread is in its event loop: once the queued kills are applied to the browser's tabs, the live
   tabs are exactly the leased ones, likewise the shortcuts, and the owners partition the leases.
   */
  lemma QueuedKillsMeetLeases(cfg: Config, events: seq<Event>)
    requires Legal(cfg, START, events) && Reached(cfg, events).phase.Idle?
    ensures var s := Reached(cfg, events);
            var drained := RunAll(cfg, s.gui, s.queue);
            && drained.Running?
            && drained.tabs.Keys == s.books.tabLeases.Keys
            && drained.board.Keys == s.books.shortcutLeases.Keys
            && Partition(cfg, s.books)
  {
    RunKeeps(cfg, events);
    var s := Reached(cfg, events);
    KillsKeepRunning(cfg, s.gui, s.queue);
  }

  /** The server while the posted kills before the command in flight are carried out, and that command is not. */
  ghost function BeforeCommand(cfg: Config, s: System): Atomic
    requires |s.queue| > 0
  {
    Atomic(s.books, RunAll(cfg, s.gui, s.queue[..|s.queue| - 1]), s.log, s.now, s.used)
  }

  ghost predicate SoundBeforeCommand(cfg: Config, s: System) {
    s.phase.Waiting? && |s.queue| > 0 ==>
      BeforeCommand(cfg, s).gui.Running? && Sound(cfg, BeforeCommand(cfg, s))
  }

  lemma StepKeepsSound(cfg: Config, s: System, e: Event)
    requires WellFormed(s) && Sound(cfg, Abstract(cfg, s)) && Enabled(cfg, s, e)
    ensures WellFormed(Next(cfg, s, e)) && Sound(cfg, Abstract(cfg, Next(cfg, s, e)))
  {
    match e {
      case Receive(_, _, _) =>
        ReceiveSimulates(cfg, s, e);
        ReceiveKeeps(cfg, Abstract(cfg, s), e);
      case Prune(_, _, _) =>
        PostingSimulates(cfg, s, e);
        PruneKeeps(cfg, Abstract(cfg, s), e);
      case Close(_, _) =>
        PostingSimulates(cfg, s, e);
        CloseKeeps(cfg, Abstract(cfg, s), e);
      case GuiStep => GuiStepStutters(cfg, s);
      case Resume => ResumeStutters(cfg, s);
    }
  }

  lemma ReceiveSoundBefore(cfg: Config, s: System, e: Event)
    requires WellFormed(s) && Sound(cfg, Abstract(cfg, s)) && e.Receive? && Enabled(cfg, s, e)
    ensures SoundBeforeCommand(cfg, Next(cfg, s, e))
  {
    ReceiveSimulates(cfg, s, e);
    KillsKeepRunning(cfg, s.gui, s.queue);
    BeginKeeps(cfg, Abstract(cfg, s), e);
    var begun := Begin(s.books, e.req, e.now).0;
    if begun.Posts? {
      assert (s.queue + [Message(begun.cmd, true)])[..|s.queue|] == s.queue;
    }
  }

  /** Carrying out one of the kills before the command makes no difference to what they all leave. */
  lemma KillKeepsBefore(cfg: Config, s: System)
    requires Enabled(cfg, s, GuiStep) && |s.queue| > 1
    ensures BeforeCommand(cfg, Next(cfg, s, GuiStep)) == BeforeCommand(cfg, s)
  {
    var n := |s.queue| - 1;
    assert s.queue[1..][..n - 1] == s.queue[..n][1..] && s.queue[..n][0] == s.queue[0];
  }

  lemma StepKeepsSoundBefore(cfg: Config, s: System, e: Event)
    requires WellFormed(s) && Sound(cfg, Abstract(cfg, s)) && SoundBeforeCommand(cfg, s) && Enabled(cfg, s, e)
    ensures SoundBeforeCommand(cfg, Next(cfg, s, e))
  {
    if e.Receive? {
      ReceiveSoundBefore(cfg, s, e);
    } else if e.GuiStep? && s.phase.Waiting? && |s.queue| > 1 {
      KillKeepsBefore(cfg, s);
    }
  }

  lemma {:induction false} RunKeepsSoundBefore(cfg: Config, s: System, events: seq<Event>)
    requires WellFormed(s) && Sound(cfg, Abstract(cfg, s)) && SoundBeforeCommand(cfg, s) && Legal(cfg, s, events)
    ensures SoundBeforeCommand(cfg, After(cfg, s, events))
    decreases |events|
  {
    if |events| > 0 {
      StepKeepsSound(cfg, s, events[0]);
      StepKeepsSoundBefore(cfg, s, events[0]);
      RunKeepsSoundBefore(cfg, Next(cfg, s, events[0]), events[1..]);
    }
  }

  /**
   While the server waits: the kills queued before its command leave exactly the leased tabs and shortcuts, so the
   browser is ahead or behind by no more than these kills and the one command in flight, even if that is undefined. Once
   the command has been carried out, the same holds for the books as the reply will leave them.
   */
  lemma WaitingMeetsLeases(cfg: Config, events: seq<Event>)
    requires Legal(cfg, START, events) && Reached(cfg, events).phase.Waiting?
    ensures var s := Reached(cfg, events);
            |s.queue| > 0 ==>
              var killed := RunAll(cfg, s.gui, s.queue[..|s.queue| - 1]);
              && killed.Running?
              && killed.tabs.Keys == s.books.tabLeases.Keys
              && killed.board.Keys == s.books.shortcutLeases.Keys
    ensures var a := Abstract(cfg, Reached(cfg, events));
            a.gui.Running? ==>
              a.gui.tabs.Keys == a.books.tabLeases.Keys && a.gui.board.Keys == a.books.shortcutLeases.Keys
  {
    RunKeeps(cfg, events);
    RunKeeps(cfg, []);
    RunKeepsSoundBefore(cfg, START, events);
  }

  /**
   A prune removes exactly the tabs and shortcuts whose last granted deadline has come, and leaves every other lease
   with its value.
   */
  lemma PruneKeepsDeadlines(cfg: Config, events: seq<Event>, e: Event)
    requires Legal(cfg, START, events) && e.Prune? && Enabled(cfg, Reached(cfg, events), e)
    ensures var s, s' := Reached(cfg, events), Next(cfg, Reached(cfg, events), e);
            && (forall id :: id in s.books.tabLeases ==>
                  (id !in s'.books.tabLeases <==>
                     Granted(s.log, id).Until? && Granted(s.log, id).deadline <= e.now))
            && (forall id :: id in s.books.shortcutLeases ==>
                  (id !in s'.books.shortcutLeases <==>
                     GrantedShortcut(s.log, id).Until? && GrantedShortcut(s.log, id).deadline <= e.now))
            && (forall id :: id in s'.books.tabLeases ==>
                  id in s.books.tabLeases && s'.books.tabLeases[id] == s.books.tabLeases[id])
            && (forall id :: id in s'.books.shortcutLeases ==>
                  id in s.books.shortcutLeases && s'.books.shortcutLeases[id] == s.books.shortcutLeases[id])
            && s'.queue == s.queue + (TabKills(e.tabOrder) + ShortcutKills(e.shortcutOrder))
  {
    RunKeeps(cfg, events);
    var s := Reached(cfg, events);
    KillsKeepRunning(cfg, s.gui, s.queue);
    assert forall id :: id in e.tabOrder <==> id in Elements(e.tabOrder);
    ForgetAllContents(s.books, e.tabOrder);
  }

  // ---------- replies ----------

  /** The answer the atomic server gives to a request. */
  ghost function AnswerTo(cfg: Config, a: Atomic, e: Event): Answer
    requires e.Receive? && AtomicEnabled(cfg, a, e)
  {
    var log := AtomicNext(cfg, a, e).log;
    log[|log| - 1].answer
  }

  ghost predicate OnlyGuiSteps(events: seq<Event>) {
    forall i :: 0 <= i < |events| ==> events[i].GuiStep? || events[i].Resume?
  }

  lemma {:induction false} NothingVisible(events: seq<Event>)
    requires OnlyGuiSteps(events)
    ensures Visible(events) == []
    decreases |events|
  {
    if |events| > 0 {
      NothingVisible(events[1..]);
    }
  }

  /**
   Whatever is still queued when a request comes in, and however the GUI gets through it: the reply the client gets is
   the one the atomic server gives at once.
   */
  lemma RepliesAreAtomic(cfg: Config, s: System, e: Event, steps: seq<Event>)
    requires WellFormed(s) && e.Receive? && Enabled(cfg, s, e)
    requires OnlyGuiSteps(steps) && Legal(cfg, Next(cfg, s, e), steps)
    requires After(cfg, Next(cfg, s, e), steps).phase.Idle?
    ensures AtomicEnabled(cfg, Abstract(cfg, s), e)
    ensures After(cfg, Next(cfg, s, e), steps).log ==
            s.log + [Entry(e.c, e.req, AnswerTo(cfg, Abstract(cfg, s), e), e.now)]
  {
    ReceiveSimulates(cfg, s, e);
    Refines(cfg, Next(cfg, s, e), steps);
    NothingVisible(steps);
  }

  /** The GUI steps that bring a waiting server back: one for every queued command, then the reply is taken. */
  function Schedule(n: nat): seq<Event> {
    if n == 0 then [Resume] else [GuiStep] + Schedule(n - 1)
  }

  /** As long as the GUI takes its commands, a waiting server comes back, unless the command is undefined. */
  lemma {:induction false} WaitEnds(cfg: Config, s: System)
    requires WellFormed(s) && s.phase.Waiting? && Abstract(cfg, s).gui.Running?
    ensures Legal(cfg, s, Schedule(|s.queue|)) && After(cfg, s, Schedule(|s.queue|)).phase.Idle?
    decreases |s.queue|
  {
    var rest := Schedule(|s.queue|)[1..];
    if |s.queue| == 0 {
      assert rest == [];
    } else {
      GuiStepStutters(cfg, s);
      assert rest == Schedule(|s.queue| - 1);
      WaitEnds(cfg, Next(cfg, s, GuiStep));
    }
  }

  /** The tab a request is about, if it is one that answers INVALID_TAB for an unknown tab. */
  predicate AboutTab(req: Request, id: TabId) {
    match req
    case Kill(k) => k == id
    case Navigate(k, _) => k == id
    case Blink(k) => k == id
    case Alive(k, ttl) => k == id && ttl >= 0
    case _ => false
  }

  predicate AboutShortcut(req: Request, id: TabId) {
    match req
    case KillShortcut(k) => k == id
    case ShortcutAlive(k, ttl) => k == id && ttl >= 0
    case _ => false
  }

  /** A request about a tab succeeds iff the tab is leased, and is answered INVALID_TAB otherwise. */
  lemma LeasedIsFound(cfg: Config, a: Atomic, e: Event, id: TabId)
    requires Sound(cfg, a) && e.Receive? && AtomicEnabled(cfg, a, e)
    ensures AboutTab(e.req, id) ==> AnswerTo(cfg, a, e) == if id in a.books.tabLeases then Ok else InvalidTab
    ensures AboutShortcut(e.req, id) ==> AnswerTo(cfg, a, e) == if id in a.books.shortcutLeases then Ok else InvalidTab
    ensures (e.req.Alive? || e.req.ShortcutAlive?) && e.req.ttl < 0 ==>
              AnswerTo(cfg, a, e) == BadRequest && AtomicNext(cfg, a, e).books == a.books
  {
    if e.req.Navigate? && id == e.req.id && id in a.gui.tabs {
      Runs.NavigatePlaces(a.gui.tabs, id, e.req.url);
    }
  }

  lemma NewTabAnswerIs(cfg: Config, a: Atomic, e: Event)
    requires Sound(cfg, a) && e.Receive? && AtomicEnabled(cfg, a, e) && e.req.NewTab?
    ensures e.req.uuid !in a.gui.tabs
    ensures AnswerTo(cfg, a, e) == match Create(a.gui.tabs, e.req.uuid, e.req.url, e.req.pref)
                                   case Placed(_) => Ok
                                   case Refused => ExecFailed
                                   case OutOfRange => Never
  {
  }

  /** The browser has an extra tab iff the books name one. */
  lemma ExtraKnown(cfg: Config, books: Books, tabs: Tabs, board: Boards.Board, used: set<TabId>)
    requires Consistent(cfg, books, tabs, board, used)
    ensures HasExtra(tabs) <==> books.extraTabId != ""
  {
    if books.extraTabId != "" {
      assert tabs[books.extraTabId].pref == POS_EXTRA;
    }
  }

  /** A new tab is answered OK iff there is room for its preference; for an extra tab, iff the server knows none. */
  lemma NewTabAnswer(cfg: Config, a: Atomic, e: Event)
    requires Sound(cfg, a) && e.Receive? && AtomicEnabled(cfg, a, e) && e.req.NewTab?
    ensures AnswerTo(cfg, a, e) == Ok <==> Runs.HasRoom(a.gui.tabs, e.req.pref)
    ensures AnswerTo(cfg, a, e) == Never <==> Runs.ZoneOverfull(a.gui.tabs, e.req.pref)
    ensures e.req.pref == POS_EXTRA ==> (AnswerTo(cfg, a, e) == Ok <==> a.books.extraTabId == "")
  {
    NewTabAnswerIs(cfg, a, e);
    Runs.CreateOutcome(a.gui.tabs, e.req.uuid, e.req.url, e.req.pref);
    ExtraKnown(cfg, a.books, a.gui.tabs, a.gui.board, a.used);
  }

  /** A client's kill only hides the extra tab: it is answered OK and nothing is gone. */
  lemma KillHidesExtra(cfg: Config, a: Atomic, e: Event)
    requires Sound(cfg, a) && e.Receive? && AtomicEnabled(cfg, a, e)
    requires e.req.Kill? && e.req.id == a.books.extraTabId != ""
    ensures AnswerTo(cfg, a, e) == Ok
    ensures AtomicNext(cfg, a, e).books == a.books && AtomicNext(cfg, a, e).gui == a.gui
  {
    assert a.gui.tabs[e.req.id].pref == POS_EXTRA;
  }

  /** The requests that end a tab: a kill of a normal tab, and a keep-alive with TTL 0 for any. */
  ghost predicate Ends(a: Atomic, req: Request, id: TabId) {
    (req == ServerBooks.Kill(id) && id != a.books.extraTabId) || req == Alive(id, 0)
  }

  /** A tab that is ended is gone from the books and from the browser, and nobody else's lease or place is touched. */
  lemma EndRemoves(cfg: Config, a: Atomic, e: Event, id: TabId)
    requires Sound(cfg, a) && e.Receive? && AtomicEnabled(cfg, a, e) && Ends(a, e.req, id) && id in a.books.tabLeases
    ensures var a' := AtomicNext(cfg, a, e);
            && AnswerTo(cfg, a, e) == Ok
            && a'.gui == Running(a.gui.tabs - {id}, a.gui.board)
            && a'.books.tabLeases == a.books.tabLeases - {id}
            && forall c :: Owned(a'.books.connectionTabs, c) == Owned(a.books.connectionTabs, c) - {id}
  {
  }

  lemma MapShowsTabs(tabs: Tabs, extra: TabId)
    requires Inv(tabs) && ExtraAgrees(tabs, extra)
    ensures var cells := TabMap(tabs);
            && (forall id :: id in tabs && id != extra ==> At(id) in cells)
            && (forall p :: 0 <= p < MAX_TABS && cells[p] != Cell.Empty ==> cells[p].id in tabs && cells[p].id != extra)
            && (forall p, q :: 0 <= p < q < MAX_TABS && cells[p] != Cell.Empty ==> cells[p] != cells[q])
  {
    var cells := TabMap(tabs);
    History.TabMapIsInverse(tabs);
    forall id | id in tabs && id != extra ensures At(id) in cells {
      assert WellPlaced(tabs[id]);
      assert cells[tabs[id].pos] == At(id);
    }
    forall p | 0 <= p < MAX_TABS && cells[p] != Cell.Empty
      ensures cells[p].id in tabs && tabs[cells[p].id].pos == p && cells[p].id != extra
    {
      assert cells[p] == At(cells[p].id);
      assert WellPlaced(tabs[cells[p].id]);
    }
  }

  /** `GetTabMap` answers with exactly the leased tabs other than the extra one, each in its cell. */
  lemma MapShowsLeases(cfg: Config, a: Atomic, e: Event)
    requires Sound(cfg, a) && e.Receive? && AtomicEnabled(cfg, a, e) && e.req.GetMap?
    ensures AnswerTo(cfg, a, e).TabMapIs? && |AnswerTo(cfg, a, e).cells| == MAX_TABS
    ensures var cells := AnswerTo(cfg, a, e).cells;
            && (forall id :: id in a.books.tabLeases && id != a.books.extraTabId ==> At(id) in cells)
            && (forall p :: 0 <= p < MAX_TABS && cells[p] != Cell.Empty ==>
                  cells[p].id in a.books.tabLeases && cells[p].id != a.books.extraTabId)
            && (forall p, q :: 0 <= p < q < MAX_TABS && cells[p] != Cell.Empty ==> cells[p] != cells[q])
  {
    assert AnswerTo(cfg, a, e) == TabMapIs(TabMap(a.gui.tabs));
    MapShowsTabs(a.gui.tabs, a.books.extraTabId);
  }

  /**
   Over all runs, a close forgets and kills exactly the tabs of its connection (none, if tabs do not live by connection),
   and whoever gets the handle next owns nothing.
   */
  lemma CloseInRun(cfg: Config, events: seq<Event>, e: Event)
    requires Legal(cfg, START, events) && e.Close? && Enabled(cfg, Reached(cfg, events), e)
    ensures var s, s' := Reached(cfg, events), Next(cfg, Reached(cfg, events), e);
            && s'.books.tabLeases == s.books.tabLeases - OwnedBy(cfg, s.books, e.c)
            && s'.books.shortcutLeases == s.books.shortcutLeases
            && e.c !in s'.books.connectionTabs
            && (forall d :: d != e.c ==> Owned(s'.books.connectionTabs, d) == Owned(s.books.connectionTabs, d))
            && s'.queue == s.queue + TabKills(e.order) && Elements(e.order) == OwnedBy(cfg, s.books, e.c)
  {
    RunKeeps(cfg, events);
    var s := Reached(cfg, events);
    KillsKeepRunning(cfg, s.gui, s.queue);
    OwnedAreLeased(cfg, s.books, e.c);
    assert forall id :: id in e.order <==> id in Elements(e.order);
    ForgetAllContents(s.books, e.order);
    if cfg.tabLifetimeByConnection {
      CloseForgetsOwn(cfg, s.books, e.c, e.order);
    } else {
      assert e.order == [];
    }
  }

  /**
   For every run: a request about a leased tab is never answered INVALID_TAB, whatever is still in the queue; and an
   extra tab is accepted as soon as the server has forgotten the old one, even if its kill has not been carried out.
   */
  lemma RunReplies(cfg: Config, events: seq<Event>, e: Event, steps: seq<Event>, id: TabId)
    requires Legal(cfg, START, events) && e.Receive? && Enabled(cfg, Reached(cfg, events), e)
    requires OnlyGuiSteps(steps) && Legal(cfg, Next(cfg, Reached(cfg, events), e), steps)
    requires After(cfg, Next(cfg, Reached(cfg, events), e), steps).phase.Idle?
    ensures var s, log := Reached(cfg, events), After(cfg, Next(cfg, Reached(cfg, events), e), steps).log;
            && |log| == |s.log| + 1
            && (AboutTab(e.req, id) ==> log[|s.log|].answer == if id in s.books.tabLeases then Ok else InvalidTab)
            && (AboutShortcut(e.req, id) ==>
                  log[|s.log|].answer == if id in s.books.shortcutLeases then Ok else InvalidTab)
            && (e.req.NewTab? && e.req.pref == POS_EXTRA ==>
                  (log[|s.log|].answer == Ok <==> s.books.extraTabId == ""))
  {
    var s := Reached(cfg, events);
    RunKeeps(cfg, events);
    RepliesAreAtomic(cfg, s, e, steps);
    LeasedIsFound(cfg, Abstract(cfg, s), e, id);
    if e.req.NewTab? {
      NewTabAnswer(cfg, Abstract(cfg, s), e);
    }
  }

  // ---------- one answer for one request ----------

  /** Who asked what, and when. */
  datatype Question = Question(c: Connection, req: Request, time: int)

  /** The requests a run receives, in order. */
  function Received(events: seq<Event>): seq<Question> {
    if |events| == 0 then []
    else if events[0].Receive? then
      [Question(events[0].c, events[0].req, events[0].now)] + Received(events[1..])
    else Received(events[1..])
  }

  /** The requests a log answers, in order. */
  function Asked(log: seq<Entry>): seq<Question> {
    seq(|log|, i requires 0 <= i < |log| => Question(log[i].c, log[i].req, log[i].time))
  }

  lemma StepAnswers(cfg: Config, a: Atomic, e: Event)
    requires AtomicEnabled(cfg, a, e)
    ensures Asked(AtomicNext(cfg, a, e).log) ==
            Asked(a.log) + (if e.Receive? then [Question(e.c, e.req, e.now)] else [])
  {
  }

  lemma {:induction false} AtomicLogGrows(cfg: Config, a: Atomic, events: seq<Event>)
    requires AtomicLegal(cfg, a, events)
    ensures Asked(AtomicAfter(cfg, a, events).log) == Asked(a.log) + Received(events)
    decreases |events|
  {
    if |events| > 0 {
      StepAnswers(cfg, a, events[0]);
      AtomicLogGrows(cfg, AtomicNext(cfg, a, events[0]), events[1..]);
    }
  }

  lemma {:induction false} VisibleRequests(events: seq<Event>)
    ensures Received(Visible(events)) == Received(events)
    decreases |events|
  {
    if |events| > 0 {
      VisibleRequests(events[1..]);
      if !events[0].GuiStep? && !events[0].Resume? {
        assert Visible(events)[0] == events[0] && Visible(events)[1..] == Visible(events[1..]);
      } else {
        assert Visible(events) == Visible(events[1..]);
      }
    }
  }

  lemma WaitingEntry(cfg: Config, s: System)
    ensures Asked(Abstract(cfg, s).log) ==
            Asked(s.log) + (if s.phase.Idle? then [] else [Question(s.phase.c, s.phase.req, s.phase.since)])
  {
  }

  /**
   Every request received has been answered exactly once, in the order of arrival, except for the one whose handler is
   waiting.
   */
  lemma EveryRequestAnswered(cfg: Config, events: seq<Event>)
    requires Legal(cfg, START, events)
    ensures var s := Reached(cfg, events);
            Received(events) ==
            Asked(s.log) + (if s.phase.Idle? then [] else [Question(s.phase.c, s.phase.req, s.phase.since)])
  {
    Refines(cfg, START, events);
    assert Abstract(cfg, START) == ATOMIC_START;
    AtomicLogGrows(cfg, ATOMIC_START, Visible(events));
    VisibleRequests(events);
    assert Asked([]) == [];
    WaitingEntry(cfg, Reached(cfg, events));
  }
}
