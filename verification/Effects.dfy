/**
 What every request leaves: in the books, in the browser's tabs and shortcuts, and in nobody else's; first for the atomic
 server, then for every run of the two threads.
 */
module Effects {
  import opened Ordering
  import opened TabPositions
  import opened Environment
  import opened ServerBooks
  import opened ServerThread
  import opened TwoThreads
  import opened Lifecycle
  import BrowserTabs
  import Runs = TabRuns
  import Boards = Shortcuts

  /** The second in clock ticks, as a keep-alive counts it. */
  const NANOS: int := 1_000_000_000

  ghost predicate Arrives(cfg: Config, a: Atomic, e: Event) {
    Sound(cfg, a) && e.Receive? && AtomicEnabled(cfg, a, e)
  }

  ghost predicate NothingChanges(a: Atomic, after: Atomic) {
    after.gui == a.gui && after.books == a.books
  }

  // ---------- tabs ----------

  /** The new tab is there with its URL and preference; the others keep theirs, and all outside its zone their place. */
  ghost predicate TabAdded(tabs: Tabs, after: Tabs, id: TabId, url: string, pref: int) {
    && after.Keys == tabs.Keys + {id}
    && after[id].url == url && after[id].pref == pref
    && (forall k :: k in tabs ==> after[k].url == tabs[k].url && after[k].pref == tabs[k].pref)
    && (forall k :: k in tabs && !(IsZone(pref) && tabs[k].pref == pref) ==> after[k].pos == tabs[k].pos)
  }

  /** The books after a tab of connection c is entered. */
  ghost predicate TabEntered(cfg: Config, books: Books, after: Books, c: Connection, id: TabId, pref: int) {
    && after.tabLeases == books.tabLeases[id := Unlimited]
    && after.shortcutLeases == books.shortcutLeases
    && after.extraTabId == (if pref == POS_EXTRA then id else books.extraTabId)
    && (if cfg.tabLifetimeByConnection then
          Owned(after.connectionTabs, c) == Owned(books.connectionTabs, c) + {id}
        else after.connectionTabs == books.connectionTabs)
    && (forall d :: d != c ==> Owned(after.connectionTabs, d) == Owned(books.connectionTabs, d))
  }

  lemma EnteredBooks(cfg: Config, books: Books, c: Connection, url: string, id: TabId, pref: int)
    requires id != "" && id !in books.tabLeases
    ensures TabEntered(cfg, books, Finish(cfg, books, c, CmdNewTab(url, pref, id), Result(BrowserTabs.OK)), c, id, pref)
  {
  }

  lemma NewTabMoves(cfg: Config, a: Atomic, e: Event)
    requires Arrives(cfg, a, e) && e.req.NewTab?
    ensures var after, req := AtomicNext(cfg, a, e), e.req;
            && req.uuid != "" && req.uuid !in a.books.tabLeases && req.uuid !in a.gui.tabs
            && match Create(a.gui.tabs, req.uuid, req.url, req.pref)
               case Placed(tabs) =>
                 && AnswerTo(cfg, a, e) == Ok && after.gui == Running(tabs, a.gui.board)
                 && after.books == Finish(cfg, a.books, e.c, CmdNewTab(req.url, req.pref, req.uuid),
                                          Result(BrowserTabs.OK))
               case Refused => AnswerTo(cfg, a, e) == ExecFailed && NothingChanges(a, after)
               case OutOfRange =>
                 AnswerTo(cfg, a, e) == Never && after.gui == Gui.Crashed && after.books == a.books
  {
  }

  /** A create that is answered OK leaves the tab asked for, owned by who asked; any other one leaves no trace. */
  lemma NewTabEffect(cfg: Config, a: Atomic, e: Event)
    requires Arrives(cfg, a, e) && e.req.NewTab?
    ensures var after, req := AtomicNext(cfg, a, e), e.req;
            && AnswerTo(cfg, a, e) in {Ok, ExecFailed, Never}
            && (AnswerTo(cfg, a, e) == Ok ==>
                  && after.gui.Running? && after.gui.board == a.gui.board
                  && TabAdded(a.gui.tabs, after.gui.tabs, req.uuid, req.url, req.pref)
                  && TabEntered(cfg, a.books, after.books, e.c, req.uuid, req.pref))
            && (AnswerTo(cfg, a, e) == ExecFailed ==> NothingChanges(a, after))
            && (AnswerTo(cfg, a, e) == Never ==> after.gui.Crashed? && after.books == a.books)
  {
    NewTabMoves(cfg, a, e);
    if Create(a.gui.tabs, e.req.uuid, e.req.url, e.req.pref).Placed? {
      Runs.CreateFrame(a.gui.tabs, e.req.uuid, e.req.url, e.req.pref);
      EnteredBooks(cfg, a.books, e.c, e.req.url, e.req.uuid, e.req.pref);
    }
  }

  /** The URL goes to the tab, and only positions inside its own zone may change with it. */
  ghost predicate TabMoved(tabs: Tabs, after: Tabs, id: TabId, url: string)
    requires id in tabs
  {
    && after.Keys == tabs.Keys && after[id].url == url
    && (forall k :: k in tabs && k != id ==> after[k].url == tabs[k].url)
    && (forall k :: k in tabs ==> after[k].pref == tabs[k].pref)
    && (forall k :: k in tabs && !(IsZone(tabs[id].pref) && tabs[k].pref == tabs[id].pref) ==>
          after[k].pos == tabs[k].pos)
  }

  lemma NavigateEffect(cfg: Config, a: Atomic, e: Event)
    requires Arrives(cfg, a, e) && e.req.Navigate?
    ensures var after := AtomicNext(cfg, a, e);
            if e.req.id in a.books.tabLeases then
              && AnswerTo(cfg, a, e) == Ok && after.books == a.books
              && after.gui.Running? && after.gui.board == a.gui.board
              && TabMoved(a.gui.tabs, after.gui.tabs, e.req.id, e.req.url)
            else AnswerTo(cfg, a, e) == InvalidTab && NothingChanges(a, after)
  {
    if e.req.id in a.gui.tabs {
      Runs.NavigatePlaces(a.gui.tabs, e.req.id, e.req.url);
    }
  }

  /** Blinking and listing leave everything as it is. */
  lemma LookEffect(cfg: Config, a: Atomic, e: Event)
    requires Arrives(cfg, a, e) && (e.req.Blink? || e.req.GetMap?)
    ensures NothingChanges(a, AtomicNext(cfg, a, e))
  {
  }

  ghost predicate TabGone(a: Atomic, after: Atomic, id: TabId)
    requires a.gui.Running?
  {
    && after.gui == Running(a.gui.tabs - {id}, a.gui.board)
    && after.books.tabLeases == a.books.tabLeases - {id}
    && after.books.shortcutLeases == a.books.shortcutLeases
    && after.books.extraTabId == (if id == a.books.extraTabId then "" else a.books.extraTabId)
    && (forall c :: Owned(after.books.connectionTabs, c) == Owned(a.books.connectionTabs, c) - {id})
  }

  /** A client's kill removes a normal tab; it leaves an unknown one and the extra one alone. */
  lemma KillEffect(cfg: Config, a: Atomic, e: Event)
    requires Arrives(cfg, a, e) && e.req.Kill?
    ensures var after := AtomicNext(cfg, a, e);
            if e.req.id in a.books.tabLeases && e.req.id != a.books.extraTabId then TabGone(a, after, e.req.id)
            else NothingChanges(a, after)
  {
    if e.req.id in a.books.tabLeases && e.req.id != a.books.extraTabId {
      EndRemoves(cfg, a, e, e.req.id);
    } else if e.req.id in a.books.tabLeases {
      KillHidesExtra(cfg, a, e);
    }
  }

  /** A keep-alive sets one deadline, or with TTL 0 ends the tab, the extra one as well. */
  lemma AliveEffect(cfg: Config, a: Atomic, e: Event)
    requires Arrives(cfg, a, e) && e.req.Alive?
    ensures var after, id, ttl := AtomicNext(cfg, a, e), e.req.id, e.req.ttl;
            if id !in a.books.tabLeases || ttl < 0 then NothingChanges(a, after)
            else if ttl == 0 then TabGone(a, after, id)
            else
              && after.gui == a.gui
              && after.books == a.books.(tabLeases := a.books.tabLeases[id := Until(e.now + ttl * NANOS)])
  {
    if e.req.id in a.books.tabLeases && e.req.ttl == 0 {
      EndRemoves(cfg, a, e, e.req.id);
    }
  }

  // ---------- shortcuts ----------

  /** The configured number of shortcuts, at least one. */
  function Capacity(cfg: Config): int {
    if cfg.shortcutMaxCount >= 1 then cfg.shortcutMaxCount else 1
  }

  /** A shortcut stands at its preference if that is in range, and else at the smallest free position. */
  ghost predicate StandsRight(board: Boards.Board, shortcut: Boards.Shortcut, max: int) {
    && 0 <= shortcut.pos < max
    && (forall k :: k in board ==> board[k].pos != shortcut.pos)
    && (if 0 <= shortcut.pref < max then shortcut.pos == shortcut.pref
        else forall p :: 0 <= p < shortcut.pos ==> Boards.Taken(board, p))
  }

  lemma AddedStandsRight(board: Boards.Board, id: TabId, pref: int, max: int)
    requires id !in board && id in Boards.Add(board, id, pref, max)
    ensures var after := Boards.Add(board, id, pref, max);
            after == board[id := after[id]] && after[id].pref == pref && StandsRight(board, after[id], max)
  {
    Boards.AddFrame(board, id, pref, max);
    var after := Boards.Add(board, id, pref, max);
    forall k | k in board ensures board[k].pos != after[id].pos {
      assert !Boards.Taken(board, after[id].pos);
    }
  }

  lemma AddedIff(board: Boards.Board, id: TabId, pref: int, max: int)
    requires Boards.BoardInv(board, max) && id !in board && max >= 1
    ensures if Boards.HasSlot(board, pref, max) then id in Boards.Add(board, id, pref, max)
            else Boards.Add(board, id, pref, max) == board
  {
    Boards.AddOutcome(board, id, pref, max);
    Boards.AddFrame(board, id, pref, max);
  }

  lemma NewShortcutAnswerIs(cfg: Config, a: Atomic, e: Event)
    requires Arrives(cfg, a, e) && e.req.NewShortcut?
    ensures e.req.uuid !in a.gui.board
    ensures var added := cfg.shortcutsEnabled && Boards.HasSlot(a.gui.board, e.req.pref, Capacity(cfg));
            && AnswerTo(cfg, a, e) == (if added then Ok else ExecFailed)
            && (added ==>
                  && e.req.uuid in Boards.Add(a.gui.board, e.req.uuid, e.req.pref, Capacity(cfg))
                  && AtomicNext(cfg, a, e).gui ==
                     Running(a.gui.tabs, Boards.Add(a.gui.board, e.req.uuid, e.req.pref, Capacity(cfg)))
                  && AtomicNext(cfg, a, e).books ==
                     a.books.(shortcutLeases := a.books.shortcutLeases[e.req.uuid := Unlimited]))
            && (!added ==> AtomicNext(cfg, a, e).books == a.books && AtomicNext(cfg, a, e).gui == a.gui)
  {
    var board, id, max := a.gui.board, e.req.uuid, Capacity(cfg);
    assert MaxShortcuts(cfg) == max;
    AddedIff(board, id, e.req.pref, max);
    var cmd := CmdNewShortcut(e.req.pref, id);
    assert Begin(a.books, e.req, e.now) == (Posts(cmd), a.books);
    assert Exec(cfg, a.gui, cmd).0 ==
           Running(a.gui.tabs, if cfg.shortcutsEnabled then Boards.Add(board, id, e.req.pref, max) else board);
  }

  /** A new shortcut is accepted iff shortcuts are enabled and there is a position; then it is there and leased. */
  lemma NewShortcutEffect(cfg: Config, a: Atomic, e: Event)
    requires Arrives(cfg, a, e) && e.req.NewShortcut?
    ensures var after, req := AtomicNext(cfg, a, e), e.req;
            && (AnswerTo(cfg, a, e) == Ok <==>
                  cfg.shortcutsEnabled && Boards.HasSlot(a.gui.board, req.pref, Capacity(cfg)))
            && (AnswerTo(cfg, a, e) == Ok ==>
                  && after.gui.Running? && after.gui.tabs == a.gui.tabs && req.uuid in after.gui.board
                  && after.gui.board == a.gui.board[req.uuid := after.gui.board[req.uuid]]
                  && after.gui.board[req.uuid].pref == req.pref
                  && StandsRight(a.gui.board, after.gui.board[req.uuid], Capacity(cfg))
                  && after.books == a.books.(shortcutLeases := a.books.shortcutLeases[req.uuid := Unlimited]))
            && (AnswerTo(cfg, a, e) != Ok ==> AnswerTo(cfg, a, e) == ExecFailed && NothingChanges(a, after))
  {
    NewShortcutAnswerIs(cfg, a, e);
    if AnswerTo(cfg, a, e) == Ok {
      AddedStandsRight(a.gui.board, e.req.uuid, e.req.pref, Capacity(cfg));
    }
  }

  ghost predicate ShortcutGone(a: Atomic, after: Atomic, id: TabId)
    requires a.gui.Running?
  {
    && after.gui == Running(a.gui.tabs, a.gui.board - {id})
    && after.books == a.books.(shortcutLeases := a.books.shortcutLeases - {id})
  }

  lemma KillShortcutEffect(cfg: Config, a: Atomic, e: Event)
    requires Arrives(cfg, a, e) && e.req.KillShortcut?
    ensures var after := AtomicNext(cfg, a, e);
            if e.req.id in a.books.shortcutLeases then AnswerTo(cfg, a, e) == Ok && ShortcutGone(a, after, e.req.id)
            else AnswerTo(cfg, a, e) == InvalidTab && NothingChanges(a, after)
  {
    assert e.req.id !in a.gui.board ==> a.gui.board - {e.req.id} == a.gui.board;
  }

  lemma ShortcutAliveEffect(cfg: Config, a: Atomic, e: Event)
    requires Arrives(cfg, a, e) && e.req.ShortcutAlive?
    ensures var after, id, ttl := AtomicNext(cfg, a, e), e.req.id, e.req.ttl;
            if id !in a.books.shortcutLeases || ttl < 0 then NothingChanges(a, after)
            else if ttl == 0 then ShortcutGone(a, after, id)
            else
              && after.gui == a.gui
              && after.books ==
                 a.books.(shortcutLeases := a.books.shortcutLeases[id := Until(e.now + ttl * NANOS)])
  {
  }

  // ---------- in every run ----------

  /** From a receive to the reply, as far as the server thread is concerned. */
  ghost predicate RunsToReply(cfg: Config, events: seq<Event>, e: Event, steps: seq<Event>) {
    && Legal(cfg, START, events) && e.Receive? && Enabled(cfg, Reached(cfg, events), e)
    && OnlyGuiSteps(steps) && Legal(cfg, Next(cfg, Reached(cfg, events), e), steps)
    && After(cfg, Next(cfg, Reached(cfg, events), e), steps).phase.Idle?
  }

  ghost function Replied(cfg: Config, events: seq<Event>, e: Event, steps: seq<Event>): System
    requires RunsToReply(cfg, events, e, steps)
  {
    After(cfg, Next(cfg, Reached(cfg, events), e), steps)
  }

  /** Whatever is queued and however the GUI gets through it: the request has done what it does on the atomic server. */
  lemma RunEffect(cfg: Config, events: seq<Event>, e: Event, steps: seq<Event>)
    requires RunsToReply(cfg, events, e, steps)
    ensures var a := Abstract(cfg, Reached(cfg, events));
            && Arrives(cfg, a, e)
            && Abstract(cfg, Replied(cfg, events, e, steps)) == AtomicNext(cfg, a, e)
            && Replied(cfg, events, e, steps).books == AtomicNext(cfg, a, e).books
  {
    var s := Reached(cfg, events);
    RunKeeps(cfg, events);
    ReceiveSimulates(cfg, s, e);
    Refines(cfg, Next(cfg, s, e), steps);
    NothingVisible(steps);
  }

  /** A wait ends with nothing left in the queue. */
  lemma {:induction false} ReplyEmptiesQueue(cfg: Config, s: System, steps: seq<Event>)
    requires WellFormed(s) && OnlyGuiSteps(steps) && Legal(cfg, s, steps)
    requires s.phase.Waiting? || s.queue == []
    ensures var s' := After(cfg, s, steps); s'.phase.Waiting? || s'.queue == []
    decreases |steps|
  {
    if |steps| > 0 {
      Refines(cfg, s, steps[..1]);
      ReplyEmptiesQueue(cfg, Next(cfg, s, steps[0]), steps[1..]);
    }
  }

  /** What the GUI thread itself holds once a request that it had to carry out has been answered. */
  lemma RunEffectInGui(cfg: Config, events: seq<Event>, e: Event, steps: seq<Event>)
    requires RunsToReply(cfg, events, e, steps)
    requires Begin(Reached(cfg, events).books, e.req, e.now).0.Posts?
    ensures Replied(cfg, events, e, steps).queue == []
    ensures var a := Abstract(cfg, Reached(cfg, events));
            Arrives(cfg, a, e) && Replied(cfg, events, e, steps).gui == AtomicNext(cfg, a, e).gui
  {
    var s := Reached(cfg, events);
    RunEffect(cfg, events, e, steps);
    RunKeeps(cfg, events);
    ReceiveSimulates(cfg, s, e);
    ReplyEmptiesQueue(cfg, Next(cfg, s, e), steps);
  }

  /** Queued kills take tabs away and leave the others as they are. */
  lemma {:induction false} KillsOnlyRemove(cfg: Config, gui: Gui, queue: seq<Message>)
    requires gui.Running? && forall i :: 0 <= i < |queue| ==> PostedKill(queue[i])
    ensures var after := RunAll(cfg, gui, queue);
            && after.Running? && after.tabs.Keys <= gui.tabs.Keys
            && forall k :: k in after.tabs ==> after.tabs[k] == gui.tabs[k]
    decreases |queue|
  {
    if |queue| > 0 {
      KillsOnlyRemove(cfg, Exec(cfg, gui, queue[0].cmd).0, queue[1..]);
    }
  }

  lemma LeasedInGui(cfg: Config, events: seq<Event>)
    requires Legal(cfg, START, events) && Reached(cfg, events).phase.Idle?
    ensures var s, gui := Reached(cfg, events), Abstract(cfg, Reached(cfg, events)).gui;
            && s.gui.Running? && gui.Running?
            && gui.tabs.Keys == s.books.tabLeases.Keys <= s.gui.tabs.Keys
            && forall k :: k in gui.tabs ==> gui.tabs[k] == s.gui.tabs[k]
  {
    RunKeeps(cfg, events);
    KillsOnlyRemove(cfg, Reached(cfg, events).gui, Reached(cfg, events).queue);
  }

  /**
   In every run a navigation of a leased tab, once answered, has taken it to its URL: the browser shows it there, every
   other leased tab shows what it showed, and the books are as they were.
   */
  lemma NavigateInRun(cfg: Config, events: seq<Event>, e: Event, steps: seq<Event>)
    requires RunsToReply(cfg, events, e, steps)
    requires e.req.Navigate? && e.req.id in Reached(cfg, events).books.tabLeases
    ensures var s, s' := Reached(cfg, events), Replied(cfg, events, e, steps);
            && s'.books == s.books && s'.gui.Running? && s'.gui.tabs.Keys == s.books.tabLeases.Keys
            && s'.gui.tabs[e.req.id].url == e.req.url
            && s.gui.Running? && s.books.tabLeases.Keys <= s.gui.tabs.Keys
            && forall k :: k in s.books.tabLeases ==>
                 && s'.gui.tabs[k].pref == s.gui.tabs[k].pref
                 && (k != e.req.id ==> s'.gui.tabs[k].url == s.gui.tabs[k].url)
  {
    RunEffect(cfg, events, e, steps);
    RunEffectInGui(cfg, events, e, steps);
    NavigateEffect(cfg, Abstract(cfg, Reached(cfg, events)), e);
    LeasedInGui(cfg, events);
  }

  /** In every run a new tab that is answered OK is in the browser with the URL and the preference asked for. */
  lemma NewTabInRun(cfg: Config, events: seq<Event>, e: Event, steps: seq<Event>)
    requires RunsToReply(cfg, events, e, steps) && e.req.NewTab?
    ensures var s, s', log := Reached(cfg, events), Replied(cfg, events, e, steps), Replied(cfg, events, e, steps).log;
            && |log| == |s.log| + 1
            && (log[|s.log|].answer == Ok ==>
                  && s'.gui.Running? && e.req.uuid in s'.gui.tabs && e.req.uuid !in s.books.tabLeases
                  && s'.gui.tabs[e.req.uuid].url == e.req.url && s'.gui.tabs[e.req.uuid].pref == e.req.pref
                  && s'.gui.tabs.Keys == s.books.tabLeases.Keys + {e.req.uuid}
                  && TabEntered(cfg, s.books, s'.books, e.c, e.req.uuid, e.req.pref))
            && (log[|s.log|].answer == ExecFailed ==> s'.books == s.books)
  {
    var a := Abstract(cfg, Reached(cfg, events));
    RunEffect(cfg, events, e, steps);
    RunEffectInGui(cfg, events, e, steps);
    RunKeeps(cfg, events);
    RepliesAreAtomic(cfg, Reached(cfg, events), e, steps);
    NewTabEffect(cfg, a, e);
    LeasedInGui(cfg, events);
  }
}
