/**
 The server thread and the GUI thread as a step system: the server idle or waiting, a queue of commands, the GUI taking
 one command at a time. Its runs are proved to be runs of an atomic server, where every command takes effect at once.
 */
module TwoThreads {
  import opened Ordering
  import opened TabPositions
  import opened BrowserTabs
  import opened Environment
  import opened ServerBooks
  import opened ServerThread
  import Boards = Shortcuts

  /** The GUI thread's state; `Crashed` once it has read past the candidate list. */
  datatype Gui = Running(tabs: Tabs, board: Boards.Board) | Crashed

  ghost function MaxShortcuts(cfg: Config): int {
    Boards.MaxCount(cfg.shortcutMaxCount)
  }

  /** What a slot of the browser does to the GUI state, and the reply it leaves. */
  ghost function Exec(cfg: Config, gui: Gui, cmd: Command): (Gui, Reply) {
    match gui
    case Crashed => (Crashed, Result(Undefined))
    case Running(tabs, board) =>
      match cmd
      case CmdNewTab(url, pref, uuid) =>
        (match Create(tabs, uuid, url, pref)
         case Placed(after) => (Running(after, board), Result(OK))
         case Refused => (gui, Result(ExecError))
         case OutOfRange => (Crashed, Result(Undefined)))
      case CmdKillTab(id, force) =>
        (Running(TabPositions.Kill(tabs, id, force), board), Result(if id in tabs then OK else TabNotFound))
      case CmdNavigate(id, url) =>
        if id !in tabs then (gui, Result(TabNotFound))
        else
          (match TabPositions.Navigate(tabs, id, url)
           case Placed(after) => (Running(after, board), Result(OK))
           case _ => (Crashed, Result(Undefined)))
      case CmdBlink(id) => (gui, Result(if id in tabs then OK else TabNotFound))
      case CmdGetMap => (gui, Map(TabMap(tabs)))
      case CmdNewShortcut(pref, uuid) =>
        var after := if cfg.shortcutsEnabled then Boards.Add(board, uuid, pref, MaxShortcuts(cfg)) else board;
        (Running(tabs, after), Result(if uuid in after then OK else ExecError))
      case CmdKillShortcut(id) =>
        (Running(tabs, board - {id}), Result(if id in board then OK else TabNotFound))
  }

  /** The outcome of a slot: reply and new state as `Exec` says, as long as the command was defined. */
  twostate predicate Executed(cfg: Config, browser: Browser, board: Boards.ShortcutBoard, cmd: Command, reply: Reply)
    reads browser, browser.list.Values, browser.bar, board
  {
    var (gui, expected) := Exec(cfg, old(Running(browser.Table(), board.shortcuts)), cmd);
    && reply == expected
    && (reply != Result(Undefined) ==>
          browser.Valid() && board.Valid() && gui == Running(browser.Table(), board.shortcuts))
  }

  method ExecuteNewTab(cfg: Config, browser: Browser, board: Boards.ShortcutBoard, cmd: Command) returns (reply: Reply)
    requires browser.Valid() && board.Valid() && cmd.CmdNewTab? && cmd.uuid !in browser.list
    modifies browser, browser.list.Values
    ensures Executed(cfg, browser, board, cmd, reply)
  {
    var code := browser.OnNewWebTab(cmd.url, cmd.pref, cmd.uuid);
    reply := Result(code);
  }

  method ExecuteNavigate(cfg: Config, browser: Browser, board: Boards.ShortcutBoard, cmd: Command)
    returns (reply: Reply)
    requires browser.Valid() && board.Valid() && cmd.CmdNavigate?
    modifies browser`bar, browser.list.Values
    ensures Executed(cfg, browser, board, cmd, reply)
  {
    var code := browser.OnNavigateTo(cmd.id, cmd.url);
    reply := Result(code);
  }

  method ExecuteOnTab(cfg: Config, browser: Browser, board: Boards.ShortcutBoard, cmd: Command) returns (reply: Reply)
    requires browser.Valid() && board.Valid() && (cmd.CmdKillTab? || cmd.CmdBlink? || cmd.CmdGetMap?)
    modifies browser, browser.list.Values
    ensures Executed(cfg, browser, board, cmd, reply)
  {
    if cmd.CmdKillTab? {
      var code := browser.OnKillTab(cmd.id, cmd.force);
      reply := Result(code);
    } else if cmd.CmdBlink? {
      var code := browser.OnBlinkTab(cmd.id);
      reply := Result(code);
    } else {
      var cells := browser.OnGetTabMap();
      reply := Map(cells);
    }
  }

  method ExecuteOnShortcut(cfg: Config, browser: Browser, board: Boards.ShortcutBoard, cmd: Command)
    returns (reply: Reply)
    requires browser.Valid() && board.Valid()
    requires board.enabled == cfg.shortcutsEnabled && board.maxCount == MaxShortcuts(cfg)
    requires (cmd.CmdNewShortcut? && cmd.uuid !in board.shortcuts) || cmd.CmdKillShortcut?
    modifies board
    ensures Executed(cfg, browser, board, cmd, reply)
  {
    var code;
    match cmd {
      case CmdNewShortcut(pref, uuid) => code := board.OnNewShortcut(pref, uuid);
      case CmdKillShortcut(id) => code := board.OnKillShortcut(id);
    }
    reply := Result(code);
  }

  /** The GUI thread takes a command: the slots of the browser do what `Exec` says. */
  method Execute(cfg: Config, browser: Browser, board: Boards.ShortcutBoard, cmd: Command) returns (reply: Reply)
    requires browser.Valid() && board.Valid()
    requires board.enabled == cfg.shortcutsEnabled && board.maxCount == MaxShortcuts(cfg)
    requires cmd.CmdNewTab? ==> cmd.uuid !in browser.list
    requires cmd.CmdNewShortcut? ==> cmd.uuid !in board.shortcuts
    modifies browser, browser.list.Values, board
    ensures Executed(cfg, browser, board, cmd, reply)
  {
    match cmd {
      case CmdNewTab(_, _, _) => reply := ExecuteNewTab(cfg, browser, board, cmd);
      case CmdNavigate(_, _) => reply := ExecuteNavigate(cfg, browser, board, cmd);
      case CmdNewShortcut(_, _) => reply := ExecuteOnShortcut(cfg, browser, board, cmd);
      case CmdKillShortcut(_) => reply := ExecuteOnShortcut(cfg, browser, board, cmd);
      case _ => reply := ExecuteOnTab(cfg, browser, board, cmd);
    }
  }

  /** The GUI state after a queue has been worked off. */
  ghost function RunAll(cfg: Config, gui: Gui, queue: seq<Message>): Gui
    decreases |queue|
  {
    if |queue| == 0 then gui else RunAll(cfg, Exec(cfg, gui, queue[0].cmd).0, queue[1..])
  }

  // ---------- the step system ----------

  datatype Slot = Unfilled | Filled(reply: Reply)

  /** The server thread is in its event loop, or in a handler that waits for the GUI. */
  datatype Phase = Idle | Waiting(c: Connection, req: Request, cmd: Command, since: int, slot: Slot)

  datatype Entry = Entry(c: Connection, req: Request, answer: Answer, time: int)

  /** `used` are all ids ever drawn; `log` the requests answered so far. */
  datatype System = System(
    books: Books, phase: Phase, queue: seq<Message>, gui: Gui, log: seq<Entry>, now: int, used: set<TabId>)

  /** The orders in which a prune or a close posts its kills are the environment's choice. */
  datatype Event =
    | Receive(now: int, c: Connection, req: Request)
    | Prune(now: int, tabOrder: seq<TabId>, shortcutOrder: seq<TabId>)
    | Close(c: Connection, order: seq<TabId>)
    | GuiStep
    | Resume

  const START_BOOKS := Books(map[], map[], map[], "")

  const START := System(START_BOOKS, Idle, [], Running(map[], map[]), [], 0, {""})

  function Drawn(req: Request): set<TabId> {
    if req.NewTab? || req.NewShortcut? then {req.uuid} else {}
  }

  ghost function OwnedBy(cfg: Config, books: Books, c: Connection): set<TabId> {
    if cfg.tabLifetimeByConnection then Owned(books.connectionTabs, c) else {}
  }

  ghost predicate Enabled(cfg: Config, s: System, e: Event) {
    match e
    case Receive(now, c, req) => s.phase.Idle? && s.now <= now && Drawn(req) !! s.used
    case Prune(now, tabOrder, shortcutOrder) =>
      && s.phase.Idle? && s.now <= now
      && Lists(tabOrder, Expired(s.books.tabLeases, now))
      && Lists(shortcutOrder, Expired(s.books.shortcutLeases, now))
    case Close(c, order) => s.phase.Idle? && Lists(order, OwnedBy(cfg, s.books, c))
    case GuiStep => |s.queue| > 0 && s.gui.Running?
    case Resume => s.phase.Waiting? && s.phase.slot.Filled?
  }

  ghost function Next(cfg: Config, s: System, e: Event): System
    requires Enabled(cfg, s, e)
  {
    match e
    case Receive(now, c, req) =>
      var (begun, books) := Begin(s.books, req, now);
      var s' := s.(books := books, now := now, used := s.used + Drawn(req));
      (match begun
       case Answered(answer) => s'.(log := s.log + [Entry(c, req, answer, now)])
       case Posts(cmd) =>
         s'.(phase := Waiting(c, req, cmd, now, Unfilled), queue := s.queue + [Message(cmd, true)]))
    case Prune(now, tabOrder, shortcutOrder) =>
      s.(books := ForgetShortcuts(ForgetAll(s.books, tabOrder), Elements(shortcutOrder)),
         queue := s.queue + (TabKills(tabOrder) + ShortcutKills(shortcutOrder)),
         now := now)
    case Close(c, order) =>
      s.(books := DropConnection(ForgetAll(s.books, order), c), queue := s.queue + TabKills(order))
    case GuiStep =>
      var (gui, reply) := Exec(cfg, s.gui, s.queue[0].cmd);
      s.(gui := gui, queue := s.queue[1..],
         phase := if s.queue[0].sync && s.phase.Waiting? && reply != Result(Undefined)
                  then s.phase.(slot := Filled(reply)) else s.phase)
    case Resume =>
      var p := s.phase;
      s.(books := Finish(cfg, s.books, p.c, p.cmd, p.slot.reply),
         phase := Idle,
         log := s.log + [Entry(p.c, p.req, Convert(p.slot.reply), p.since)])
  }

  ghost predicate Legal(cfg: Config, s: System, events: seq<Event>)
    decreases |events|
  {
    |events| == 0 || (Enabled(cfg, s, events[0]) && Legal(cfg, Next(cfg, s, events[0]), events[1..]))
  }

  ghost function After(cfg: Config, s: System, events: seq<Event>): System
    requires Legal(cfg, s, events)
    decreases |events|
  {
    if |events| == 0 then s else After(cfg, Next(cfg, s, events[0]), events[1..])
  }

  // ---------- the atomic server ----------

  /** One thread: every command takes effect and is answered at once. */
  datatype Atomic = Atomic(books: Books, gui: Gui, log: seq<Entry>, now: int, used: set<TabId>)

  ghost predicate AtomicEnabled(cfg: Config, a: Atomic, e: Event) {
    && a.gui.Running?
    && match e
       case Receive(now, c, req) => a.now <= now && Drawn(req) !! a.used
       case Prune(now, tabOrder, shortcutOrder) =>
         && a.now <= now
         && Lists(tabOrder, Expired(a.books.tabLeases, now))
         && Lists(shortcutOrder, Expired(a.books.shortcutLeases, now))
       case Close(c, order) => Lists(order, OwnedBy(cfg, a.books, c))
       case _ => false
  }

  /** A posted command, executed and answered on the spot. */
  ghost function Settle(cfg: Config, a: Atomic, c: Connection, req: Request, cmd: Command, since: int): Atomic {
    var (gui, reply) := Exec(cfg, a.gui, cmd);
    a.(gui := gui, books := Finish(cfg, a.books, c, cmd, reply), log := a.log + [Entry(c, req, Convert(reply), since)])
  }

  ghost function AtomicNext(cfg: Config, a: Atomic, e: Event): Atomic
    requires AtomicEnabled(cfg, a, e)
  {
    match e
    case Receive(now, c, req) =>
      var (begun, books) := Begin(a.books, req, now);
      var a' := a.(books := books, now := now, used := a.used + Drawn(req));
      (match begun
       case Answered(answer) => a'.(log := a.log + [Entry(c, req, answer, now)])
       case Posts(cmd) => Settle(cfg, a', c, req, cmd, now))
    case Prune(now, tabOrder, shortcutOrder) =>
      a.(books := ForgetShortcuts(ForgetAll(a.books, tabOrder), Elements(shortcutOrder)),
         gui := RunAll(cfg, a.gui, TabKills(tabOrder) + ShortcutKills(shortcutOrder)),
         now := now)
    case Close(c, order) =>
      a.(books := DropConnection(ForgetAll(a.books, order), c), gui := RunAll(cfg, a.gui, TabKills(order)))
  }

  ghost predicate AtomicLegal(cfg: Config, a: Atomic, events: seq<Event>)
    decreases |events|
  {
    |events| == 0 || (AtomicEnabled(cfg, a, events[0]) && AtomicLegal(cfg, AtomicNext(cfg, a, events[0]), events[1..]))
  }

  ghost function AtomicAfter(cfg: Config, a: Atomic, events: seq<Event>): Atomic
    requires AtomicLegal(cfg, a, events)
    decreases |events|
  {
    if |events| == 0 then a else AtomicAfter(cfg, AtomicNext(cfg, a, events[0]), events[1..])
  }

  // ---------- the refinement ----------

  /** The atomic state a system state stands for: the queue worked off, and the waiting handler finished. */
  ghost function Abstract(cfg: Config, s: System): Atomic {
    if s.phase.Waiting? && |s.queue| > 0 then
      var n := |s.queue| - 1;
      Settle(cfg, Atomic(s.books, RunAll(cfg, s.gui, s.queue[..n]), s.log, s.now, s.used),
             s.phase.c, s.phase.req, s.queue[n].cmd, s.phase.since)
    else if s.phase.Waiting? then
      var reply := if s.phase.slot.Filled? then s.phase.slot.reply else Result(Undefined);
      Atomic(Finish(cfg, s.books, s.phase.c, s.phase.cmd, reply), s.gui,
             s.log + [Entry(s.phase.c, s.phase.req, Convert(reply), s.phase.since)], s.now, s.used)
    else
      Atomic(s.books, RunAll(cfg, s.gui, s.queue), s.log, s.now, s.used)
  }

  /** The steps the atomic server sees. */
  function Visible(events: seq<Event>): seq<Event> {
    if |events| == 0 then []
    else (if events[0].GuiStep? || events[0].Resume? then [] else [events[0]]) + Visible(events[1..])
  }

  ghost predicate PostedKill(m: Message) {
    !m.sync && ((m.cmd.CmdKillTab? && m.cmd.force) || m.cmd.CmdKillShortcut?)
  }

  /** Only kills are posted without waiting, and the command waited for is the last in the queue. */
  ghost predicate WellFormed(s: System) {
    match s.phase
    case Idle => s.gui.Running? && forall i :: 0 <= i < |s.queue| ==> PostedKill(s.queue[i])
    case Waiting(c, req, cmd, since, slot) =>
      if slot.Filled? then s.gui.Running? && s.queue == []
      else if |s.queue| == 0 then s.gui.Crashed?
      else
        && s.gui.Running?
        && s.queue[|s.queue| - 1] == Message(cmd, true)
        && forall i :: 0 <= i < |s.queue| - 1 ==> PostedKill(s.queue[i])
  }

  lemma {:induction false} RunAllAppend(cfg: Config, gui: Gui, a: seq<Message>, b: seq<Message>)
    ensures RunAll(cfg, gui, a + b) == RunAll(cfg, RunAll(cfg, gui, a), b)
    decreases |a|
  {
    if |a| == 0 {
      assert a + b == b;
    } else {
      assert (a + b)[0] == a[0] && (a + b)[1..] == a[1..] + b;
      RunAllAppend(cfg, Exec(cfg, gui, a[0].cmd).0, a[1..], b);
    }
  }

  lemma {:induction false} KillsKeepRunning(cfg: Config, gui: Gui, queue: seq<Message>)
    requires gui.Running? && forall i :: 0 <= i < |queue| ==> PostedKill(queue[i])
    ensures RunAll(cfg, gui, queue).Running?
    decreases |queue|
  {
    if |queue| > 0 {
      KillsKeepRunning(cfg, Exec(cfg, gui, queue[0].cmd).0, queue[1..]);
    }
  }

  lemma ReceiveSimulates(cfg: Config, s: System, e: Event)
    requires WellFormed(s) && e.Receive? && Enabled(cfg, s, e)
    ensures WellFormed(Next(cfg, s, e))
    ensures AtomicEnabled(cfg, Abstract(cfg, s), e)
    ensures Abstract(cfg, Next(cfg, s, e)) == AtomicNext(cfg, Abstract(cfg, s), e)
  {
    KillsKeepRunning(cfg, s.gui, s.queue);
    var begun := Begin(s.books, e.req, e.now).0;
    if begun.Posts? {
      var m := Message(begun.cmd, true);
      assert (s.queue + [m])[..|s.queue|] == s.queue;
    }
  }

  lemma PostingSimulates(cfg: Config, s: System, e: Event)
    requires WellFormed(s) && (e.Prune? || e.Close?) && Enabled(cfg, s, e)
    ensures WellFormed(Next(cfg, s, e))
    ensures AtomicEnabled(cfg, Abstract(cfg, s), e)
    ensures Abstract(cfg, Next(cfg, s, e)) == AtomicNext(cfg, Abstract(cfg, s), e)
  {
    KillsKeepRunning(cfg, s.gui, s.queue);
    match e
    case Prune(now, tabOrder, shortcutOrder) =>
      RunAllAppend(cfg, s.gui, s.queue, TabKills(tabOrder) + ShortcutKills(shortcutOrder));
    case Close(c, order) =>
      RunAllAppend(cfg, s.gui, s.queue, TabKills(order));
  }

  lemma GuiStepStutters(cfg: Config, s: System)
    requires WellFormed(s) && Enabled(cfg, s, GuiStep)
    ensures WellFormed(Next(cfg, s, GuiStep))
    ensures Abstract(cfg, Next(cfg, s, GuiStep)) == Abstract(cfg, s)
  {
    var n := |s.queue| - 1;
    if s.phase.Waiting? && n > 0 {
      assert s.queue[1..][..n - 1] == s.queue[..n][1..];
    }
  }

  lemma ResumeStutters(cfg: Config, s: System)
    requires WellFormed(s) && Enabled(cfg, s, Resume)
    ensures WellFormed(Next(cfg, s, Resume))
    ensures Abstract(cfg, Next(cfg, s, Resume)) == Abstract(cfg, s)
  {
  }

  /**
   The refinement: every run of the two threads, however their steps interleave, is a run of the atomic server on the
   requests, prunes and closes of that run.
   */
  lemma {:induction false} Refines(cfg: Config, s: System, events: seq<Event>)
    requires WellFormed(s) && Legal(cfg, s, events)
    ensures WellFormed(After(cfg, s, events))
    ensures AtomicLegal(cfg, Abstract(cfg, s), Visible(events))
    ensures AtomicAfter(cfg, Abstract(cfg, s), Visible(events)) == Abstract(cfg, After(cfg, s, events))
    decreases |events|
  {
    if |events| > 0 {
      var e := events[0];
      match e {
        case Receive(_, _, _) => ReceiveSimulates(cfg, s, e);
        case Prune(_, _, _) => PostingSimulates(cfg, s, e);
        case Close(_, _) => PostingSimulates(cfg, s, e);
        case GuiStep => GuiStepStutters(cfg, s);
        case Resume => ResumeStutters(cfg, s);
      }
      Refines(cfg, Next(cfg, s, e), events[1..]);
      if !e.GuiStep? && !e.Resume? {
        assert Visible(events)[1..] == Visible(events[1..]);
      } else {
        assert Visible(events) == Visible(events[1..]);
      }
    }
  }
}
