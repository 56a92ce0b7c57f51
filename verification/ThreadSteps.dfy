/**
 The objects of both threads, put together into the steps of the two-thread system: what the server object and the
 browser do on a request, a timer tick, a closed connection or a queued command is one step of `TwoThreads.Next`.
 */
module ThreadSteps {
  import opened BrowserTabs
  import opened Environment
  import opened ServerBooks
  import opened ServerThread
  import opened TwoThreads
  import Boards = Shortcuts
  import Framing

  /** The server object holds the books of `s`; `taken` are the messages the GUI thread has taken off the queue. */
  ghost predicate Mirrors(server: Server, s: System, taken: seq<Message>)
    reads server
  {
    server.State() == s.books && server.posted == taken + s.queue
  }

  // ---------- the server thread ----------

  lemma PostedBehind(taken: seq<Message>, queue: seq<Message>, more: seq<Message>)
    ensures (taken + queue) + more == taken + (queue + more)
  {
  }

  /** A request arrives: it is answered at once, or the server waits for the command it has posted. */
  method OnRequest(server: Server, now: int, bev: Connection, req: Request, ghost s: System, ghost taken: seq<Message>)
    returns (begun: Begun)
    requires Mirrors(server, s, taken) && Enabled(server.cfg, s, Receive(now, bev, req))
    modifies server
    ensures var s' := Next(server.cfg, s, Receive(now, bev, req));
            && Mirrors(server, s', taken)
            && match begun
               case Answered(answer) => s'.phase == s.phase && s'.log == s.log + [Entry(bev, req, answer, now)]
               case Posts(cmd) => s'.phase == Waiting(bev, req, cmd, now, Unfilled) && s'.log == s.log
  {
    begun := server.BeginRequest(req, now);
    PostedBehind(taken, s.queue, if begun.Posts? then [Message(begun.cmd, true)] else []);
  }

  /** The waiting handler is woken by its reply. */
  method OnReply(server: Server, bev: Connection, cmd: Command, reply: Reply, ghost s: System,
                 ghost taken: seq<Message>)
    returns (answer: Answer)
    requires Mirrors(server, s, taken)
    requires s.phase.Waiting? && s.phase.c == bev && s.phase.cmd == cmd && s.phase.slot == Filled(reply)
    modifies server
    ensures var s' := Next(server.cfg, s, Resume);
            && Mirrors(server, s', taken) && s'.phase.Idle?
            && s'.log == s.log + [Entry(bev, s.phase.req, answer, s.phase.since)]
  {
    answer := server.FinishRequest(bev, cmd, reply);
  }

  lemma PostedTwice(taken: seq<Message>, queue: seq<Message>, more: seq<Message>, evenMore: seq<Message>)
    ensures ((taken + queue) + more) + evenMore == taken + (queue + (more + evenMore))
  {
  }

  /** The timer ticks: `pruneExpiredTabs`, in the orders the iterations happen to have. */
  method OnTick(server: Server, now: int, ghost s: System, ghost taken: seq<Message>) returns (ghost e: Event)
    requires Mirrors(server, s, taken) && s.phase.Idle? && s.now <= now
    modifies server
    ensures e.Prune? && e.now == now && Enabled(server.cfg, s, e)
    ensures Mirrors(server, Next(server.cfg, s, e), taken)
  {
    var tabOrder, shortcutOrder := server.PruneExpiredTabs(now);
    e := Prune(now, tabOrder, shortcutOrder);
    PostedTwice(taken, s.queue, TabKills(tabOrder), ShortcutKills(shortcutOrder));
  }

  /** A connection ends: `eraseOwnedTabs`, then both halves of `eraseConnection`. */
  method OnEnd(server: Server, reader: Framing.Reader, bev: Connection, ghost s: System, ghost taken: seq<Message>)
    returns (ghost e: Event)
    requires Mirrors(server, s, taken) && s.phase.Idle? && Partition(server.cfg, s.books)
    modifies server, reader
    ensures e.Close? && e.c == bev && Enabled(server.cfg, s, e)
    ensures Mirrors(server, Next(server.cfg, s, e), taken)
    ensures bev !in server.connectionTabs
    ensures reader.connectionBuffers == old(reader.connectionBuffers) - {bev} && reader.Buffered(bev) == []
  {
    var order := server.EraseOwnedTabs(bev);
    e := Close(bev, order);
    PostedBehind(taken, s.queue, TabKills(order));
    server.EraseConnection(bev);
    reader.OnClose(bev);
  }

  // ---------- the GUI thread ----------

  /** No id in a queued create is in use, and no id in use is one that was never drawn. */
  ghost predicate FreshInQueue(s: System) {
    s.gui.Running? ==>
      && s.gui.tabs.Keys <= s.used && s.gui.board.Keys <= s.used
      && (forall i :: 0 <= i < |s.queue| && s.queue[i].cmd.CmdNewTab? ==>
            s.queue[i].cmd.uuid in s.used && s.queue[i].cmd.uuid !in s.gui.tabs)
      && (forall i :: 0 <= i < |s.queue| && s.queue[i].cmd.CmdNewShortcut? ==>
            s.queue[i].cmd.uuid in s.used && s.queue[i].cmd.uuid !in s.gui.board)
  }

  lemma StepKeepsFresh(cfg: Config, s: System, e: Event)
    requires WellFormed(s) && FreshInQueue(s) && Enabled(cfg, s, e)
    ensures FreshInQueue(Next(cfg, s, e))
  {
  }

  /** Over all runs, a create never reaches the browser with an id that is already there. */
  lemma {:induction false} RunKeepsFresh(cfg: Config, s: System, events: seq<Event>)
    requires WellFormed(s) && FreshInQueue(s) && Legal(cfg, s, events)
    ensures FreshInQueue(After(cfg, s, events))
    decreases |events|
  {
    if |events| > 0 {
      StepKeepsFresh(cfg, s, events[0]);
      Refines(cfg, s, events[..1]);
      RunKeepsFresh(cfg, Next(cfg, s, events[0]), events[1..]);
    }
  }

  /** In every run from the start, a create that reaches the browser brings an id that is not there. */
  lemma CreatesAreFresh(cfg: Config, events: seq<Event>)
    requires Legal(cfg, START, events)
    ensures WellFormed(After(cfg, START, events)) && FreshInQueue(After(cfg, START, events))
  {
    Refines(cfg, START, events);
    RunKeepsFresh(cfg, START, events);
  }

  /** The GUI thread takes the next command and fills in the response of whoever waits for it. */
  method OnCommand(cfg: Config, browser: Browser, board: Boards.ShortcutBoard, m: Message, ghost s: System)
    returns (reply: Reply)
    requires browser.Valid() && board.Valid()
    requires board.enabled == cfg.shortcutsEnabled && board.maxCount == MaxShortcuts(cfg)
    requires s.gui == Running(browser.Table(), board.shortcuts)
    requires |s.queue| > 0 && m == s.queue[0] && FreshInQueue(s)
    modifies browser, browser.list.Values, board
    ensures var s' := Next(cfg, s, GuiStep);
            && s'.queue == s.queue[1..]
            && (reply == Result(Undefined) <==> s'.gui.Crashed?)
            && (s'.gui.Running? ==>
                  && browser.Valid() && board.Valid() && s'.gui == Running(browser.Table(), board.shortcuts)
                  && (m.sync && s.phase.Waiting? ==> s'.phase.slot == Filled(reply)))
  {
    assert forall id :: id in browser.list <==> id in browser.Table();
    reply := Execute(cfg, browser, board, m.cmd);
  }
}
