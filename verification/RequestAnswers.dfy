/**
 The request loop over the server: what the modelled handlers do is a step of the atomic server, so it is known which
 sequences of request texts are served to their end, and with which answers.
 */
module RequestAnswers {
  import opened TabPositions
  import opened Environment
  import opened Requests
  import opened TwoThreads
  import Books = ServerBooks
  import Effects
  import Life = Lifecycle
  import Runs = TabRuns

  // ---------- the handlers' work ----------

  /** What the clock and the uuid generator give to the next handler. */
  datatype Draw = Draw(now: int, uuid: TabId)

  /** The atomic server, and how often a handler has drawn. */
  datatype Desk = Desk(server: Atomic, drawn: nat)

  /** A response: an answer about tabs and shortcuts, or what one of the other handlers reports. */
  datatype Body = OfTabs(answer: Books.Answer) | OfOthers(text: string)

  const FLAG_APPEND_ID := 1

  /** `buildWebTabUrl` */
  function WebTabUrl(url: string, tabId: TabId, flags: int): string {
    if flags % 2 != FLAG_APPEND_ID then url
    else url + (if '?' in url then "&" else "?") + "tabid=" + tabId
  }

  /** The request a handler makes of what it has read. Activating a tab looks for it as blinking does. */
  function RequestOf(ask: Ask, uuid: TabId): Books.Request
    requires !ask.Other?
  {
    match ask
    case NewWebTab(url, _, pref, flags) => Books.NewTab(WebTabUrl(url, uuid, flags), pref, uuid)
    case NewShortcut(_, _, pref, _) => Books.NewShortcut(pref, uuid)
    case NavigateTo(tabId, url) => Books.Navigate(tabId, url)
    case BlinkTab(tabId) => Books.Blink(tabId)
    case ActivateTab(tabId) => Books.Blink(tabId)
    case KillTab(tabId) => Books.Kill(tabId)
    case KillShortcut(shortcutId) => Books.KillShortcut(shortcutId)
    case TabAlive(tabId, ttl) => Books.Alive(tabId, ttl)
    case ShortcutAlive(shortcutId, ttl) => Books.ShortcutAlive(shortcutId, ttl)
    case GetTabMap => Books.GetMap
  }

  /** `others` is what the handlers outside this model report; it may depend on everything drawn so far. */
  datatype Setup = Setup(
    cfg: Books.Config,
    supply: nat -> Draw,
    others: (nat, string, Members) -> string)

  function Arrival(setup: Setup, desk: Desk, bev: Connection, ask: Ask): Event
    requires !ask.Other?
  {
    var draw := setup.supply(desk.drawn);
    Receive(draw.now, bev, RequestOf(ask, draw.uuid))
  }

  ghost function Work(setup: Setup, desk: Desk, bev: Connection, ask: Ask): (Desk, Reply<Body>) {
    if ask.Other? then
      (desk.(drawn := desk.drawn + 1), Done(OfOthers(setup.others(desk.drawn, ask.name, ask.request))))
    else
      var e := Arrival(setup, desk, bev, ask);
      if !AtomicEnabled(setup.cfg, desk.server, e) then (desk, Broken)
      else
        var answer := Life.AnswerTo(setup.cfg, desk.server, e);
        (Desk(AtomicNext(setup.cfg, desk.server, e), desk.drawn + 1),
         if answer.Never? then Broken else Done(OfTabs(answer)))
  }

  ghost function Loop(setup: Setup, parse: seq<Framing.byte> -> Parsed, password: string): Handlers<Desk, Body> {
    Handlers(parse, password, (desk, bev, ask) => Work(setup, desk, bev, ask))
  }

  // ---------- when the work is defined ----------

  /** The clock does not run backwards, and no id is drawn twice. */
  ghost predicate FreshSupply(setup: Setup, desk: Desk) {
    && (forall i :: i >= desk.drawn ==> desk.server.now <= setup.supply(i).now && setup.supply(i).uuid !in desk.server.used)
    && (forall i, j :: desk.drawn <= i < j ==>
          setup.supply(i).now <= setup.supply(j).now && setup.supply(i).uuid != setup.supply(j).uuid)
  }

  ghost predicate Ready(setup: Setup, desk: Desk) {
    desk.server.gui.Running? && Life.Sound(setup.cfg, desk.server) && FreshSupply(setup, desk)
  }

  /** The one request that a ready server cannot answer: a new tab for an overfull zone. */
  ghost predicate Overfills(desk: Desk, ask: Ask)
    requires desk.server.gui.Running?
  {
    ask.NewWebTab? && Runs.ZoneOverfull(desk.server.gui.tabs, ask.pref)
  }

  lemma AnsweredUnlessNew(cfg: Books.Config, a: Atomic, e: Event)
    requires Life.Sound(cfg, a) && e.Receive? && AtomicEnabled(cfg, a, e) && !e.req.NewTab?
    ensures !Life.AnswerTo(cfg, a, e).Never? && AtomicNext(cfg, a, e).gui.Running?
  {
    if e.req.Navigate? && e.req.id in a.gui.tabs {
      Runs.NavigatePlaces(a.gui.tabs, e.req.id, e.req.url);
    }
  }

  lemma NewTabRunning(cfg: Books.Config, a: Atomic, e: Event)
    requires Life.Sound(cfg, a) && e.Receive? && AtomicEnabled(cfg, a, e) && e.req.NewTab?
    ensures AtomicNext(cfg, a, e).gui.Running? <==> !Life.AnswerTo(cfg, a, e).Never?
  {
  }

  lemma ServerMoves(setup: Setup, desk: Desk, bev: Connection, ask: Ask)
    requires Ready(setup, desk) && !ask.Other?
    ensures var e := Arrival(setup, desk, bev, ask);
            && AtomicEnabled(setup.cfg, desk.server, e)
            && AtomicNext(setup.cfg, desk.server, e).now == e.now
            && AtomicNext(setup.cfg, desk.server, e).used <= desk.server.used + {setup.supply(desk.drawn).uuid}
  {
  }

  /** A ready server's work is defined unless a zone overflows, and leaves it ready. */
  lemma WorkOutcome(setup: Setup, desk: Desk, bev: Connection, ask: Ask)
    requires Ready(setup, desk)
    ensures Work(setup, desk, bev, ask).1.Done? <==> !Overfills(desk, ask)
    ensures Work(setup, desk, bev, ask).1.Done? ==> Ready(setup, Work(setup, desk, bev, ask).0)
  {
    if !ask.Other? {
      var cfg, a, e := setup.cfg, desk.server, Arrival(setup, desk, bev, ask);
      ServerMoves(setup, desk, bev, ask);
      Life.ReceiveKeeps(cfg, a, e);
      if e.req.NewTab? {
        Life.NewTabAnswer(cfg, a, e);
        NewTabRunning(cfg, a, e);
      } else {
        AnsweredUnlessNew(cfg, a, e);
      }
    }
  }

  // ---------- what the work does ----------

  /** The id of the tab is appended as a query, if the flag for it is set, behind the query the URL already has. */
  lemma WebTabUrlMeans(url: string, tabId: TabId, flags: int)
    ensures var made := WebTabUrl(url, tabId, flags);
            && (flags % 2 == 0 ==> made == url)
            && (flags % 2 == 1 && '?' !in url ==> made == url + "?tabid=" + tabId)
            && (flags % 2 == 1 && '?' in url ==> made == url + "&tabid=" + tabId)
  {
    assert "?" + "tabid=" == "?tabid=" && "&" + "tabid=" == "&tabid=";
  }

  ghost predicate SaysOfTab(reply: Reply<Body>, leased: bool) {
    reply == Done(OfTabs(if leased then Books.Ok else Books.InvalidTab))
  }

  /** What is asked for is what happens: to that tab or shortcut, for that connection, and to nothing else. */
  ghost predicate TakesEffect(setup: Setup, desk: Desk, bev: Connection, ask: Ask, after: Atomic, reply: Reply<Body>)
    requires desk.server.gui.Running?
  {
    var a, draw := desk.server, setup.supply(desk.drawn);
    match ask
    case NewWebTab(url, _, pref, flags) =>
      || (&& reply == Done(OfTabs(Books.Ok)) && after.gui.Running? && after.gui.board == a.gui.board
          && Effects.TabAdded(a.gui.tabs, after.gui.tabs, draw.uuid, WebTabUrl(url, draw.uuid, flags), pref)
          && Effects.TabEntered(setup.cfg, a.books, after.books, bev, draw.uuid, pref))
      || (reply == Done(OfTabs(Books.ExecFailed)) && Effects.NothingChanges(a, after))
    case NewShortcut(_, _, pref, _) =>
      || (&& reply == Done(OfTabs(Books.Ok)) && after.gui.Running? && after.gui.tabs == a.gui.tabs
          && draw.uuid in after.gui.board
          && after.gui.board == a.gui.board[draw.uuid := after.gui.board[draw.uuid]]
          && after.gui.board[draw.uuid].pref == pref
          && after.books == a.books.(shortcutLeases := a.books.shortcutLeases[draw.uuid := Books.Unlimited]))
      || (reply == Done(OfTabs(Books.ExecFailed)) && Effects.NothingChanges(a, after))
    case NavigateTo(tabId, url) =>
      && SaysOfTab(reply, tabId in a.books.tabLeases) && after.books == a.books
      && (if tabId in a.books.tabLeases then
            && after.gui.Running? && after.gui.board == a.gui.board && tabId in a.gui.tabs
            && Effects.TabMoved(a.gui.tabs, after.gui.tabs, tabId, url)
          else after.gui == a.gui)
    case BlinkTab(tabId) => SaysOfTab(reply, tabId in a.books.tabLeases) && Effects.NothingChanges(a, after)
    case ActivateTab(tabId) => SaysOfTab(reply, tabId in a.books.tabLeases) && Effects.NothingChanges(a, after)
    case KillTab(tabId) =>
      && SaysOfTab(reply, tabId in a.books.tabLeases)
      && (if tabId in a.books.tabLeases && tabId != a.books.extraTabId then Effects.TabGone(a, after, tabId)
          else Effects.NothingChanges(a, after))
    case KillShortcut(shortcutId) =>
      && SaysOfTab(reply, shortcutId in a.books.shortcutLeases)
      && (if shortcutId in a.books.shortcutLeases then Effects.ShortcutGone(a, after, shortcutId)
          else Effects.NothingChanges(a, after))
    case TabAlive(tabId, ttl) =>
      if ttl < 0 then reply == Done(OfTabs(Books.BadRequest)) && Effects.NothingChanges(a, after)
      else
        && SaysOfTab(reply, tabId in a.books.tabLeases)
        && (if tabId !in a.books.tabLeases then Effects.NothingChanges(a, after)
            else if ttl == 0 then Effects.TabGone(a, after, tabId)
            else
              && after.gui == a.gui
              && after.books == a.books.(tabLeases :=
                   a.books.tabLeases[tabId := Books.Until(draw.now + ttl * Effects.NANOS)]))
    case ShortcutAlive(shortcutId, ttl) =>
      if ttl < 0 then reply == Done(OfTabs(Books.BadRequest)) && Effects.NothingChanges(a, after)
      else
        && SaysOfTab(reply, shortcutId in a.books.shortcutLeases)
        && (if shortcutId !in a.books.shortcutLeases then Effects.NothingChanges(a, after)
            else if ttl == 0 then Effects.ShortcutGone(a, after, shortcutId)
            else
              && after.gui == a.gui
              && after.books == a.books.(shortcutLeases :=
                   a.books.shortcutLeases[shortcutId := Books.Until(draw.now + ttl * Effects.NANOS)]))
    case GetTabMap => reply == Done(OfTabs(Books.TabMapIs(TabMap(a.gui.tabs)))) && Effects.NothingChanges(a, after)
    case Other(_, _) => reply.Done? && reply.body.OfOthers? && after == a
  }

  lemma NewTakesEffect(setup: Setup, desk: Desk, bev: Connection, ask: Ask)
    requires Ready(setup, desk) && !Overfills(desk, ask) && (ask.NewWebTab? || ask.NewShortcut?)
    ensures var (after, reply) := Work(setup, desk, bev, ask);
            TakesEffect(setup, desk, bev, ask, after.server, reply)
  {
    var cfg, a, e := setup.cfg, desk.server, Arrival(setup, desk, bev, ask);
    ServerMoves(setup, desk, bev, ask);
    WorkOutcome(setup, desk, bev, ask);
    if ask.NewWebTab? {
      Effects.NewTabEffect(cfg, a, e);
    } else {
      Effects.NewShortcutEffect(cfg, a, e);
    }
  }

  lemma OnTabTakesEffect(setup: Setup, desk: Desk, bev: Connection, ask: Ask)
    requires Ready(setup, desk) && (ask.NavigateTo? || ask.BlinkTab? || ask.ActivateTab? || ask.KillTab?)
    ensures var (after, reply) := Work(setup, desk, bev, ask);
            TakesEffect(setup, desk, bev, ask, after.server, reply)
  {
    var cfg, a, e := setup.cfg, desk.server, Arrival(setup, desk, bev, ask);
    ServerMoves(setup, desk, bev, ask);
    Life.LeasedIsFound(cfg, a, e, ask.tabId);
    match ask
    case NavigateTo(_, _) => Effects.NavigateEffect(cfg, a, e);
    case KillTab(_) => Effects.KillEffect(cfg, a, e);
    case _ => Effects.LookEffect(cfg, a, e);
  }

  lemma AliveTakesEffect(setup: Setup, desk: Desk, bev: Connection, ask: Ask)
    requires Ready(setup, desk) && ask.TabAlive?
    ensures var (after, reply) := Work(setup, desk, bev, ask);
            TakesEffect(setup, desk, bev, ask, after.server, reply)
  {
    var cfg, a, e := setup.cfg, desk.server, Arrival(setup, desk, bev, ask);
    ServerMoves(setup, desk, bev, ask);
    Life.LeasedIsFound(cfg, a, e, ask.tabId);
    Effects.AliveEffect(cfg, a, e);
  }

  lemma OnShortcutTakesEffect(setup: Setup, desk: Desk, bev: Connection, ask: Ask)
    requires Ready(setup, desk) && (ask.ShortcutAlive? || ask.KillShortcut?)
    ensures var (after, reply) := Work(setup, desk, bev, ask);
            TakesEffect(setup, desk, bev, ask, after.server, reply)
  {
    var cfg, a, e := setup.cfg, desk.server, Arrival(setup, desk, bev, ask);
    ServerMoves(setup, desk, bev, ask);
    Life.LeasedIsFound(cfg, a, e, ask.shortcutId);
    if ask.ShortcutAlive? {
      Effects.ShortcutAliveEffect(cfg, a, e);
    } else {
      Effects.KillShortcutEffect(cfg, a, e);
    }
  }

  /** On a sound server every request does what it asks for. */
  lemma WorkTakesEffect(setup: Setup, desk: Desk, bev: Connection, ask: Ask)
    requires Ready(setup, desk) && !Overfills(desk, ask)
    ensures var (after, reply) := Work(setup, desk, bev, ask);
            TakesEffect(setup, desk, bev, ask, after.server, reply)
  {
    if ask.NewWebTab? || ask.NewShortcut? {
      NewTakesEffect(setup, desk, bev, ask);
    } else if ask.TabAlive? {
      AliveTakesEffect(setup, desk, bev, ask);
    } else if ask.ShortcutAlive? || ask.KillShortcut? {
      OnShortcutTakesEffect(setup, desk, bev, ask);
    } else if ask.GetTabMap? {
      ServerMoves(setup, desk, bev, ask);
      Effects.LookEffect(setup.cfg, desk.server, Arrival(setup, desk, bev, ask));
    } else if !ask.Other? {
      OnTabTakesEffect(setup, desk, bev, ask);
    }
  }

  // ---------- sequences of request texts ----------

  /** The text is no defective object, and asks for no tab in a zone that is overfull when its turn comes. */
  ghost predicate Answerable(setup: Setup, parse: seq<Framing.byte> -> Parsed, password: string, desk: Desk,
                             text: seq<Framing.byte>)
    requires desk.server.gui.Running?
  {
    var parsed := parse(text);
    && !(parsed.Value? && Defective(parsed.value))
    && (Understand(parsed, password).Got? ==> !Overfills(desk, Understand(parsed, password).value))
  }

  /** All texts are answerable, each in the state the answers before it have left. */
  ghost predicate AllAnswerable(setup: Setup, parse: seq<Framing.byte> -> Parsed, password: string, desk: Desk,
                                bev: Connection, texts: seq<seq<Framing.byte>>)
    decreases |texts|
  {
    |texts| == 0 ||
    (var h, n := Loop(setup, parse, password), |texts| - 1;
     && AllAnswerable(setup, parse, password, desk, bev, texts[..n])
     && var before := ServeAll(h, desk, bev, texts[..n]).state;
        before.server.gui.Running? && Answerable(setup, parse, password, before, texts[n]))
  }

  /**
   On a sound server exactly the answerable sequences are served to their end, whatever was drawn; then every text has
   got its one response, and the server is sound again.
   */
  lemma {:induction false} ServedByServer(setup: Setup, parse: seq<Framing.byte> -> Parsed, password: string, desk: Desk,
                                          bev: Connection, texts: seq<seq<Framing.byte>>)
    requires Ready(setup, desk)
    ensures var served := ServeAll(Loop(setup, parse, password), desk, bev, texts);
            && (served.defined <==> AllAnswerable(setup, parse, password, desk, bev, texts))
            && (served.defined ==> Ready(setup, served.state) && |served.responses| == |texts|)
    decreases |texts|
  {
    if |texts| > 0 {
      var h, n := Loop(setup, parse, password), |texts| - 1;
      var init := texts[..n];
      ServedByServer(setup, parse, password, desk, bev, init);
      var before := ServeAll(h, desk, bev, init);
      if before.defined {
        var what := Understand(parse(texts[n]), password);
        UnderstandOutcome(parse(texts[n]), password);
        if what.Got? {
          WorkOutcome(setup, before.state, bev, what.value);
        }
      }
    }
  }

  // ---------- equal texts, different answers ----------

  lemma ExtraTabWork(setup: Setup, desk: Desk, bev: Connection, ask: Ask)
    requires Ready(setup, desk) && ask.NewWebTab? && ask.pref == POS_EXTRA
    ensures var (after, reply) := Work(setup, desk, bev, ask);
            && Ready(setup, after) && after.server.books.extraTabId != ""
            && reply == Done(OfTabs(if desk.server.books.extraTabId == "" then Books.Ok else Books.ExecFailed))
  {
    var cfg, a, e := setup.cfg, desk.server, Arrival(setup, desk, bev, ask);
    ServerMoves(setup, desk, bev, ask);
    WorkOutcome(setup, desk, bev, ask);
    Life.NewTabAnswer(cfg, a, e);
    Life.NewTabAnswerIs(cfg, a, e);
  }

  /** The same text twice: the first asks for an extra tab and gets it, the second is told that there is one. */
  lemma EqualTextsDiffer(setup: Setup, parse: seq<Framing.byte> -> Parsed, password: string, desk: Desk,
                         bev: Connection, text: seq<Framing.byte>, ask: Ask)
    requires Ready(setup, desk) && desk.server.books.extraTabId == ""
    requires Understand(parse(text), password) == Got(ask) && ask.NewWebTab? && ask.pref == POS_EXTRA
    ensures var served := ServeAll(Loop(setup, parse, password), desk, bev, [text, text]);
            && served.defined
            && served.responses == [Reported(OfTabs(Books.Ok)), Reported(OfTabs(Books.ExecFailed))]
  {
    var h := Loop(setup, parse, password);
    ExtraTabWork(setup, desk, bev, ask);
    ExtraTabWork(setup, Work(setup, desk, bev, ask).0, bev, ask);
    ServeTwice(h, desk, bev, text, ask);
  }
}
