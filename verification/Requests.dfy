/**
 The request loop: a request text is parsed, dispatched to the handler of its "req", and answered. Which members a
 handler reads, in which order and whether it checks for them first, is modelled member by member; what the handler
 then does with them is a step of a state that is passed on from request to request.
 */
module Requests {
  import opened Environment
  import opened Framing

  // ---------- parsed requests ----------

  type Members = map<string, Json>

  datatype Json =
    | Null
    | Boolean(b: bool)
    | Integer(n: int)
    | Float(r: real)
    | String(text: string)
    | Array(items: seq<Json>)
    | Object(members: map<string, Json>)

  /** What `json::parse` makes of a request text: a value, or an exception. */
  datatype Parsed = Unparsable | Value(value: Json)

  /** Reading a member: its value, an exception or refusal, or an access that is undefined. */
  datatype Lookup<T> = Got(value: T) | Bad | Unreadable {
    predicate IsFailure() {
      !Got?
    }

    function PropagateFailure<U>(): Lookup<U>
      requires IsFailure()
    {
      if Bad? then Lookup<U>.Bad else Lookup<U>.Unreadable
    }

    function Extract(): T
      requires !IsFailure()
    {
      value
    }
  }

  /** `request[key]`, converted to a string: undefined if there is no such member, an exception if it is no string. */
  function TextAt(m: Members, key: string): Lookup<string> {
    if key !in m then Unreadable
    else if m[key].String? then Got(m[key].text)
    else Bad
  }

  /** `request.value(key, fallback)` for a string. */
  function TextOr(m: Members, key: string, fallback: string): Lookup<string> {
    if key in m then TextAt(m, key) else Got(fallback)
  }

  const INT_MIN: int := -0x8000_0000
  const INT_MAX: int := 0x7FFF_FFFF

  /** The conversion of a wider integer to `int`, which keeps the lower 32 bits. */
  function ToInt(n: int): (i: int)
    ensures INT_MIN <= i <= INT_MAX
    ensures INT_MIN <= n <= INT_MAX ==> i == n
    ensures (n - i) % 0x1_0000_0000 == 0
  {
    var low := n % 0x1_0000_0000;
    if low > INT_MAX then low - 0x1_0000_0000 else low
  }

  function Truncated(r: real): int {
    if r >= 0.0 then r.Floor else -((-r).Floor)
  }

  /** A number of which `int` cannot hold even the integral part; converting it is undefined. */
  predicate TooLarge(v: Json) {
    v.Float? && !(INT_MIN <= Truncated(v.r) <= INT_MAX)
  }

  predicate Numeric(v: Json) {
    v.Integer? || v.Boolean? || (v.Float? && !TooLarge(v))
  }

  /** `request.value(key, fallback)` for an `int`; numbers and booleans are converted. */
  function IntOr(m: Members, key: string, fallback: int): Lookup<int> {
    if key !in m then Got(fallback)
    else match m[key]
         case Integer(n) => Got(ToInt(n))
         case Boolean(b) => Got(if b then 1 else 0)
         case Float(r) => if TooLarge(m[key]) then Unreadable else Got(Truncated(r))
         case _ => Bad
  }

  // ---------- what a request asks for ----------

  /** `Other` are the requests whose handlers check every member before they read it. */
  datatype Ask =
    | NewWebTab(url: string, iconUrl: string, pref: int, flags: int)
    | NewShortcut(url: string, iconUrl: string, pref: int, flags: int)
    | NavigateTo(tabId: string, url: string)
    | BlinkTab(tabId: string)
    | ActivateTab(tabId: string)
    | KillTab(tabId: string)
    | KillShortcut(shortcutId: string)
    | TabAlive(tabId: string, ttl: int)
    | ShortcutAlive(shortcutId: string, ttl: int)
    | GetTabMap
    | Other(name: string, request: Members)

  function NewWebTabAsk(m: Members): Lookup<Ask> {
    var iconUrl :- TextOr(m, "iconUrl", "");
    var pref :- IntOr(m, "preferredPos", -1);
    var flags :- IntOr(m, "flags", 0);
    var url :- TextAt(m, "url");
    Got(NewWebTab(url, iconUrl, pref, flags))
  }

  function NewShortcutAsk(m: Members): Lookup<Ask> {
    var iconUrl :- TextOr(m, "iconUrl", "");
    var pref :- IntOr(m, "preferredPos", -1);
    var flags :- IntOr(m, "flags", 0);
    var url :- TextAt(m, "url");
    Got(NewShortcut(url, iconUrl, pref, flags))
  }

  /**
   The order in which the two arguments of the call are read is not fixed: with one of them missing the access may be
   made, so it counts as undefined whatever the other is.
   */
  function NavigateAsk(m: Members): Lookup<Ask> {
    if "tabId" !in m || "url" !in m then Unreadable
    else
      var tabId :- TextAt(m, "tabId");
      var url :- TextAt(m, "url");
      Got(NavigateTo(tabId, url))
  }

  predicate HasText(m: Members, key: string) {
    key in m && m[key].String?
  }

  /** A keep-alive without an integer TTL, or without exactly one of the two ids, is refused. */
  function AliveAsk(m: Members): Lookup<Ask> {
    if !("TTL" in m && m["TTL"].Integer?) || HasText(m, "tabId") == HasText(m, "shortcutId") then Bad
    else if HasText(m, "tabId") then Got(TabAlive(m["tabId"].text, ToInt(m["TTL"].n)))
    else Got(ShortcutAlive(m["shortcutId"].text, ToInt(m["TTL"].n)))
  }

  /** `authorizeWithPassword` */
  predicate Authorized(m: Members, password: string) {
    password == "" || (HasText(m, "password") && m["password"].text == password)
  }

  const CHECKED_REQUESTS := {"GetRandom", "GetInfo", "GetSettings", "SetSettings", "PlaySound", "GetCharacteristics",
                             "Stop", "Restart", "CaptureScreenshot"}

  /** What a request with this "req" asks for. */
  function AskOf(name: string, m: Members, tabMapPassword: string): Lookup<Ask> {
    if name == "NewWebTab" then NewWebTabAsk(m)
    else if name == "NewShortcut" then NewShortcutAsk(m)
    else if name == "NavigateTo" then NavigateAsk(m)
    else if name == "BlinkTab" then var id :- TextAt(m, "tabId"); Got(BlinkTab(id))
    else if name == "ActivateTab" then var id :- TextAt(m, "tabId"); Got(ActivateTab(id))
    else if name == "KillTab" then var id :- TextAt(m, "tabId"); Got(KillTab(id))
    else if name == "KillShortcut" then var id :- TextAt(m, "shortcutId"); Got(KillShortcut(id))
    else if name == "IAmAlive" then AliveAsk(m)
    else if name == "GetTabMap" then if Authorized(m, tabMapPassword) then Got(GetTabMap) else Bad
    else if name == "GetShortcuts" then if Authorized(m, tabMapPassword) then Got(Other(name, m)) else Bad
    else if name in CHECKED_REQUESTS then Got(Other(name, m))
    else Bad
  }

  function Understand(parsed: Parsed, tabMapPassword: string): Lookup<Ask> {
    if parsed.Unparsable? || !parsed.value.Object? then Bad
    else
      var name :- TextAt(parsed.value.members, "req");
      AskOf(name, parsed.value.members, tabMapPassword)
  }

  // ---------- which requests are undefined ----------

  /** The members a handler reads without a look whether they are there. */
  function Required(name: string): set<string> {
    if name in {"NewWebTab", "NewShortcut"} then {"url"}
    else if name == "NavigateTo" then {"tabId", "url"}
    else if name in {"BlinkTab", "ActivateTab", "KillTab"} then {"tabId"}
    else if name == "KillShortcut" then {"shortcutId"}
    else {}
  }

  predicate FineText(m: Members, key: string) {
    key in m ==> m[key].String?
  }

  predicate FineInt(m: Members, key: string) {
    key in m ==> Numeric(m[key])
  }

  predicate LargeInt(m: Members, key: string) {
    key in m && TooLarge(m[key])
  }

  /** The optional members of a create are read first: an ill-typed one ends the handler before "url" is read. */
  predicate ReachesUrl(m: Members) {
    FineText(m, "iconUrl") && FineInt(m, "preferredPos") && FineInt(m, "flags")
  }

  /** A create that gets as far as a number `int` cannot hold. */
  predicate MeetsLargeInt(m: Members) {
    && FineText(m, "iconUrl")
    && (LargeInt(m, "preferredPos") || (FineInt(m, "preferredPos") && LargeInt(m, "flags")))
  }

  /** The undefined requests: an object without "req", or one whose handler gets to a member that is not there. */
  predicate Defective(v: Json) {
    && v.Object?
    && var m := v.members;
       || "req" !in m
       || (m["req"].String? &&
           (if m["req"].text in {"NewWebTab", "NewShortcut"} then (ReachesUrl(m) && "url" !in m) || MeetsLargeInt(m)
            else !(Required(m["req"].text) <= m.Keys)))
  }

  lemma AskOutcome(name: string, m: Members, tabMapPassword: string)
    ensures AskOf(name, m, tabMapPassword).Unreadable? <==>
              if name in {"NewWebTab", "NewShortcut"} then (ReachesUrl(m) && "url" !in m) || MeetsLargeInt(m)
              else !(Required(name) <= m.Keys)
  {
    if name == "NavigateTo" {
      assert Required(name) == {"tabId", "url"};
    } else if name == "KillShortcut" {
      assert Required(name) == {"shortcutId"};
    } else if name in {"BlinkTab", "ActivateTab", "KillTab"} {
      assert Required(name) == {"tabId"};
    }
  }

  /** Exactly the defective requests make an undefined access. */
  lemma UnderstandOutcome(parsed: Parsed, tabMapPassword: string)
    ensures Understand(parsed, tabMapPassword).Unreadable? <==> parsed.Value? && Defective(parsed.value)
  {
    if parsed.Value? && parsed.value.Object? {
      var m := parsed.value.members;
      if HasText(m, "req") {
        AskOutcome(m["req"].text, m, tabMapPassword);
      }
    }
  }

  /** For a request whose optional members are what they should be: it is undefined iff a member it needs is missing. */
  lemma NeedsItsMembers(v: Json)
    requires v.Object? && HasText(v.members, "req") && ReachesUrl(v.members)
    ensures Defective(v) <==> !(Required(v.members["req"].text) <= v.members.Keys)
  {
  }

  // ---------- what a request means ----------

  predicate Says(m: Members, key: string, text: string) {
    key in m && m[key] == String(text)
  }

  predicate SaysOr(m: Members, key: string, fallback: string, text: string) {
    if key in m then m[key] == String(text) else text == fallback
  }

  /** `i` is an integer of a request as an `int`: the same number if it fits, else its lower 32 bits. */
  predicate IsIntOf(n: int, i: int) {
    && -0x8000_0000 <= i < 0x8000_0000
    && (-0x8000_0000 <= n < 0x8000_0000 ==> i == n)
    && (n - i) % 0x1_0000_0000 == 0
  }

  /** `i` is the optional number of a request; a fraction loses what is behind the point, a boolean counts 0 or 1. */
  predicate IsNumber(m: Members, key: string, fallback: int, i: int) {
    if key !in m then i == fallback
    else match m[key]
         case Integer(n) => IsIntOf(n, i)
         case Boolean(b) => i == if b then 1 else 0
         case Float(r) =>
           && -0x8000_0000 <= i < 0x8000_0000
           && (if r >= 0.0 then i as real <= r < i as real + 1.0 else i as real - 1.0 < r <= i as real)
         case _ => false
  }

  predicate KeepsAlive(m: Members, key: string, other: string, id: string, ttl: int) {
    && Says(m, "req", "IAmAlive") && Says(m, key, id) && !(other in m && m[other].String?)
    && "TTL" in m && m["TTL"].Integer? && IsIntOf(m["TTL"].n, ttl)
  }

  /** The members of a request say this, each under its own name. */
  predicate Means(m: Members, tabMapPassword: string, ask: Ask) {
    match ask
    case NewWebTab(url, iconUrl, pref, flags) =>
      && Says(m, "req", "NewWebTab") && Says(m, "url", url) && SaysOr(m, "iconUrl", "", iconUrl)
      && IsNumber(m, "preferredPos", -1, pref) && IsNumber(m, "flags", 0, flags)
    case NewShortcut(url, iconUrl, pref, flags) =>
      && Says(m, "req", "NewShortcut") && Says(m, "url", url) && SaysOr(m, "iconUrl", "", iconUrl)
      && IsNumber(m, "preferredPos", -1, pref) && IsNumber(m, "flags", 0, flags)
    case NavigateTo(tabId, url) => Says(m, "req", "NavigateTo") && Says(m, "tabId", tabId) && Says(m, "url", url)
    case BlinkTab(tabId) => Says(m, "req", "BlinkTab") && Says(m, "tabId", tabId)
    case ActivateTab(tabId) => Says(m, "req", "ActivateTab") && Says(m, "tabId", tabId)
    case KillTab(tabId) => Says(m, "req", "KillTab") && Says(m, "tabId", tabId)
    case KillShortcut(shortcutId) => Says(m, "req", "KillShortcut") && Says(m, "shortcutId", shortcutId)
    case TabAlive(tabId, ttl) => KeepsAlive(m, "tabId", "shortcutId", tabId, ttl)
    case ShortcutAlive(shortcutId, ttl) => KeepsAlive(m, "shortcutId", "tabId", shortcutId, ttl)
    case GetTabMap => Says(m, "req", "GetTabMap") && (tabMapPassword == "" || Says(m, "password", tabMapPassword))
    case Other(name, request) =>
      && request == m && Says(m, "req", name)
      && (|| name in {"GetRandom", "GetInfo", "GetSettings", "SetSettings", "PlaySound", "GetCharacteristics", "Stop",
                      "Restart", "CaptureScreenshot"}
          || (name == "GetShortcuts" && (tabMapPassword == "" || Says(m, "password", tabMapPassword))))
  }

  lemma SameLowerBits(n: int, i: int, j: int)
    requires IsIntOf(n, i) && IsIntOf(n, j)
    ensures i == j
  {
    assert ((n - i) - (n - j)) % 0x1_0000_0000 == 0;
  }

  lemma ToIntMeans(n: int, i: int)
    ensures ToInt(n) == i <==> IsIntOf(n, i)
  {
    if IsIntOf(n, i) {
      SameLowerBits(n, ToInt(n), i);
    }
  }

  lemma TruncatedMeans(r: real, i: int)
    ensures Truncated(r) == i <==> if r >= 0.0 then i as real <= r < i as real + 1.0 else i as real - 1.0 < r <= i as real
  {
  }

  lemma IntOrMeans(m: Members, key: string, fallback: int, i: int)
    ensures IntOr(m, key, fallback) == Got(i) <==> IsNumber(m, key, fallback, i)
  {
    if key in m {
      match m[key]
      case Integer(n) => ToIntMeans(n, i);
      case Float(r) => TruncatedMeans(r, i);
      case _ =>
    }
  }

  lemma CreateMeans(m: Members, url: string, iconUrl: string, pref: int, flags: int)
    ensures var read := && Says(m, "url", url) && SaysOr(m, "iconUrl", "", iconUrl)
                        && IsNumber(m, "preferredPos", -1, pref) && IsNumber(m, "flags", 0, flags);
            && (NewWebTabAsk(m) == Got(NewWebTab(url, iconUrl, pref, flags)) <==> read)
            && (NewShortcutAsk(m) == Got(NewShortcut(url, iconUrl, pref, flags)) <==> read)
  {
    IntOrMeans(m, "preferredPos", -1, pref);
    IntOrMeans(m, "flags", 0, flags);
  }

  lemma AliveMeans(m: Members, id: string, ttl: int)
    requires Says(m, "req", "IAmAlive")
    ensures AliveAsk(m) == Got(TabAlive(id, ttl)) <==> KeepsAlive(m, "tabId", "shortcutId", id, ttl)
    ensures AliveAsk(m) == Got(ShortcutAlive(id, ttl)) <==> KeepsAlive(m, "shortcutId", "tabId", id, ttl)
  {
    if "TTL" in m && m["TTL"].Integer? {
      ToIntMeans(m["TTL"].n, ttl);
    }
  }

  lemma ByIdMeans(name: string, m: Members, tabMapPassword: string, ask: Ask)
    requires Says(m, "req", name)
    requires ask.NavigateTo? || ask.BlinkTab? || ask.ActivateTab? || ask.KillTab? || ask.KillShortcut?
    ensures AskOf(name, m, tabMapPassword) == Got(ask) <==> Means(m, tabMapPassword, ask)
  {
  }

  lemma ListingMeans(name: string, m: Members, tabMapPassword: string, ask: Ask)
    requires Says(m, "req", name) && (ask.GetTabMap? || ask.Other?)
    ensures AskOf(name, m, tabMapPassword) == Got(ask) <==> Means(m, tabMapPassword, ask)
  {
  }

  lemma AskMeans(name: string, m: Members, tabMapPassword: string, ask: Ask)
    requires Says(m, "req", name)
    ensures AskOf(name, m, tabMapPassword) == Got(ask) <==> Means(m, tabMapPassword, ask)
  {
    match ask
    case NewWebTab(url, iconUrl, pref, flags) => CreateMeans(m, url, iconUrl, pref, flags);
    case NewShortcut(url, iconUrl, pref, flags) => CreateMeans(m, url, iconUrl, pref, flags);
    case TabAlive(id, ttl) =>
      if name == "IAmAlive" {
        AliveMeans(m, id, ttl);
      }
    case ShortcutAlive(id, ttl) =>
      if name == "IAmAlive" {
        AliveMeans(m, id, ttl);
      }
    case GetTabMap => ListingMeans(name, m, tabMapPassword, ask);
    case Other(_, _) => ListingMeans(name, m, tabMapPassword, ask);
    case _ => ByIdMeans(name, m, tabMapPassword, ask);
  }

  /** A request is read as something iff its members say that: kind, ids, URLs and numbers, none for another. */
  lemma UnderstandMeans(parsed: Parsed, tabMapPassword: string, ask: Ask)
    ensures Understand(parsed, tabMapPassword) == Got(ask) <==>
              parsed.Value? && parsed.value.Object? && Means(parsed.value.members, tabMapPassword, ask)
  {
    if parsed.Value? && parsed.value.Object? && HasText(parsed.value.members, "req") {
      AskMeans(parsed.value.members["req"].text, parsed.value.members, tabMapPassword, ask);
    }
  }

  // ---------- serving one request, and many ----------

  /** What a handler's work comes to: the body of its response, or undefined behaviour. */
  datatype Reply<R> = Done(body: R) | Broken

  datatype Response<R> = BadRequest | Reported(body: R)

  /**
   The parser, the configured password, and what the handlers do with a request once they have read it: a step of the
   state S that yields one reply.
   */
  datatype Handlers<!S, !R> = Handlers(
    parse: seq<byte> -> Parsed,
    tabMapPassword: string,
    ask: (S, Connection, Ask) -> (S, Reply<R>))

  datatype Outcome<R> = Answered(response: Response<R>) | Lost

  /** One request text: refused, or read and worked on. */
  function Serve<S, R>(h: Handlers<S, R>, s: S, bev: Connection, text: seq<byte>): (S, Outcome<R>) {
    match Understand(h.parse(text), h.tabMapPassword)
    case Bad => (s, Answered(BadRequest))
    case Unreadable => (s, Lost)
    case Got(ask) =>
      var (next, reply) := h.ask(s, bev, ask);
      (next, if reply.Done? then Answered(Reported(reply.body)) else Lost)
  }

  datatype Served<S, R> = Served(state: S, responses: seq<Response<R>>, defined: bool)

  /** Request texts one after the other, up to the first that is undefined. */
  function ServeAll<S, R>(h: Handlers<S, R>, s: S, bev: Connection, texts: seq<seq<byte>>): Served<S, R> {
    if |texts| == 0 then Served(s, [], true)
    else
      var before := ServeAll(h, s, bev, texts[..|texts| - 1]);
      if !before.defined then before
      else
        var (next, outcome) := Serve(h, before.state, bev, texts[|texts| - 1]);
        match outcome
        case Answered(response) => Served(next, before.responses + [response], true)
        case Lost => Served(next, before.responses, false)
  }

  lemma ServeOneMore<S, R>(h: Handlers<S, R>, s: S, bev: Connection, texts: seq<seq<byte>>, text: seq<byte>)
    ensures var before := ServeAll(h, s, bev, texts);
            before.defined ==>
              var (next, outcome) := Serve(h, before.state, bev, text);
              ServeAll(h, s, bev, texts + [text]) ==
              match outcome
              case Answered(response) => Served(next, before.responses + [response], true)
              case Lost => Served(next, before.responses, false)
  {
    assert (texts + [text])[..|texts|] == texts;
  }

  /** A text that is read in full and whose work is done. */
  lemma ServeReported<S, R>(h: Handlers<S, R>, s: S, bev: Connection, texts: seq<seq<byte>>, text: seq<byte>, ask: Ask)
    requires Understand(h.parse(text), h.tabMapPassword) == Got(ask)
    requires ServeAll(h, s, bev, texts).defined && h.ask(ServeAll(h, s, bev, texts).state, bev, ask).1.Done?
    ensures var before := ServeAll(h, s, bev, texts);
            var (next, reply) := h.ask(before.state, bev, ask);
            ServeAll(h, s, bev, texts + [text]) == Served(next, before.responses + [Reported(reply.body)], true)
  {
    ServeOneMore(h, s, bev, texts, text);
  }

  lemma ServeTwice<S, R>(h: Handlers<S, R>, s: S, bev: Connection, text: seq<byte>, ask: Ask)
    requires Understand(h.parse(text), h.tabMapPassword) == Got(ask)
    requires h.ask(s, bev, ask).1.Done? && h.ask(h.ask(s, bev, ask).0, bev, ask).1.Done?
    ensures var (middle, first) := h.ask(s, bev, ask);
            var (end, second) := h.ask(middle, bev, ask);
            ServeAll(h, s, bev, [text, text]) == Served(end, [Reported(first.body), Reported(second.body)], true)
  {
    assert [] + [text] == [text] && [text] + [text] == [text, text];
    ServeReported(h, s, bev, [], text, ask);
    ServeReported(h, s, bev, [text], text, ask);
  }

  /** Serving in two goes is serving in one; after an undefined request nothing is served. */
  lemma {:induction false} ServeAppend<S, R>(h: Handlers<S, R>, s: S, bev: Connection, texts: seq<seq<byte>>,
                                            more: seq<seq<byte>>)
    ensures var first := ServeAll(h, s, bev, texts);
            var second := ServeAll(h, first.state, bev, more);
            ServeAll(h, s, bev, texts + more) ==
            if first.defined then Served(second.state, first.responses + second.responses, second.defined) else first
    decreases |more|
  {
    var first := ServeAll(h, s, bev, texts);
    if |more| == 0 {
      assert texts + more == texts && first.responses + [] == first.responses;
    } else {
      var init, last := more[..|more| - 1], more[|more| - 1];
      ServeAppend(h, s, bev, texts, init);
      assert (texts + more)[..|texts + more| - 1] == texts + init && (texts + more)[|texts + more| - 1] == last;
    }
  }

  /** The state in which the i-th of some texts is served. */
  function StateAt<S, R>(h: Handlers<S, R>, s: S, bev: Connection, texts: seq<seq<byte>>, i: nat): S
    requires i <= |texts|
  {
    ServeAll(h, s, bev, texts[..i]).state
  }

  /** The i-th text is read in full, and its handler's work is defined in the state it meets. */
  predicate Defined<S, R>(h: Handlers<S, R>, s: S, bev: Connection, texts: seq<seq<byte>>, i: nat)
    requires i < |texts|
  {
    var parsed := h.parse(texts[i]);
    && !(parsed.Value? && Defective(parsed.value))
    && (Understand(parsed, h.tabMapPassword).Got? ==>
          h.ask(StateAt(h, s, bev, texts, i), bev, Understand(parsed, h.tabMapPassword).value).1.Done?)
  }

  lemma DefinedIsAnswered<S, R>(h: Handlers<S, R>, s: S, bev: Connection, texts: seq<seq<byte>>, i: nat)
    requires i < |texts|
    ensures Defined(h, s, bev, texts, i) <==> Serve(h, StateAt(h, s, bev, texts, i), bev, texts[i]).1.Answered?
  {
    UnderstandOutcome(h.parse(texts[i]), h.tabMapPassword);
  }

  /**
   A sequence of request texts is served to its end iff every one of them is readable and its work is defined in the
   state it meets. Then each has got exactly one response, in order, the one its own state and text call for.
   */
  lemma {:induction false} ServedOnce<S, R>(h: Handlers<S, R>, s: S, bev: Connection, texts: seq<seq<byte>>)
    ensures var served := ServeAll(h, s, bev, texts);
            && (served.defined <==> forall i :: 0 <= i < |texts| ==> Defined(h, s, bev, texts, i))
            && (served.defined ==>
                  && |served.responses| == |texts|
                  && forall i :: 0 <= i < |texts| ==>
                       Serve(h, StateAt(h, s, bev, texts, i), bev, texts[i]).1 == Answered(served.responses[i]))
    decreases |texts|
  {
    if |texts| > 0 {
      var n := |texts| - 1;
      var init := texts[..n];
      ServedOnce(h, s, bev, init);
      forall i | 0 <= i < n
        ensures StateAt(h, s, bev, texts, i) == StateAt(h, s, bev, init, i)
        ensures Defined(h, s, bev, texts, i) <==> Defined(h, s, bev, init, i)
      {
        assert texts[..i] == init[..i];
      }
      DefinedIsAnswered(h, s, bev, texts, n);
    }
  }

  /**
   Served to the end, the texts have been worked on one after the other: a refused one has changed nothing, and what one
   has left is what the next one met.
   */
  lemma ServedInTurn<S, R>(h: Handlers<S, R>, s: S, bev: Connection, texts: seq<seq<byte>>, i: nat)
    requires ServeAll(h, s, bev, texts).defined && i < |texts|
    ensures |ServeAll(h, s, bev, texts).responses| == |texts|
    ensures StateAt(h, s, bev, texts, 0) == s && StateAt(h, s, bev, texts, |texts|) == ServeAll(h, s, bev, texts).state
    ensures var here, after := StateAt(h, s, bev, texts, i), StateAt(h, s, bev, texts, i + 1);
            var response := ServeAll(h, s, bev, texts).responses[i];
            match Understand(h.parse(texts[i]), h.tabMapPassword)
            case Unreadable => false
            case Bad => response == BadRequest && after == here
            case Got(ask) =>
              var (next, reply) := h.ask(here, bev, ask);
              reply.Done? && response == Reported(reply.body) && after == next
  {
    assert texts[..|texts|] == texts && texts[..i + 1] == texts[..i] + [texts[i]];
    ServedOnce(h, s, bev, texts);
    assert Defined(h, s, bev, texts, i);
    DefinedIsAnswered(h, s, bev, texts, i);
    assert texts[..i] + texts[i..] == texts;
    ServeAppend(h, s, bev, texts[..i], texts[i..]);
    ServeOneMore(h, s, bev, texts[..i], texts[i]);
  }

  /** Where the handlers' work is always defined, only the texts count: one bad apple is what it takes. */
  lemma ServedByText<S(!new), R>(h: Handlers<S, R>, s: S, bev: Connection, texts: seq<seq<byte>>)
    requires forall s', ask :: h.ask(s', bev, ask).1.Done?
    ensures ServeAll(h, s, bev, texts).defined <==>
            forall i :: 0 <= i < |texts| ==> !(h.parse(texts[i]).Value? && Defective(h.parse(texts[i]).value))
  {
    ServedOnce(h, s, bev, texts);
    forall i | 0 <= i < |texts|
      ensures Defined(h, s, bev, texts, i) <==> !(h.parse(texts[i]).Value? && Defective(h.parse(texts[i]).value))
    {
    }
  }

  // ---------- a whole stream on one connection ----------

  /** The chunks of one connection, each served as far as it completes requests. */
  function ServeChunks<S, R>(h: Handlers<S, R>, s: S, bev: Connection, buffer: seq<byte>, chunks: seq<seq<byte>>)
    : Served<S, R>
    decreases |chunks|
  {
    if |chunks| == 0 then Served(s, [], true)
    else
      var d := Drain(buffer + chunks[0]);
      var served := ServeAll(h, s, bev, Frames(d.pieces));
      if !served.defined then served
      else
        var later := ServeChunks(h, served.state, bev, d.rest, chunks[1..]);
        Served(later.state, served.responses + later.responses, later.defined)
  }

  lemma {:induction false} ChunksAreServed<S, R>(h: Handlers<S, R>, s: S, bev: Connection, buffer: seq<byte>,
                                                chunks: seq<seq<byte>>)
    ensures ServeChunks(h, s, bev, buffer, chunks) == ServeAll(h, s, bev, Frames(Feed(buffer, chunks).pieces))
    decreases |chunks|
  {
    if |chunks| > 0 {
      var d := Drain(buffer + chunks[0]);
      var later := Feed(d.rest, chunks[1..]);
      var served := ServeAll(h, s, bev, Frames(d.pieces));
      FramesAppend(d.pieces, later.pieces);
      ServeAppend(h, s, bev, Frames(d.pieces), Frames(later.pieces));
      ChunksAreServed(h, served.state, bev, d.rest, chunks[1..]);
    }
  }

  /** However a steady stream is cut: the same responses, in the same order, and the same state at the end. */
  lemma CutsDoNotShow<S, R>(h: Handlers<S, R>, s: S, bev: Connection, chunks: seq<seq<byte>>)
    requires Steady(Concat(chunks))
    ensures ServeChunks(h, s, bev, [], chunks) == ServeAll(h, s, bev, Frames(Drain(Concat(chunks)).pieces))
  {
    ChunksAreServed(h, s, bev, [], chunks);
    ChunkIndependence(Concat(chunks));
  }

  // ---------- the witnesses ----------

  lemma LostAlone<S, R>(h: Handlers<S, R>, s: S, bev: Connection, text: seq<byte>)
    requires h.parse(text).Value? && Defective(h.parse(text).value)
    ensures !ServeAll(h, s, bev, [text]).defined
  {
    UnderstandOutcome(h.parse(text), h.tabMapPassword);
    ServeOneMore(h, s, bev, [], text);
    assert [] + [text] == [text];
  }

  /** The text "{}", an object without "req". */
  lemma EmptyObject<S, R>(h: Handlers<S, R>, s: S, bev: Connection)
    requires h.parse([OPEN_BRACE, CLOSE_BRACE]) == Value(Object(map[]))
    ensures Frames(Drain([OPEN_BRACE, CLOSE_BRACE]).pieces) == [[OPEN_BRACE, CLOSE_BRACE]]
    ensures !ServeAll(h, s, bev, [[OPEN_BRACE, CLOSE_BRACE]]).defined
  {
    var text := [OPEN_BRACE, CLOSE_BRACE];
    assert text[1..] == [CLOSE_BRACE];
    assert ObjectEnd(START, text) == 2;
    assert Blanks(text) == 0 && text[0..] == text;
    ExtractOfTail(text, text);
    assert text[..2] == text && text[2..] == [];
    FramesOfDrain(text);
    NoFramesLeft();
    LostAlone(h, s, bev, text);
  }

  /** {"req":"KillTab"}: there is a "req", but not the member its handler reads. */
  lemma KillWithoutTab<S, R>(h: Handlers<S, R>, s: S, bev: Connection, text: seq<byte>)
    requires h.parse(text) == Value(Object(map["req" := String("KillTab")]))
    ensures Defective(h.parse(text).value) && !ServeAll(h, s, bev, [text]).defined
  {
    assert Defective(h.parse(text).value) by {
      assert "tabId" in Required("KillTab");
    }
    LostAlone(h, s, bev, text);
  }

  /** {"req":"NewWebTab","flags":"x"}: the ill-typed member ends the handler before the missing "url" is read. */
  lemma IllTypedFirst()
    ensures Understand(Value(Object(map["req" := String("NewWebTab"), "flags" := String("x")])), "").Bad?
  {
  }

  // ---------- the server's side ----------

  /** How a handler comes back: normally, by an exception, or not at all. */
  datatype Flow = Returned | Thrown | Undefined

  function Interrupted<T>(failed: Lookup<T>): Flow
    requires failed.IsFailure()
  {
    if failed.Bad? then Thrown else Undefined
  }

  datatype Sending<R> = Sending(bev: Connection, response: Response<R>)

  function Sendings<R>(bev: Connection, responses: seq<Response<R>>): seq<Sending<R>> {
    seq(|responses|, i requires 0 <= i < |responses| => Sending(bev, responses[i]))
  }

  lemma SendingsOneMore<R>(bev: Connection, responses: seq<Response<R>>, response: Response<R>)
    ensures Sendings(bev, responses + [response]) == Sendings(bev, responses) + [Sending(bev, response)]
  {
  }

  lemma ServeStep<S, R>(h: Handlers<S, R>, start: S, bev: Connection, texts: seq<seq<byte>>, text: seq<byte>,
                        whole: seq<byte>, buffer: seq<byte>, state: S, responses: seq<Response<R>>)
    requires ServeAll(h, start, bev, texts) == Served(state, responses, true)
    requires Ahead(texts + [text], buffer, whole)
    ensures var (next, outcome) := Serve(h, state, bev, text);
            match outcome
            case Answered(response) =>
              && ServeAll(h, start, bev, texts + [text]) == Served(next, responses + [response], true)
              && Sendings(bev, responses + [response]) == Sendings(bev, responses) + [Sending(bev, response)]
            case Lost => !ServeAll(h, start, bev, Frames(Drain(whole).pieces)).defined
  {
    ServeOneMore(h, start, bev, texts, text);
    ServeAppend(h, start, bev, texts + [text], Frames(Drain(buffer).pieces));
    var outcome := Serve(h, state, bev, text).1;
    if outcome.Answered? {
      SendingsOneMore(bev, responses, outcome.response);
    }
  }

  class RequestServer<S, R> {
    const h: Handlers<S, R>
    const reader: Reader
    var state: S
    var sent: seq<Sending<R>>

    constructor (h: Handlers<S, R>, reader: Reader, state: S)
      ensures this.h == h && this.reader == reader && this.state == state && sent == []
    {
      this.h := h;
      this.reader := reader;
      this.state := state;
      sent := [];
    }

    /** A handler has done what the request asks for: at most one response is sent, none before an exception. */
    twostate predicate Carried(bev: Connection, what: Lookup<Ask>, flow: Flow)
      reads this
    {
      match what
      case Unreadable => flow.Undefined?
      case Bad =>
        && state == old(state)
        && ((flow.Thrown? && sent == old(sent)) || (flow.Returned? && sent == old(sent) + [Sending(bev, BadRequest)]))
      case Got(ask) =>
        var (next, reply) := h.ask(old(state), bev, ask);
        if reply.Broken? then flow.Undefined?
        else flow.Returned? && state == next && sent == old(sent) + [Sending(bev, Reported(reply.body))]
    }

    method SendResponse(bev: Connection, response: Response<R>)
      modifies this`sent
      ensures sent == old(sent) + [Sending(bev, response)]
    {
      sent := sent + [Sending(bev, response)];
    }

    /** The common end of the handlers: the work, the wait for its outcome, and the response. */
    method Perform(bev: Connection, ask: Ask) returns (flow: Flow)
      modifies this`state, this`sent
      ensures Carried(bev, Got(ask), flow)
    {
      var (next, reply) := h.ask(state, bev, ask);
      state := next;
      if reply.Broken? {
        return Undefined;
      }
      SendResponse(bev, Reported(reply.body));
      flow := Returned;
    }

    method HandleNewWebTab(bev: Connection, request: Members) returns (flow: Flow)
      modifies this`state, this`sent
      ensures Carried(bev, NewWebTabAsk(request), flow)
    {
      var iconUrl := TextOr(request, "iconUrl", "");
      if iconUrl.IsFailure() {
        return Interrupted(iconUrl);
      }
      var pref := IntOr(request, "preferredPos", -1);
      if pref.IsFailure() {
        return Interrupted(pref);
      }
      var flags := IntOr(request, "flags", 0);
      if flags.IsFailure() {
        return Interrupted(flags);
      }
      var url := TextAt(request, "url");
      if url.IsFailure() {
        return Interrupted(url);
      }
      flow := Perform(bev, NewWebTab(url.value, iconUrl.value, pref.value, flags.value));
    }

    method HandleNewShortcut(bev: Connection, request: Members) returns (flow: Flow)
      modifies this`state, this`sent
      ensures Carried(bev, NewShortcutAsk(request), flow)
    {
      var iconUrl := TextOr(request, "iconUrl", "");
      if iconUrl.IsFailure() {
        return Interrupted(iconUrl);
      }
      var pref := IntOr(request, "preferredPos", -1);
      if pref.IsFailure() {
        return Interrupted(pref);
      }
      var flags := IntOr(request, "flags", 0);
      if flags.IsFailure() {
        return Interrupted(flags);
      }
      var url := TextAt(request, "url");
      if url.IsFailure() {
        return Interrupted(url);
      }
      flow := Perform(bev, NewShortcut(url.value, iconUrl.value, pref.value, flags.value));
    }

    method HandleNavigateTo(bev: Connection, request: Members) returns (flow: Flow)
      modifies this`state, this`sent
      ensures Carried(bev, NavigateAsk(request), flow)
    {
      var tabId, url := TextAt(request, "tabId"), TextAt(request, "url");
      if tabId.Unreadable? || url.Unreadable? {
        return Undefined;
      }
      if tabId.Bad? || url.Bad? {
        return Thrown;
      }
      flow := Perform(bev, NavigateTo(tabId.value, url.value));
    }

    method HandleIAmAlive(bev: Connection, request: Members) returns (flow: Flow)
      modifies this`state, this`sent
      ensures Carried(bev, AliveAsk(request), flow)
    {
      if "TTL" !in request || !request["TTL"].Integer? {
        SendResponse(bev, BadRequest);
        return Returned;
      }
      var hasTabId := "tabId" in request && request["tabId"].String?;
      var hasShortcutId := "shortcutId" in request && request["shortcutId"].String?;
      if hasTabId == hasShortcutId {
        SendResponse(bev, BadRequest);
        return Returned;
      }
      var ttl := ToInt(request["TTL"].n);
      if hasTabId {
        flow := Perform(bev, TabAlive(request["tabId"].text, ttl));
      } else {
        flow := Perform(bev, ShortcutAlive(request["shortcutId"].text, ttl));
      }
    }

    /** The handlers that read one id, unchecked. */
    method HandleById(bev: Connection, request: Members, name: string) returns (flow: Flow)
      requires name in {"BlinkTab", "ActivateTab", "KillTab", "KillShortcut"}
      modifies this`state, this`sent
      ensures Carried(bev, AskOf(name, request, h.tabMapPassword), flow)
    {
      var id := TextAt(request, if name == "KillShortcut" then "shortcutId" else "tabId");
      if id.IsFailure() {
        return Interrupted(id);
      }
      flow := Perform(bev, if name == "BlinkTab" then BlinkTab(id.value)
                           else if name == "ActivateTab" then ActivateTab(id.value)
                           else if name == "KillTab" then KillTab(id.value)
                           else KillShortcut(id.value));
    }

    /** The two handlers behind the tab map password. */
    method HandleListing(bev: Connection, request: Members, name: string) returns (flow: Flow)
      requires name in {"GetTabMap", "GetShortcuts"}
      modifies this`state, this`sent
      ensures Carried(bev, AskOf(name, request, h.tabMapPassword), flow)
    {
      if !Authorized(request, h.tabMapPassword) {
        SendResponse(bev, BadRequest);
        return Returned;
      }
      flow := Perform(bev, if name == "GetTabMap" then GetTabMap else Other(name, request));
    }

    /** The `switch` of `request`. */
    method Dispatch(bev: Connection, request: Members, name: string) returns (flow: Flow)
      modifies this`state, this`sent
      ensures Carried(bev, AskOf(name, request, h.tabMapPassword), flow)
    {
      if name == "NewWebTab" {
        flow := HandleNewWebTab(bev, request);
      } else if name == "NewShortcut" {
        flow := HandleNewShortcut(bev, request);
      } else if name == "NavigateTo" {
        flow := HandleNavigateTo(bev, request);
      } else if name == "IAmAlive" {
        flow := HandleIAmAlive(bev, request);
      } else if name in {"BlinkTab", "ActivateTab", "KillTab", "KillShortcut"} {
        flow := HandleById(bev, request, name);
      } else if name in {"GetTabMap", "GetShortcuts"} {
        flow := HandleListing(bev, request, name);
      } else if name in CHECKED_REQUESTS {
        flow := Perform(bev, Other(name, request));
      } else {
        SendResponse(bev, BadRequest);
        flow := Returned;
      }
    }

    /** The `try` block of `request`. */
    method Try(bev: Connection, text: seq<byte>) returns (flow: Flow)
      modifies this`state, this`sent
      ensures Carried(bev, Understand(h.parse(text), h.tabMapPassword), flow)
    {
      var parsed := h.parse(text);
      if parsed.Unparsable? || !parsed.value.Object? {
        return Thrown;
      }
      var name := TextAt(parsed.value.members, "req");
      if name.IsFailure() {
        return Interrupted(name);
      }
      flow := Dispatch(bev, parsed.value.members, name.value);
    }

    /** One round of the loop: `try`, and the catch block for whatever was thrown. */
    method HandleText(bev: Connection, text: seq<byte>) returns (defined: bool)
      modifies this`state, this`sent
      ensures var (next, outcome) := Serve(h, old(state), bev, text);
              match outcome
              case Answered(response) => defined && state == next && sent == old(sent) + [Sending(bev, response)]
              case Lost => !defined
    {
      ghost var what := Understand(h.parse(text), h.tabMapPassword);
      var flow := Try(bev, text);
      assert what.Bad? ==> Serve(h, old(state), bev, text).1.Answered?;
      assert what.Unreadable? ==> Serve(h, old(state), bev, text).1.Lost?;
      assert what.Got? ==> (Serve(h, old(state), bev, text).1.Lost? <==> h.ask(old(state), bev, what.value).1.Broken?);
      if flow.Thrown? {
        SendResponse(bev, BadRequest);
      }
      defined := !flow.Undefined?;
    }

    /**
     The loop of `request` under way, `start`, `before` and `buffers` being as the chunk arrived: of all texts in `whole`
     the first `texts` have been served, `taken` have been taken off the buffer, and the others are still there.
     */
    ghost predicate UnderWay(bev: Connection, start: S, before: seq<Sending<R>>, buffers: map<Connection, seq<byte>>,
                             whole: seq<byte>, texts: seq<seq<byte>>, taken: seq<seq<byte>>,
                             responses: seq<Response<R>>)
      reads this, reader
    {
      && ServeAll(h, start, bev, texts) == Served(state, responses, true)
      && sent == before + Sendings(bev, responses)
      && bev in reader.connectionBuffers
      && reader.connectionBuffers == buffers[bev := reader.connectionBuffers[bev]]
      && Ahead(taken, reader.connectionBuffers[bev], whole)
    }

    /** All texts have been served. */
    ghost predicate Over(bev: Connection, start: S, before: seq<Sending<R>>, buffers: map<Connection, seq<byte>>,
                         whole: seq<byte>)
      reads this, reader
    {
      var served := ServeAll(h, start, bev, Frames(Drain(whole).pieces));
      && served.defined && state == served.state
      && sent == before + Sendings(bev, served.responses)
      && reader.connectionBuffers == buffers[bev := Drain(whole).rest]
    }

    /** The test of the loop. */
    method Take(bev: Connection, requestText: seq<byte>, ghost start: S, ghost before: seq<Sending<R>>,
                ghost buffers: map<Connection, seq<byte>>, ghost whole: seq<byte>, ghost texts: seq<seq<byte>>,
                ghost responses: seq<Response<R>>)
      returns (found: bool, requestText': seq<byte>)
      requires UnderWay(bev, start, before, buffers, whole, texts, texts, responses)
      modifies reader
      ensures !found ==> Over(bev, start, before, buffers, whole)
      ensures found ==>
                && UnderWay(bev, start, before, buffers, whole, texts, texts + [requestText'], responses)
                && |reader.connectionBuffers[bev]| < old(|reader.connectionBuffers[bev]|)
    {
      ghost var buffer := reader.connectionBuffers[bev];
      found, requestText' := reader.TakeText(bev, requestText);
      assert reader.connectionBuffers[bev] == Extract(buffer).rest;
      if found {
        assert Ahead(texts + [requestText'], Extract(buffer).rest, whole) by {
          AheadStep(texts, buffer, whole);
        }
      } else {
        AheadStep(texts, buffer, whole);
      }
    }

    /** The body of the loop. */
    method ServeTaken(bev: Connection, text: seq<byte>, ghost start: S, ghost before: seq<Sending<R>>,
                      ghost buffers: map<Connection, seq<byte>>, ghost whole: seq<byte>, ghost texts: seq<seq<byte>>,
                      ghost responses: seq<Response<R>>)
      returns (defined: bool, ghost responses': seq<Response<R>>)
      requires UnderWay(bev, start, before, buffers, whole, texts, texts + [text], responses)
      modifies this`state, this`sent
      ensures !defined ==> !ServeAll(h, start, bev, Frames(Drain(whole).pieces)).defined
      ensures defined ==> UnderWay(bev, start, before, buffers, whole, texts + [text], texts + [text], responses')
    {
      ghost var outcome := Serve(h, state, bev, text).1;
      ServeStep(h, start, bev, texts, text, whole, reader.connectionBuffers[bev], state, responses);
      defined := HandleText(bev, text);
      responses' := if outcome.Answered? then responses + [outcome.response] else responses;
    }

    /** One round of the loop: the test, and the body if a text is there. */
    method Round(bev: Connection, requestText: seq<byte>, ghost start: S, ghost before: seq<Sending<R>>,
                 ghost buffers: map<Connection, seq<byte>>, ghost whole: seq<byte>, ghost texts: seq<seq<byte>>,
                 ghost responses: seq<Response<R>>)
      returns (found: bool, defined: bool, requestText': seq<byte>, ghost texts': seq<seq<byte>>,
               ghost responses': seq<Response<R>>)
      requires UnderWay(bev, start, before, buffers, whole, texts, texts, responses)
      modifies this`state, this`sent, reader
      ensures !found ==> defined && Over(bev, start, before, buffers, whole)
      ensures !defined ==> !ServeAll(h, start, bev, Frames(Drain(whole).pieces)).defined
      ensures found && defined ==>
                && UnderWay(bev, start, before, buffers, whole, texts', texts', responses')
                && |reader.connectionBuffers[bev]| < old(|reader.connectionBuffers[bev]|)
    {
      found, requestText' := Take(bev, requestText, start, before, buffers, whole, texts, responses);
      defined, texts', responses' := true, texts, responses;
      if found {
        defined, responses' := ServeTaken(bev, requestText', start, before, buffers, whole, texts, responses);
        texts' := texts + [requestText'];
      }
    }

    /**
     `request`: a chunk arrives. The request texts it completes are served one after the other, each in the state the
     one before has left, and what is left of the chunk stays in the buffer.
     */
    method OnChunk(bev: Connection, data: seq<byte>) returns (defined: bool)
      modifies this`state, this`sent, reader
      ensures var d := Drain(old(reader.Buffered(bev)) + data);
              var served := ServeAll(h, old(state), bev, Frames(d.pieces));
              && defined == served.defined
              && (defined ==>
                    && state == served.state && sent == old(sent) + Sendings(bev, served.responses)
                    && (forall i :: 0 <= i < |served.responses| ==>
                          sent[|old(sent)| + i] == Sending(bev, served.responses[i]))
                    && reader.connectionBuffers == old(reader.connectionBuffers)[bev := d.rest])
    {
      ghost var start, before, buffers := state, sent, reader.connectionBuffers;
      ghost var whole := reader.Buffered(bev) + data;
      ghost var texts, responses := [], [];
      reader.Append(bev, data);
      AheadAtStart(whole);
      assert before + Sendings(bev, responses) == before;
      var found, requestText := true, [];
      defined := true;
      while found && defined
        invariant !found ==> defined && Over(bev, start, before, buffers, whole)
        invariant !defined ==> !ServeAll(h, start, bev, Frames(Drain(whole).pieces)).defined
        invariant found && defined ==> UnderWay(bev, start, before, buffers, whole, texts, texts, responses)
        decreases found && defined,
                  if bev in reader.connectionBuffers then |reader.connectionBuffers[bev]| else 0
      {
        found, defined, requestText, texts, responses :=
          Round(bev, requestText, start, before, buffers, whole, texts, responses);
      }
    }
  }
}
