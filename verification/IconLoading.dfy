/**
 The icon loader: a cache in front of asynchronous fetches, with requests for the same URL sharing one fetch.
 */
module IconLoading {
  datatype Icon = NoIcon | Image(data: seq<int>)

  /** A URL is invalid or empty, or it has a key. */
  datatype Url = Invalid | Valid(key: string)

  /** A callback is known by a number. */
  type Callback = nat

  datatype Call = Call(url: Url, callback: Callback, icon: Icon)

  /** `cache` and `pending`, and what the outside has seen: fetches started and finished, callbacks called. */
  datatype Loader = Loader(
    cache: map<string, Icon>,
    pending: map<string, seq<Callback>>,
    started: multiset<string>,
    finished: multiset<string>,
    fired: seq<Call>)

  datatype Event = Load(url: Url, callback: Callback) | Finish(key: string, icon: Icon)

  const EMPTY := Loader(map[], map[], multiset{}, multiset{}, [])

  predicate InFlight(s: Loader, key: string) {
    s.started[key] > s.finished[key]
  }

  function Calls(url: Url, callbacks: seq<Callback>, icon: Icon): seq<Call> {
    seq(|callbacks|, i requires 0 <= i < |callbacks| => Call(url, callbacks[i], icon))
  }

  function Waiting(s: Loader, key: string): seq<Callback> {
    if key in s.pending then s.pending[key] else []
  }

  function Next(s: Loader, e: Event): Loader {
    match e
    case Load(Invalid, callback) => s.(fired := s.fired + [Call(Invalid, callback, NoIcon)])
    case Load(Valid(key), callback) =>
      if key in s.cache then
        s.(fired := s.fired + [Call(Valid(key), callback, s.cache[key])])
      else
        var callbacks := Waiting(s, key) + [callback];
        s.(pending := s.pending[key := callbacks],
           started := if |callbacks| > 1 then s.started else s.started + multiset{key})
    case Finish(key, icon) =>
      s.(cache := s.cache[key := icon],
         pending := s.pending - {key},
         finished := s.finished + multiset{key},
         fired := s.fired + Calls(Valid(key), Waiting(s, key), icon))
  }

  // ---------- the loader's side ----------

  class IconLoader {
    var cache: map<string, Icon>
    var pending: map<string, seq<Callback>>
    var started: multiset<string>
    var finished: multiset<string>
    var fired: seq<Call>

    function State(): Loader
      reads this
    {
      Loader(cache, pending, started, finished, fired)
    }

    constructor ()
      ensures State() == EMPTY
    {
      cache, pending, started, finished, fired := map[], map[], multiset{}, multiset{}, [];
    }

    method LoadIcon(url: Url, onLoaded: Callback)
      modifies this
      ensures State() == Next(old(State()), Load(url, onLoaded))
    {
      if url.Invalid? {
        fired := fired + [Call(url, onLoaded, NoIcon)];
        return;
      }
      var key := url.key;
      if key in cache {
        fired := fired + [Call(url, onLoaded, cache[key])];
        return;
      }
      var callbacks := (if key in pending then pending[key] else []) + [onLoaded];
      pending := pending[key := callbacks];
      if |callbacks| > 1 {
        return;
      }
      started := started + multiset{key};
    }

    /** The loop over the waiting callbacks. */
    method FireAll(url: Url, callbacks: seq<Callback>, icon: Icon)
      modifies this`fired
      ensures fired == old(fired) + Calls(url, callbacks, icon)
    {
      for i := 0 to |callbacks|
        invariant fired == old(fired) + Calls(url, callbacks[..i], icon)
      {
        assert Calls(url, callbacks[..i + 1], icon) == Calls(url, callbacks[..i], icon) + [Call(url, callbacks[i], icon)];
        fired := fired + [Call(url, callbacks[i], icon)];
      }
      assert callbacks[..|callbacks|] == callbacks;
    }

    /** The completion handler of a fetch. */
    method OnFinished(key: string, icon: Icon)
      modifies this
      ensures State() == Next(old(State()), Finish(key, icon))
    {
      finished := finished + multiset{key};
      cache := cache[key := icon];
      if key in pending {
        FireAll(Valid(key), pending[key], icon);
        pending := pending - {key};
      }
    }
  }

  // ---------- runs ----------

  function After(events: seq<Event>): Loader {
    if |events| == 0 then EMPTY else Next(After(events[..|events| - 1]), events[|events| - 1])
  }

  /** A fetch finishes only while it is under way. */
  predicate Legal(events: seq<Event>) {
    |events| == 0 ||
    (var init, last := events[..|events| - 1], events[|events| - 1];
     Legal(init) && (last.Finish? ==> InFlight(After(init), last.key)))
  }

  /** The callbacks handed in for a URL, in order. */
  function Requested(events: seq<Event>, url: Url): seq<Callback> {
    if |events| == 0 then []
    else
      var last := events[|events| - 1];
      Requested(events[..|events| - 1], url) + (if last.Load? && last.url == url then [last.callback] else [])
  }

  /** The callbacks called for a URL, in order. */
  function Fired(calls: seq<Call>, url: Url): seq<Callback> {
    if |calls| == 0 then []
    else
      var last := calls[|calls| - 1];
      Fired(calls[..|calls| - 1], url) + (if last.url == url then [last.callback] else [])
  }

  lemma {:induction false} FiredAppend(calls: seq<Call>, more: seq<Call>, url: Url)
    ensures Fired(calls + more, url) == Fired(calls, url) + Fired(more, url)
    decreases |more|
  {
    if |more| == 0 {
      assert calls + more == calls;
    } else {
      var n := |more| - 1;
      FiredAppend(calls, more[..n], url);
      assert (calls + more)[..|calls + more| - 1] == calls + more[..n];
    }
  }

  lemma {:induction false} FiredCalls(target: Url, callbacks: seq<Callback>, icon: Icon, url: Url)
    ensures Fired(Calls(target, callbacks, icon), url) == if url == target then callbacks else []
    decreases |callbacks|
  {
    if |callbacks| > 0 {
      var n := |callbacks| - 1;
      FiredCalls(target, callbacks[..n], icon, url);
      assert Calls(target, callbacks, icon)[..n] == Calls(target, callbacks[..n], icon);
    }
  }

  /** Where a key is: never asked for, being fetched for a nonempty list of callbacks, or in the cache. */
  ghost predicate KeyInv(s: Loader, key: string) {
    && s.finished[key] <= s.started[key] <= 1
    && (InFlight(s, key) <==> key in s.pending)
    && (key in s.pending ==> |s.pending[key]| > 0)
    && (s.finished[key] == 1 <==> key in s.cache)
  }

  lemma {:induction false} RunKeepsKeys(events: seq<Event>, key: string)
    requires Legal(events)
    ensures KeyInv(After(events), key)
    decreases |events|
  {
    if |events| > 0 {
      var init := events[..|events| - 1];
      RunKeepsKeys(init, key);
      var e := events[|events| - 1];
      if e.Finish? {
        RunKeepsKeys(init, e.key);
      }
    }
  }

  /** All calls for a key carry the icon that is in the cache. */
  lemma {:induction false} RunCallsWithCached(events: seq<Event>, i: nat)
    requires Legal(events) && i < |After(events).fired| && After(events).fired[i].url.Valid?
    ensures var call := After(events).fired[i];
            call.url.key in After(events).cache && call.icon == After(events).cache[call.url.key]
    decreases |events|
  {
    var init, e := events[..|events| - 1], events[|events| - 1];
    if i < |After(init).fired| {
      RunCallsWithCached(init, i);
      if e.Finish? {
        RunKeepsKeys(init, e.key);
      }
    }
  }

  /** What is cached for a key is what its fetch has brought. */
  lemma {:induction false} CachedWasFetched(events: seq<Event>, key: string) returns (i: nat)
    requires key in After(events).cache
    ensures i < |events| && events[i] == Finish(key, After(events).cache[key])
    decreases |events|
  {
    var n := |events| - 1;
    if events[n].Finish? && events[n].key == key {
      i := n;
    } else {
      i := CachedWasFetched(events[..n], key);
    }
  }

  lemma NewCalls(s: Loader, e: Event)
    ensures |s.fired| <= |Next(s, e).fired| && Next(s, e).fired[..|s.fired|] == s.fired
    ensures forall i :: |s.fired| <= i < |Next(s, e).fired| && Next(s, e).fired[i].url.Invalid? ==>
              Next(s, e).fired[i].icon == NoIcon
  {
  }

  /** An invalid URL calls back at once, without an icon. */
  lemma {:induction false} InvalidHasNoIcon(events: seq<Event>, i: nat)
    requires i < |After(events).fired| && After(events).fired[i].url.Invalid?
    ensures After(events).fired[i].icon == NoIcon
    decreases |events|
  {
    var init := events[..|events| - 1];
    NewCalls(After(init), events[|events| - 1]);
    if i < |After(init).fired| {
      InvalidHasNoIcon(init, i);
    }
  }

  /** Every callback gets the icon its key's fetch has brought, or none for an invalid URL. */
  lemma CalledWithFetched(events: seq<Event>, i: nat)
    requires Legal(events) && i < |After(events).fired|
    ensures var call := After(events).fired[i];
            match call.url
            case Invalid => call.icon == NoIcon
            case Valid(key) => exists j :: 0 <= j < |events| && events[j] == Finish(key, call.icon)
  {
    var call := After(events).fired[i];
    if call.url.Invalid? {
      InvalidHasNoIcon(events, i);
    } else {
      RunCallsWithCached(events, i);
      var j := CachedWasFetched(events, call.url.key);
      assert events[j] == Finish(call.url.key, call.icon);
    }
  }

  lemma FiredOne(calls: seq<Call>, call: Call, url: Url)
    ensures Fired(calls + [call], url) == Fired(calls, url) + (if call.url == url then [call.callback] else [])
  {
    assert (calls + [call])[..|calls + [call]| - 1] == calls;
  }

  lemma ConserveInvalid(s: Loader, e: Event)
    ensures Fired(Next(s, e).fired, Invalid) ==
            Fired(s.fired, Invalid) + (if e.Load? && e.url.Invalid? then [e.callback] else [])
  {
    match e
    case Load(url, callback) =>
      if url.Invalid? {
        FiredOne(s.fired, Call(url, callback, NoIcon), Invalid);
      } else if url.key in s.cache {
        FiredOne(s.fired, Call(url, callback, s.cache[url.key]), Invalid);
      }
    case Finish(key, icon) =>
      FiredAppend(s.fired, Calls(Valid(key), Waiting(s, key), icon), Invalid);
      FiredCalls(Valid(key), Waiting(s, key), icon, Invalid);
  }

  lemma LoadConserves(s: Loader, e: Event, key: string)
    requires KeyInv(s, key) && e.Load?
    ensures Fired(Next(s, e).fired, Valid(key)) + Waiting(Next(s, e), key) ==
            (Fired(s.fired, Valid(key)) + Waiting(s, key))
            + (if e.url == Valid(key) then [e.callback] else [])
  {
    if e.url.Invalid? {
      FiredOne(s.fired, Call(e.url, e.callback, NoIcon), Valid(key));
    } else if e.url.key in s.cache {
      FiredOne(s.fired, Call(e.url, e.callback, s.cache[e.url.key]), Valid(key));
    }
  }

  lemma ConserveKey(s: Loader, e: Event, key: string)
    requires KeyInv(s, key)
    ensures Fired(Next(s, e).fired, Valid(key)) + Waiting(Next(s, e), key) ==
            (Fired(s.fired, Valid(key)) + Waiting(s, key))
            + (if e.Load? && e.url == Valid(key) then [e.callback] else [])
  {
    if e.Load? {
      LoadConserves(s, e, key);
    } else {
      var k, waiting := e.key, Waiting(s, e.key);
      FiredAppend(s.fired, Calls(Valid(k), waiting, e.icon), Valid(key));
      FiredCalls(Valid(k), waiting, e.icon, Valid(key));
      if k == key {
        assert Waiting(Next(s, e), key) == [];
      } else {
        assert Waiting(Next(s, e), key) == Waiting(s, key);
      }
    }
  }

  /** Nothing is lost, doubled or reordered: the callbacks handed in are those called and then those waiting. */
  lemma {:induction false} RunConserves(events: seq<Event>, url: Url)
    requires Legal(events)
    ensures Requested(events, url) ==
            Fired(After(events).fired, url) + (if url.Valid? then Waiting(After(events), url.key) else [])
    decreases |events|
  {
    if |events| > 0 {
      var init, e := events[..|events| - 1], events[|events| - 1];
      RunConserves(init, url);
      if url.Valid? {
        RunKeepsKeys(init, url.key);
        ConserveKey(After(init), e, url.key);
      } else {
        ConserveInvalid(After(init), e);
      }
    }
  }

  /**
   Over all runs of loads and completions: for each key at most one fetch is ever started; one is under way iff
   callbacks wait for the key; once none is under way, every callback has been called exactly once, in order; and all
   of them with the same icon.
   */
  lemma IconGuarantee(events: seq<Event>, key: string)
    requires Legal(events)
    ensures After(events).started[key] <= 1
    ensures InFlight(After(events), key) <==> key in After(events).pending && |After(events).pending[key]| > 0
    ensures !InFlight(After(events), key) ==> Fired(After(events).fired, Valid(key)) == Requested(events, Valid(key))
    ensures forall i, j :: 0 <= i < |After(events).fired| && 0 <= j < |After(events).fired| &&
                           After(events).fired[i].url == After(events).fired[j].url == Valid(key)
              ==> After(events).fired[i].icon == After(events).fired[j].icon
  {
    RunKeepsKeys(events, key);
    RunConserves(events, Valid(key));
    var fired := After(events).fired;
    forall i, j | 0 <= i < |fired| && 0 <= j < |fired| && fired[i].url == fired[j].url == Valid(key)
      ensures fired[i].icon == fired[j].icon
    {
      RunCallsWithCached(events, i);
      RunCallsWithCached(events, j);
    }
  }
}
