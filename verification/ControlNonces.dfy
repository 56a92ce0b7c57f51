/**
 The single-use, expiring nonces behind `Stop`, `Restart` and `CaptureScreenshot` when a pre-shared key is configured.
 HMAC is any function; decoding the password field into a token is left to the caller.
 */
module ControlNonces {
  import opened Environment
  type NonceId = string

  datatype ControlNonce = ControlNonce(nonce: string, expiresAt: int, used: bool)

  type Nonces = map<NonceId, ControlNonce>

  /** What the password field of a request decodes to. */
  datatype Token = Malformed | Token(nonceId: NonceId, timestamp: string, auth: string)

  /** The pre-shared key, the MAC it is used with, and the nonce lifetime in seconds. */
  datatype Config = Config(psk: string, hmac: (string, string) -> string, ttl: int)

  function Deadline(c: Config, now: int): int {
    now + c.ttl * TICKS_PER_SECOND
  }

  function Message(reqName: string, nonceId: NonceId, nonce: string, timestamp: string): string {
    reqName + "\n" + nonceId + "\n" + nonce + "\n" + timestamp
  }

  predicate Live(nonces: Nonces, id: NonceId, now: int) {
    id in nonces && !nonces[id].used && !(nonces[id].expiresAt < now)
  }

  /** The decision of `authorizeControlRequest`. */
  predicate Accepts(c: Config, nonces: Nonces, token: Token, reqName: string, now: int) {
    && token.Token?
    && Live(nonces, token.nonceId, now)
    && var expected := c.hmac(c.psk, Message(reqName, token.nonceId, nonces[token.nonceId].nonce, token.timestamp));
       expected != "" && expected == token.auth
  }

  // ---------- the steps ----------

  datatype Event =
    | Issue(now: int, id: NonceId, nonce: string)
    | Attempt(now: int, token: Token, reqName: string)
    | Prune(now: int)

  predicate Prunable(n: ControlNonce, now: int) {
    n.used || n.expiresAt <= now
  }

  function Next(c: Config, nonces: Nonces, e: Event): Nonces {
    match e
    case Issue(now, id, nonce) => nonces[id := ControlNonce(nonce, Deadline(c, now), false)]
    case Attempt(now, token, reqName) =>
      if token.Malformed? then nonces
      else if !Live(nonces, token.nonceId, now) then nonces - {token.nonceId}
      else if Accepts(c, nonces, token, reqName, now) then
        nonces[token.nonceId := nonces[token.nonceId].(used := true)]
      else nonces
    case Prune(now) => map id | id in nonces && !Prunable(nonces[id], now) :: nonces[id]
  }

  // ---------- the server's side ----------

  /** What the random source gives for a nonce. */
  datatype Drawn = NoRandom | Random(nonce: string)

  /** The answer to `GetRandom`. */
  datatype RandomAnswer = BadRequest | ExecFailed | Granted(id: NonceId, nonce: string, ttl: int)

  class ControlAccess {
    var controlNonces: Nonces
    const config: Config
    const controlPassword: string

    constructor (config: Config, controlPassword: string)
      ensures controlNonces == map[] && this.config == config && this.controlPassword == controlPassword
    {
      this.config := config;
      this.controlPassword := controlPassword;
      controlNonces := map[];
    }

    /** `authorizeControlRequest`; without a key, only the plain password counts. */
    method AuthorizeControlRequest(password: string, token: Token, reqName: string, now: int) returns (ok: bool)
      modifies this
      ensures config.psk == "" ==>
                ok == (controlPassword == "" || password == controlPassword) && controlNonces == old(controlNonces)
      ensures config.psk != "" ==>
                && ok == Accepts(config, old(controlNonces), token, reqName, now)
                && controlNonces == Next(config, old(controlNonces), Attempt(now, token, reqName))
    {
      if config.psk == "" {
        ok := controlPassword == "" || password == controlPassword;
        return;
      }
      if token.Malformed? {
        return false;
      }
      var id := token.nonceId;
      if id !in controlNonces || controlNonces[id].used || controlNonces[id].expiresAt < now {
        controlNonces := controlNonces - {id};
        return false;
      }
      var message := Message(reqName, id, controlNonces[id].nonce, token.timestamp);
      var expectedAuth := config.hmac(config.psk, message);
      if expectedAuth == "" || expectedAuth != token.auth {
        return false;
      }
      controlNonces := controlNonces[id := controlNonces[id].(used := true)];
      ok := true;
    }

    /** `handleGetRandom`; `id` and `drawn` come from the random sources. */
    method HandleGetRandom(id: NonceId, drawn: Drawn, now: int) returns (answer: RandomAnswer)
      modifies this
      ensures answer == if config.psk == "" then BadRequest
                        else if drawn.NoRandom? then ExecFailed
                        else Granted(id, drawn.nonce, config.ttl)
      ensures controlNonces == if answer.Granted? then Next(config, old(controlNonces), Issue(now, id, drawn.nonce))
                               else old(controlNonces)
    {
      if config.psk == "" {
        return BadRequest;
      }
      if drawn.NoRandom? {
        return ExecFailed;
      }
      controlNonces := controlNonces[id := ControlNonce(drawn.nonce, Deadline(config, now), false)];
      answer := Granted(id, drawn.nonce, config.ttl);
    }

    /** The last loop of `pruneExpiredTabs`. */
    method PruneNonces(now: int)
      modifies this
      ensures controlNonces == Next(config, old(controlNonces), Prune(now))
    {
      var todo := controlNonces.Keys;
      while todo != {}
        invariant todo <= controlNonces.Keys <= old(controlNonces).Keys
        invariant forall id :: id in old(controlNonces) ==>
                    (id in controlNonces <==> id in todo || !Prunable(old(controlNonces)[id], now))
        invariant forall id :: id in controlNonces ==> controlNonces[id] == old(controlNonces)[id]
        decreases |todo|
      {
        var id :| id in todo;
        if controlNonces[id].used || controlNonces[id].expiresAt <= now {
          controlNonces := controlNonces - {id};
        }
        todo := todo - {id};
      }
    }
  }

  // ---------- the signed message ----------

  /** What a client signs: the parts as the lines of a text, with a newline between any two. */
  function Lines(parts: seq<string>): string {
    if |parts| == 0 then ""
    else if |parts| == 1 then parts[0]
    else parts[0] + ['\n'] + Lines(parts[1..])
  }

  lemma MessageInLines(reqName: string, id: NonceId, nonce: string, time: string)
    ensures Message(reqName, id, nonce, time) == reqName + ['\n'] + (id + ['\n'] + (nonce + ['\n'] + time))
  {
  }

  /** Server and client sign the same message. */
  lemma MessageIsLines(reqName: string, nonceId: NonceId, nonce: string, timestamp: string)
    ensures Message(reqName, nonceId, nonce, timestamp) == Lines([reqName, nonceId, nonce, timestamp])
  {
    var parts := [reqName, nonceId, nonce, timestamp];
    assert parts[1..] == [nonceId, nonce, timestamp];
    assert [nonceId, nonce, timestamp][1..] == [nonce, timestamp];
    assert [nonce, timestamp][1..] == [timestamp];
    assert Lines([nonce, timestamp]) == nonce + ['\n'] + timestamp;
    assert Lines([nonceId, nonce, timestamp]) == nonceId + ['\n'] + (nonce + ['\n'] + timestamp);
    MessageInLines(reqName, nonceId, nonce, timestamp);
  }

  predicate OneLine(s: string) {
    '\n' !in s
  }

  lemma FirstNewline(line: string, rest: string)
    requires OneLine(line)
    ensures var s := line + ['\n'] + rest;
            && s[|line|] == '\n' && (forall j :: 0 <= j < |line| ==> s[j] != '\n')
            && s[..|line|] == line && s[|line| + 1..] == rest
  {
    var s := line + ['\n'] + rest;
    forall j | 0 <= j < |line| ensures s[j] != '\n' {
      assert line[j] in line;
    }
  }

  /** A line can be told from what is behind it. */
  lemma LineEnds(a: string, rest: string, b: string, rest': string)
    requires OneLine(a) && OneLine(b) && a + ['\n'] + rest == b + ['\n'] + rest'
    ensures a == b && rest == rest'
  {
    FirstNewline(a, rest);
    FirstNewline(b, rest');
    assert |a| == |b|;
  }

  /** The message tells all its parts: a signature for one request name, nonce and time is for no other. */
  lemma MessageIsInjective(reqName: string, id: NonceId, nonce: string, time: string,
                           reqName': string, id': NonceId, nonce': string, time': string)
    requires OneLine(reqName) && OneLine(id) && OneLine(nonce)
    requires OneLine(reqName') && OneLine(id') && OneLine(nonce')
    requires Message(reqName, id, nonce, time) == Message(reqName', id', nonce', time')
    ensures reqName == reqName' && id == id' && nonce == nonce' && time == time'
  {
    MessageInLines(reqName, id, nonce, time);
    MessageInLines(reqName', id', nonce', time');
    LineEnds(reqName, id + ['\n'] + (nonce + ['\n'] + time), reqName', id' + ['\n'] + (nonce' + ['\n'] + time'));
    LineEnds(id, nonce + ['\n'] + time, id', nonce' + ['\n'] + time');
    LineEnds(nonce, time, nonce', time');
  }

  /**
   A token binds what it was made for: if the MAC has no collisions under the key, a token made by the client's recipe
   for one request and time is accepted for no other request, and with no other time.
   */
  lemma TokenBinds(c: Config, nonces: Nonces, id: NonceId, reqName: string, time: string, reqName': string,
                   time': string, now: int)
    requires forall m, m' :: c.hmac(c.psk, m) == c.hmac(c.psk, m') ==> m == m'
    requires id in nonces && OneLine(reqName) && OneLine(reqName') && OneLine(id) && OneLine(nonces[id].nonce)
    requires Accepts(c, nonces, Token(id, time', c.hmac(c.psk, Lines([reqName, id, nonces[id].nonce, time]))), reqName',
                     now)
    ensures reqName == reqName' && time == time'
  {
    var nonce := nonces[id].nonce;
    MessageIsLines(reqName, id, nonce, time);
    MessageIsInjective(reqName, id, nonce, time, reqName', id, nonce, time');
  }

  // ---------- what an attempt and a prune leave ----------

  /** An attempt touches its own nonce only: gone if it was not live, used up if let through, else as it was. */
  lemma AttemptEffect(c: Config, nonces: Nonces, token: Token, reqName: string, now: int)
    ensures var after := Next(c, nonces, Attempt(now, token, reqName));
            && (token.Malformed? ==> after == nonces)
            && (token.Token? ==>
                  && (forall id :: id != token.nonceId ==>
                        (id in after <==> id in nonces) && (id in nonces ==> after[id] == nonces[id]))
                  && (token.nonceId in after <==> Live(nonces, token.nonceId, now))
                  && (token.nonceId in after ==>
                        after[token.nonceId] ==
                        nonces[token.nonceId].(used := Accepts(c, nonces, token, reqName, now))))
  {
  }

  /** What is live: in the table, not used, and its time not passed. */
  lemma LiveMeaning(nonces: Nonces, id: NonceId, now: int)
    ensures Live(nonces, id, now) <==> id in nonces && !nonces[id].used && now <= nonces[id].expiresAt
  {
  }

  /** A prune keeps exactly the unused nonces whose deadline is still to come, as they are. */
  lemma PruneEffect(c: Config, nonces: Nonces, now: int)
    ensures var after := Next(c, nonces, Prune(now));
            forall id ::
              && (id in after <==> id in nonces && !nonces[id].used && now < nonces[id].expiresAt)
              && (id in after ==> after[id] == nonces[id])
  {
  }

  // ---------- runs ----------

  /** The table after a run that starts with no nonces. */
  function After(c: Config, events: seq<Event>): Nonces {
    if |events| == 0 then map[] else Next(c, After(c, events[..|events| - 1]), events[|events| - 1])
  }

  /** Event i of the run is a control request that was let through on nonce `id`. */
  predicate Authorizes(c: Config, events: seq<Event>, i: nat, id: NonceId) {
    && i < |events| && events[i].Attempt?
    && Accepts(c, After(c, events[..i]), events[i].token, events[i].reqName, events[i].now)
    && events[i].token.nonceId == id
  }

  /** No nonce id is ever drawn twice. */
  ghost predicate FreshIds(events: seq<Event>) {
    forall i, j :: 0 <= i < j < |events| && events[i].Issue? && events[j].Issue? ==> events[i].id != events[j].id
  }

  /** The issue event behind an entry of the table. */
  ghost predicate IssuedAt(c: Config, events: seq<Event>, k: nat, id: NonceId, n: ControlNonce) {
    && k < |events| && events[k].Issue? && events[k].id == id
    && n.nonce == events[k].nonce && n.expiresAt == Deadline(c, events[k].now)
  }

  lemma {:induction false} EveryEntryWasIssued(c: Config, events: seq<Event>, id: NonceId) returns (k: nat)
    requires id in After(c, events)
    ensures IssuedAt(c, events, k, id, After(c, events)[id])
    decreases |events|
  {
    var n := |events| - 1;
    var init := events[..n];
    if events[n].Issue? && events[n].id == id {
      k := n;
    } else {
      k := EveryEntryWasIssued(c, init, id);
      assert events[k] == init[k];
    }
  }

  /** Once a nonce has let a request through, it is marked used for as long as it is in the table. */
  lemma {:induction false} StaysUsed(c: Config, events: seq<Event>, i: nat, id: NonceId)
    requires FreshIds(events) && Authorizes(c, events, i, id)
    ensures id in After(c, events) ==> After(c, events)[id].used
    decreases |events|
  {
    var n := |events| - 1;
    var init := events[..n];
    assert init[..i] == events[..i];
    var k := EveryEntryWasIssued(c, events[..i], id);
    assert events[k] == events[..i][k];
    MessageIsLines(events[i].reqName, id, events[k].nonce, events[i].token.timestamp);
    if i < n {
      StaysUsed(c, init, i, id);
    }
  }

  lemma AtMostOnce(c: Config, events: seq<Event>, i: nat, j: nat, id: NonceId)
    requires FreshIds(events) && i < j < |events| && Authorizes(c, events, i, id)
    ensures !Authorizes(c, events, j, id)
  {
    assert events[..j][..i] == events[..i];
    StaysUsed(c, events[..j], i, id);
  }

  /**
   Safety over all runs, in whatever order requests, issues and prunes come: a nonce lets at most one request through;
   that request comes no later than the issue time plus the lifetime; and it carries the MAC of its own request name
   under the key and the nonce that was issued.
   */
  lemma NonceSafety(c: Config, events: seq<Event>, i: nat, id: NonceId)
    requires FreshIds(events) && Authorizes(c, events, i, id)
    ensures forall j :: 0 <= j < |events| && j != i ==> !Authorizes(c, events, j, id)
    ensures exists k :: 0 <= k < i && events[k].Issue? && events[k].id == id
                        && events[i].now <= events[k].now + c.ttl * 1_000_000_000
                        && events[i].token.auth == c.hmac(c.psk,
                             Lines([events[i].reqName, id, events[k].nonce, events[i].token.timestamp]))
  {
    var k := EveryEntryWasIssued(c, events[..i], id);
    assert events[k] == events[..i][k];
    MessageIsLines(events[i].reqName, id, events[k].nonce, events[i].token.timestamp);
    forall j | 0 <= j < |events| && j != i ensures !Authorizes(c, events, j, id) {
      if j > i {
        AtMostOnce(c, events, i, j, id);
      } else if Authorizes(c, events, j, id) {
        AtMostOnce(c, events, j, i, id);
      }
    }
  }

  // ---------- completeness ----------

  /** An attempt that fails neither consumes nor removes a live nonce. */
  lemma FailedAttemptKeepsLive(c: Config, nonces: Nonces, token: Token, reqName: string, now: int, id: NonceId)
    requires !Accepts(c, nonces, token, reqName, now) && Live(nonces, id, now)
    ensures var after := Next(c, nonces, Attempt(now, token, reqName)); id in after && after[id] == nonces[id]
  {
  }

  ghost predicate ClockRuns(events: seq<Event>) {
    forall i, j :: 0 <= i < j < |events| ==> events[i].now <= events[j].now
  }

  /**
   Two tables that differ by a prune of `pre` at time t and by what the same events have done to both since: the pruned
   nonces are missing in `b`, and whatever `a` still has of them is used or expired by t; all others are the same.
   */
  ghost predicate DifferByPrune(pre: Nonces, a: Nonces, b: Nonces, t: int) {
    forall id ::
      if id in pre && Prunable(pre[id], t) then
        id !in b && (id in a ==> a[id].expiresAt == pre[id].expiresAt && (a[id].used || a[id].expiresAt <= t))
      else
        (id in a <==> id in b) && (id in a ==> a[id] == b[id])
  }

  lemma StepKeepsDifference(c: Config, pre: Nonces, a: Nonces, b: Nonces, t: int, e: Event)
    requires DifferByPrune(pre, a, b, t) && (e.Issue? ==> e.id !in pre)
    ensures DifferByPrune(pre, Next(c, a, e), Next(c, b, e), t)
  {
  }

  lemma {:induction false} RunKeepsDifference(c: Config, before: seq<Event>, t: int, after: seq<Event>)
    requires forall i :: 0 <= i < |after| && after[i].Issue? ==> after[i].id !in After(c, before)
    ensures DifferByPrune(After(c, before), After(c, before + after), After(c, before + [Prune(t)] + after), t)
    decreases |after|
  {
    var pruned := before + [Prune(t)];
    if |after| == 0 {
      assert before + after == before && pruned + after == pruned && pruned[..|before|] == before;
    } else {
      var init, last := after[..|after| - 1], after[|after| - 1];
      RunKeepsDifference(c, before, t, init);
      assert (before + after)[..|before + after| - 1] == before + init;
      assert (pruned + after)[..|pruned + after| - 1] == pruned + init;
      StepKeepsDifference(c, After(c, before), After(c, before + init), After(c, pruned + init), t, last);
    }
  }

  lemma FreshBehind(c: Config, before: seq<Event>, t: int, after: seq<Event>, i: nat)
    requires FreshIds(before + [Prune(t)] + after) && i < |after| && after[i].Issue?
    ensures after[i].id !in After(c, before)
  {
    var events := before + [Prune(t)] + after;
    assert events[|before| + 1 + i] == after[i];
    forall id | id in After(c, before) ensures id != after[i].id {
      var k := EveryEntryWasIssued(c, before, id);
      assert events[k] == before[k];
    }
  }

  lemma DecisionsDiffer(c: Config, pre: Nonces, a: Nonces, b: Nonces, t: int, token: Token, reqName: string, now: int)
    requires DifferByPrune(pre, a, b, t) && t <= now && token.Token?
    ensures (Accepts(c, a, token, reqName, now) != Accepts(c, b, token, reqName, now)) <==>
              && Accepts(c, a, token, reqName, now) && now == t
              && token.nonceId in pre && pre[token.nonceId].expiresAt == t
  {
    assert token.nonceId in pre && Prunable(pre[token.nonceId], t) ==> token.nonceId !in b;
  }

  /**
   A prune at time t, anywhere in a run, changes a decision at or after t in exactly one case: the request comes at that
   very time t, on a nonce that was there at the prune and expires at t, and would have been accepted without the prune
   (the request compares with <, the prune with <=). What happens between the prune and the request makes no difference.
   */
  lemma PruneChangesDecision(c: Config, before: seq<Event>, t: int, after: seq<Event>, token: Token, reqName: string,
                             now: int)
    requires FreshIds(before + [Prune(t)] + after)
    requires ClockRuns(before + [Prune(t)] + after + [Attempt(now, token, reqName)])
    ensures var without, with := After(c, before + after), After(c, before + [Prune(t)] + after);
            (Accepts(c, without, token, reqName, now) != Accepts(c, with, token, reqName, now)) <==>
              && Accepts(c, without, token, reqName, now) && now == t
              && token.nonceId in After(c, before) && After(c, before)[token.nonceId].expiresAt == t
  {
    var events := before + [Prune(t)] + after + [Attempt(now, token, reqName)];
    assert events[|before|].now == t && events[|events| - 1].now == now;
    forall i | 0 <= i < |after| && after[i].Issue? ensures after[i].id !in After(c, before) {
      FreshBehind(c, before, t, after, i);
    }
    RunKeepsDifference(c, before, t, after);
    if token.Token? {
      DecisionsDiffer(c, After(c, before), After(c, before + after), After(c, before + [Prune(t)] + after), t, token,
                      reqName, now);
    }
  }

  /** In particular no decision later than the prune is changed. */
  lemma LaterDecisionsStand(c: Config, before: seq<Event>, t: int, after: seq<Event>, token: Token, reqName: string,
                            now: int)
    requires FreshIds(before + [Prune(t)] + after)
    requires ClockRuns(before + [Prune(t)] + after + [Attempt(now, token, reqName)])
    requires t < now
    ensures Accepts(c, After(c, before + after), token, reqName, now)
         == Accepts(c, After(c, before + [Prune(t)] + after), token, reqName, now)
  {
    PruneChangesDecision(c, before, t, after, token, reqName, now);
  }

  /**
   The run in which a prune at the deadline takes the nonce from an honest client: without the prune the same request,
   at the same time, is let through.
   */
  lemma PruneAtDeadline()
    ensures var c := Config("key", (key, message) => "mac", 5);
            var issue, prune := Issue(0, "n", "nonce"), Prune(Deadline(c, 0));
            var attempt := Attempt(Deadline(c, 0), Token("n", "5", "mac"), "Stop");
            && Authorizes(c, [issue, attempt], 1, "n")
            && !Authorizes(c, [issue, prune, attempt], 2, "n")
  {
    var c := Config("key", (key, message) => "mac", 5);
    var issue, prune := Issue(0, "n", "nonce"), Prune(Deadline(c, 0));
    var attempt := Attempt(Deadline(c, 0), Token("n", "5", "mac"), "Stop");
    assert [issue, attempt][..1] == [issue] && [issue][..0] == [];
    assert After(c, [issue]) == map["n" := ControlNonce("nonce", Deadline(c, 0), false)];
    assert [issue, prune, attempt][..2] == [issue, prune] && [issue, prune][..1] == [issue];
    assert After(c, [issue, prune]) == map[];
  }

  /** Until it expires or lets a request through, an issued nonce stays in the table, live. */
  lemma {:induction false} IssuedStaysLive(c: Config, events: seq<Event>, k: nat, deadline: int)
    requires FreshIds(events) && ClockRuns(events) && k < |events| && events[k].Issue?
    requires deadline == Deadline(c, events[k].now) && events[|events| - 1].now < deadline
    requires forall i :: 0 <= i < |events| ==> !Authorizes(c, events, i, events[k].id)
    ensures events[k].id in After(c, events)
    ensures After(c, events)[events[k].id] == ControlNonce(events[k].nonce, deadline, false)
    decreases |events|
  {
    var n := |events| - 1;
    var init, id := events[..n], events[k].id;
    if k < n {
      forall i | 0 <= i < n ensures !Authorizes(c, init, i, id) {
        assert init[..i] == events[..i];
        assert !Authorizes(c, events, i, id);
      }
      IssuedStaysLive(c, init, k, deadline);
      assert !Authorizes(c, events, n, id);
    }
  }

  /** An honest token, presented before its nonce expires, is accepted unless the nonce was already used up. */
  lemma HonestTokenAccepted(c: Config, events: seq<Event>, k: nat, reqName: string, timestamp: string, now: int)
    requires FreshIds(events) && ClockRuns(events) && k < |events| && events[k].Issue?
    requires events[|events| - 1].now <= now < events[k].now + c.ttl * 1_000_000_000
    requires forall i :: 0 <= i < |events| ==> !Authorizes(c, events, i, events[k].id)
    requires c.hmac(c.psk, Lines([reqName, events[k].id, events[k].nonce, timestamp])) != ""
    ensures var auth := c.hmac(c.psk, Lines([reqName, events[k].id, events[k].nonce, timestamp]));
            Accepts(c, After(c, events), Token(events[k].id, timestamp, auth), reqName, now)
  {
    IssuedStaysLive(c, events, k, Deadline(c, events[k].now));
    MessageIsLines(reqName, events[k].id, events[k].nonce, timestamp);
  }
}
