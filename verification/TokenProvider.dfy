/**
 The access-token providers of the client library: a cached token, and one exchange with the token endpoint shared by
 all callers that find no usable token. Calls, answers of the endpoint and promise callbacks come in any order, and the
 clock may return anything.
 */
module TokenProvider {
  import opened Options

  /** A token and the time at which it expires, in milliseconds. */
  datatype Cached = Cached(token: string, expiresAtMs: real)

  datatype Result = Obtained(cached: Cached) | Failed

  /** An exchange: under way, settled, or settled with its `finally` callback run. */
  datatype Exchange = Running | Settled(result: Result) | Cleared(result: Result)

  /** What a call of `getToken` has come to. A clock that fails rejects the call. */
  datatype Caller =
    | Rejected
    | FromCache(now: real, cached: Cached)
    | Waiting(exchange: nat)
    | Delivered(exchange: nat, result: Result)

  /** A value out of a JSON response; a number too large for the language reads as infinite. */
  datatype Json = Missing | Text(text: string) | Number(value: real) | Infinite | Other

  datatype Payload = NotAnObject | Fields(accessToken: Json, tokenType: Json, expiresIn: Json)

  /** What became of the request. `NotSent`: the assertion could not be made, or the fetch failed. */
  datatype Response = NotSent | Refused | NotJson | Answer(payload: Payload)

  datatype Parsed = Parsed(accessToken: string, expiresInSeconds: int)

  const MAX_TOKEN_LENGTH := 1024 * 1024
  const MAX_SAFE_INTEGER := 9007199254740991

  predicate IsBearer(s: string) {
    && |s| == 6
    && s[0] in "bB" && s[1] in "eE" && s[2] in "aA" && s[3] in "rR" && s[4] in "eE" && s[5] in "rR"
  }

  predicate IsLifetime(v: Json) {
    v.Number? && v.value == v.value.Floor as real && 0 < v.value.Floor <= MAX_SAFE_INTEGER
  }

  /** The token in a response; only a non-empty bearer token with a positive whole lifetime is accepted. */
  function ParseTokenResponse(p: Payload): (r: Option<Parsed>)
    ensures r.Some? ==> r.value.accessToken != "" && r.value.expiresInSeconds > 0
  {
    if p.NotAnObject? then None
    else if !p.accessToken.Text? || !(0 < |p.accessToken.text| <= MAX_TOKEN_LENGTH) then None
    else if p.tokenType != Missing && !(p.tokenType.Text? && IsBearer(p.tokenType.text)) then None
    else if !IsLifetime(p.expiresIn) then None
    else Some(Parsed(p.accessToken.text, p.expiresIn.value.Floor))
  }

  datatype State = State(cached: Option<Cached>, refresh: Option<nat>, exchanges: seq<Exchange>, callers: seq<Caller>)

  const INIT := State(None, None, [], [])

  /** A clock reading: `None` when the clock throws, or returns a negative or non-finite value. */
  type Reading = r: Option<real> | r.Some? ==> r.value >= 0.0 witness None

  datatype Action =
    | Call(now: Reading)
    | Settle(exchange: nat, response: Response, now: Reading)
    | Finally(exchange: nat)
    | Deliver(caller: nat)

  predicate Enabled(s: State, a: Action) {
    match a
    case Call(_) => true
    case Settle(k, _, _) => k < |s.exchanges| && s.exchanges[k].Running?
    case Finally(k) => k < |s.exchanges| && s.exchanges[k].Settled?
    case Deliver(c) =>
      c < |s.callers| && s.callers[c].Waiting? && s.callers[c].exchange < |s.exchanges|
      && s.exchanges[s.callers[c].exchange].Cleared?
  }

  predicate Usable(skewMs: nat, cached: Option<Cached>, now: real) {
    cached.Some? && now < cached.value.expiresAtMs - skewMs as real
  }

  /** How an exchange ends: a token counts only when the clock can be read once more. */
  function ResultOf(response: Response, now: Reading): Result {
    if !response.Answer? then Failed
    else
      var parsed := ParseTokenResponse(response.payload);
      if parsed.None? || now.None? then Failed
      else Obtained(Cached(parsed.value.accessToken, now.value + (parsed.value.expiresInSeconds * 1000) as real))
  }

  function Do(skewMs: nat, s: State, a: Action): State
    requires Enabled(s, a)
  {
    match a
    case Call(None) => s.(callers := s.callers + [Rejected])
    case Call(Some(now)) =>
      if Usable(skewMs, s.cached, now) then s.(callers := s.callers + [FromCache(now, s.cached.value)])
      else if s.refresh.Some? then s.(callers := s.callers + [Waiting(s.refresh.value)])
      else s.(refresh := Some(|s.exchanges|), exchanges := s.exchanges + [Running],
              callers := s.callers + [Waiting(|s.exchanges|)])
    case Settle(k, response, now) =>
      var result := ResultOf(response, now);
      s.(cached := if result.Obtained? then Some(result.cached) else s.cached,
         exchanges := s.exchanges[k := Settled(result)])
    case Finally(k) => s.(refresh := None, exchanges := s.exchanges[k := Cleared(s.exchanges[k].result)])
    case Deliver(c) =>
      var k := s.callers[c].exchange;
      s.(callers := s.callers[c := Delivered(k, s.exchanges[k].result)])
  }

  /** The state after these actions, when each is possible at its turn. */
  ghost predicate Reaches(skewMs: nat, actions: seq<Action>, s: State) {
    if actions == [] then s == INIT
    else
      var last := |actions| - 1;
      exists before :: Reaches(skewMs, actions[..last], before) && Enabled(before, actions[last])
                       && s == Do(skewMs, before, actions[last])
  }

  // ---- The provider ----

  /** A provider and the promises it has handed out. Promises are named by their position. */
  class Provider {
    const skewMs: nat
    var cached: Option<Cached>
    var refreshPromise: Option<nat>
    var exchanges: seq<Exchange>
    var callers: seq<Caller>

    ghost function View(): State
      reads this
    {
      State(cached, refreshPromise, exchanges, callers)
    }

    constructor (skewMs: nat)
      ensures View() == INIT && this.skewMs == skewMs
    {
      this.skewMs := skewMs;
      cached, refreshPromise, exchanges, callers := None, None, [], [];
    }

    method GetToken(now: Reading)
      modifies this
      ensures View() == Do(skewMs, old(View()), Call(now))
    {
      if now.None? {
        callers := callers + [Rejected];
        return;
      }
      if cached.Some? && now.value < cached.value.expiresAtMs - skewMs as real {
        callers := callers + [FromCache(now.value, cached.value)];
        return;
      }
      if refreshPromise.None? {
        exchanges := exchanges + [Running];
        refreshPromise := Some(|exchanges| - 1);
      }
      callers := callers + [Waiting(refreshPromise.value)];
    }

    /** The rest of `exchangeToken`, from the answer of the endpoint on. */
    method FinishExchange(k: nat, response: Response, now: Reading)
      requires Enabled(View(), Settle(k, response, now))
      modifies this
      ensures View() == Do(skewMs, old(View()), Settle(k, response, now))
    {
      var result := Failed;
      if response.Answer? {
        var parsed := ParseTokenResponse(response.payload);
        if parsed.Some? && now.Some? {
          var expiry := now.value + (parsed.value.expiresInSeconds * 1000) as real;
          cached := Some(Cached(parsed.value.accessToken, expiry));
          result := Obtained(cached.value);
        }
      }
      exchanges := exchanges[k := Settled(result)];
    }

    /** The `finally` callback: it forgets the promise, whichever it is. */
    method RunFinally(k: nat)
      requires Enabled(View(), Finally(k))
      modifies this
      ensures View() == Do(skewMs, old(View()), Finally(k))
    {
      refreshPromise := None;
      exchanges := exchanges[k := Cleared(exchanges[k].result)];
    }

    method Resume(c: nat)
      requires Enabled(View(), Deliver(c))
      modifies this
      ensures View() == Do(skewMs, old(View()), Deliver(c))
    {
      var k := callers[c].exchange;
      callers := callers[c := Delivered(k, exchanges[k].result)];
    }
  }

  // ---- What every step keeps ----

  /** The token of the last exchange that brought one. */
  function LastObtained(exchanges: seq<Exchange>): Option<Cached> {
    if exchanges == [] then None
    else
      var last := exchanges[|exchanges| - 1];
      if !last.Running? && last.result.Obtained? then Some(last.result.cached)
      else LastObtained(exchanges[..|exchanges| - 1])
  }

  /** All exchanges but the last are over, and the provider remembers the last exactly while it is not. */
  ghost predicate OneAtATime(s: State) {
    && (forall k :: 0 <= k < |s.exchanges| - 1 ==> s.exchanges[k].Cleared?)
    && s.refresh == if s.exchanges == [] || s.exchanges[|s.exchanges| - 1].Cleared? then None
                    else Some(|s.exchanges| - 1)
  }

  ghost predicate WasObtained(exchanges: seq<Exchange>, c: Cached) {
    exists k :: 0 <= k < |exchanges| && ObtainedBy(exchanges[k], c)
  }

  predicate ObtainedBy(e: Exchange, c: Cached) {
    !e.Running? && e.result == Obtained(c)
  }

  /** What a caller got, or waits for, is due to it. */
  ghost predicate IsServed(skewMs: nat, exchanges: seq<Exchange>, c: Caller) {
    match c
    case Rejected => true
    case FromCache(now, cached) => now < cached.expiresAtMs - skewMs as real && WasObtained(exchanges, cached)
    case Waiting(k) => k < |exchanges|
    case Delivered(k, result) => k < |exchanges| && exchanges[k] == Cleared(result)
  }

  ghost predicate Inv(skewMs: nat, s: State) {
    && OneAtATime(s)
    && s.cached == LastObtained(s.exchanges)
    && |s.exchanges| <= |s.callers|
    && (forall c :: c in s.callers ==> IsServed(skewMs, s.exchanges, c))
  }

  lemma {:induction false} LastObtainedWasObtained(exchanges: seq<Exchange>)
    requires LastObtained(exchanges).Some?
    ensures WasObtained(exchanges, LastObtained(exchanges).value)
  {
    var n := |exchanges| - 1;
    if ObtainedBy(exchanges[n], LastObtained(exchanges).value) {
    } else {
      LastObtainedWasObtained(exchanges[..n]);
      var k :| 0 <= k < n && ObtainedBy(exchanges[..n][k], LastObtained(exchanges).value);
      assert exchanges[k] == exchanges[..n][k];
    }
  }

  /** An exchange may go on without taking anything away from those already served. */
  ghost predicate GoesOn(before: seq<Exchange>, after: seq<Exchange>) {
    && |before| <= |after|
    && (forall k :: 0 <= k < |before| ==>
          || before[k].Running?
          || after[k] == before[k]
          || (before[k].Settled? && after[k] == Cleared(before[k].result)))
  }

  lemma ServedStays(skewMs: nat, before: seq<Exchange>, after: seq<Exchange>, c: Caller)
    requires GoesOn(before, after) && IsServed(skewMs, before, c)
    ensures IsServed(skewMs, after, c)
  {
    if c.FromCache? {
      var k :| 0 <= k < |before| && ObtainedBy(before[k], c.cached);
      assert ObtainedBy(after[k], c.cached);
    }
  }

  lemma StepGoesOn(skewMs: nat, s: State, a: Action)
    requires Enabled(s, a)
    ensures GoesOn(s.exchanges, Do(skewMs, s, a).exchanges)
  {
  }

  lemma StepKeepsOneAtATime(skewMs: nat, s: State, a: Action)
    requires OneAtATime(s) && Enabled(s, a)
    ensures OneAtATime(Do(skewMs, s, a))
  {
  }

  lemma StepKeepsCache(skewMs: nat, s: State, a: Action)
    requires OneAtATime(s) && s.cached == LastObtained(s.exchanges) && Enabled(s, a)
    ensures Do(skewMs, s, a).cached == LastObtained(Do(skewMs, s, a).exchanges)
  {
    var t, n := Do(skewMs, s, a), |s.exchanges|;
    if |t.exchanges| == n + 1 {
      assert t.exchanges[..n] == s.exchanges;
    } else if n > 0 {
      assert t.exchanges[..n - 1] == s.exchanges[..n - 1];
    }
  }

  /** The caller a step adds or changes. */
  lemma StepServes(skewMs: nat, s: State, a: Action, c: Caller)
    requires Inv(skewMs, s) && Enabled(s, a) && c in Do(skewMs, s, a).callers && c !in s.callers
    ensures IsServed(skewMs, Do(skewMs, s, a).exchanges, c)
  {
    if c.FromCache? {
      LastObtainedWasObtained(s.exchanges);
    }
    if a.Deliver? {
      assert s.callers[a.caller] in s.callers;
    }
  }

  lemma StepKeepsInv(skewMs: nat, s: State, a: Action)
    requires Inv(skewMs, s) && Enabled(s, a)
    ensures Inv(skewMs, Do(skewMs, s, a))
  {
    var t := Do(skewMs, s, a);
    StepKeepsOneAtATime(skewMs, s, a);
    StepKeepsCache(skewMs, s, a);
    StepGoesOn(skewMs, s, a);
    forall c | c in t.callers ensures IsServed(skewMs, t.exchanges, c) {
      if c in s.callers {
        ServedStays(skewMs, s.exchanges, t.exchanges, c);
      } else {
        StepServes(skewMs, s, a, c);
      }
    }
  }

  lemma {:induction false} RunsKeepInv(skewMs: nat, actions: seq<Action>, s: State)
    requires Reaches(skewMs, actions, s)
    ensures Inv(skewMs, s)
  {
    if actions == [] {
    } else {
      var last := |actions| - 1;
      var before :| Reaches(skewMs, actions[..last], before) && Enabled(before, actions[last])
                    && s == Do(skewMs, before, actions[last]);
      RunsKeepInv(skewMs, actions[..last], before);
      StepKeepsInv(skewMs, before, actions[last]);
    }
  }

  // ---- Main results ----

  /** In every run at most one exchange is outstanding, and it is the one the provider remembers. */
  lemma OneExchangeOutstanding(skewMs: nat, actions: seq<Action>, s: State, j: nat, k: nat)
    requires Reaches(skewMs, actions, s)
    requires j < |s.exchanges| && !s.exchanges[j].Cleared?
    requires k < |s.exchanges| && !s.exchanges[k].Cleared?
    ensures j == k && s.refresh == Some(k)
  {
    RunsKeepInv(skewMs, actions, s);
  }

  /**
   In every run each caller got a cached token that an exchange brought and that was not near its expiry, or the result
   of the exchange it joined.
   */
  lemma EveryCallerIsServed(skewMs: nat, actions: seq<Action>, s: State, c: nat)
    requires Reaches(skewMs, actions, s) && c < |s.callers|
    ensures IsServed(skewMs, s.exchanges, s.callers[c])
  {
    RunsKeepInv(skewMs, actions, s);
  }

  /** In every run the cache holds the token of the last exchange that brought one, however later ones failed. */
  lemma CacheHoldsTheLastToken(skewMs: nat, actions: seq<Action>, s: State)
    requires Reaches(skewMs, actions, s)
    ensures s.cached == LastObtained(s.exchanges)
  {
    RunsKeepInv(skewMs, actions, s);
  }

  /**
   A call starts an exchange if and only if no cached token is usable and no exchange is outstanding; so after a failed
   exchange has been cleared the next such call starts a fresh one, and until then such calls join it.
   */
  lemma CallStartsExchangeIff(skewMs: nat, actions: seq<Action>, s: State, now: real)
    requires Reaches(skewMs, actions, s) && now >= 0.0
    ensures
      var t := Do(skewMs, s, Call(Some(now)));
      var free := forall k :: 0 <= k < |s.exchanges| ==> s.exchanges[k].Cleared?;
      && (t.exchanges == s.exchanges + [Running] <==> !Usable(skewMs, LastObtained(s.exchanges), now) && free)
      && (t.exchanges == s.exchanges + [Running] ==> t.callers == s.callers + [Waiting(|s.exchanges|)])
      && (!Usable(skewMs, LastObtained(s.exchanges), now) && !free ==>
            t.exchanges == s.exchanges && t.callers == s.callers + [Waiting(|s.exchanges| - 1)])
  {
    RunsKeepInv(skewMs, actions, s);
    var n := |s.exchanges|;
    assert |s.exchanges + [Running]| == n + 1;
    if n > 0 && !s.exchanges[n - 1].Cleared? {
      assert s.refresh == Some(n - 1);
    }
  }

  lemma ReachesNext(skewMs: nat, actions: seq<Action>, s: State, a: Action)
    requires Reaches(skewMs, actions, s) && Enabled(s, a)
    ensures Reaches(skewMs, actions + [a], Do(skewMs, s, a))
  {
    var all := actions + [a];
    assert all[..|all| - 1] == actions;
  }

  /** These further actions are possible, and the caller is then `done`. */
  ghost predicate LeadsTo(skewMs: nat, actions: seq<Action>, more: seq<Action>, c: nat, done: Caller) {
    exists t :: Reaches(skewMs, actions + more, t) && c < |t.callers| && t.callers[c] == done
  }

  lemma ThenLeadsTo(skewMs: nat, actions: seq<Action>, a: Action, more: seq<Action>, c: nat, done: Caller)
    requires LeadsTo(skewMs, actions + [a], more, c, done)
    ensures LeadsTo(skewMs, actions, [a] + more, c, done)
  {
    assert actions + [a] + more == actions + ([a] + more);
  }

  lemma ClearedIsDelivered(skewMs: nat, actions: seq<Action>, s: State, c: nat)
    requires Reaches(skewMs, actions, s) && Enabled(s, Deliver(c))
    ensures
      var k := s.callers[c].exchange;
      LeadsTo(skewMs, actions, [Deliver(c)], c, Delivered(k, s.exchanges[k].result))
  {
    ReachesNext(skewMs, actions, s, Deliver(c));
  }

  lemma SettledIsDelivered(skewMs: nat, actions: seq<Action>, s: State, c: nat, k: nat)
    requires Reaches(skewMs, actions, s) && c < |s.callers| && s.callers[c] == Waiting(k) && Enabled(s, Finally(k))
    ensures LeadsTo(skewMs, actions, [Finally(k), Deliver(c)], c, Delivered(k, s.exchanges[k].result))
  {
    ReachesNext(skewMs, actions, s, Finally(k));
    ClearedIsDelivered(skewMs, actions + [Finally(k)], Do(skewMs, s, Finally(k)), c);
    ThenLeadsTo(skewMs, actions, Finally(k), [Deliver(c)], c, Delivered(k, s.exchanges[k].result));
    assert [Finally(k)] + [Deliver(c)] == [Finally(k), Deliver(c)];
  }

  lemma RunningIsDelivered(
      skewMs: nat, actions: seq<Action>, s: State, c: nat, k: nat, response: Response, now: Reading)
    requires Reaches(skewMs, actions, s) && c < |s.callers| && s.callers[c] == Waiting(k)
    requires Enabled(s, Settle(k, response, now))
    ensures LeadsTo(skewMs, actions, [Settle(k, response, now), Finally(k), Deliver(c)], c,
                    Delivered(k, ResultOf(response, now)))
  {
    var a, rest := Settle(k, response, now), [Finally(k), Deliver(c)];
    ReachesNext(skewMs, actions, s, a);
    SettledIsDelivered(skewMs, actions + [a], Do(skewMs, s, a), c, k);
    ThenLeadsTo(skewMs, actions, a, rest, c, Delivered(k, ResultOf(response, now)));
    assert [a] + rest == [a, Finally(k), Deliver(c)];
  }

  /** The result an exchange has, or will have if the endpoint gives this answer. */
  function Due(e: Exchange, response: Response, now: Reading): Result {
    if e.Running? then ResultOf(response, now) else e.result
  }

  /**
   A waiting caller is never stranded: whatever the endpoint answers, at most three further actions bring it the
   result of the exchange it joined.
   */
  lemma WaitingCallerCanGoOn(skewMs: nat, actions: seq<Action>, s: State, c: nat, response: Response, now: Reading)
    requires Reaches(skewMs, actions, s) && c < |s.callers| && s.callers[c].Waiting?
    ensures s.callers[c].exchange < |s.exchanges|
    ensures
      var k := s.callers[c].exchange;
      exists more ::
        |more| <= 3 && LeadsTo(skewMs, actions, more, c, Delivered(k, Due(s.exchanges[k], response, now)))
  {
    EveryCallerIsServed(skewMs, actions, s, c);
    var k := s.callers[c].exchange;
    match s.exchanges[k]
    case Cleared(_) => ClearedIsDelivered(skewMs, actions, s, c);
    case Settled(_) => SettledIsDelivered(skewMs, actions, s, c, k);
    case Running => RunningIsDelivered(skewMs, actions, s, c, k, response, now);
  }
}
