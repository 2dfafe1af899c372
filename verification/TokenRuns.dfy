/**
 What the answers of the token endpoint have to do with the tokens that callers get: a token is served from the cache
 exactly as long as the answer that brought it allows, told by the actions of a run alone.
 */
module TokenRuns {
  import opened Options
  import opened TokenProvider
  import opened Text

  /** An answer that is accepted: a bearer token of at most 2^20 characters, for a whole positive number of seconds. */
  predicate Grants(response: Response, token: string, seconds: int) {
    && response.Answer? && response.payload.Fields?
    && response.payload.accessToken == Text(token) && 0 < |token| <= 1048576
    && (response.payload.tokenType == Missing || IsBearerText(response.payload.tokenType))
    && response.payload.expiresIn == Number(seconds as real) && 0 < seconds < 9007199254740992
  }

  predicate IsBearerText(v: Json) {
    v.Text? && Lower(v.text) == "bearer"
  }

  /** An exchange is settled at time `at` by an answer that grants a token for so many seconds. */
  predicate IsGrant(a: Action, token: string, at: real, seconds: int) {
    a.Settle? && a.now == Some(at) && Grants(a.response, token, seconds)
  }

  /** The token may be used at this time: its seconds are not over, the skew taken off. */
  predicate IsFresh(skewMs: nat, now: real, at: real, seconds: int) {
    now < at + 1000.0 * seconds as real - skewMs as real
  }

  // ---- One answer ----

  lemma LowerIs(c: char, small: char)
    requires 'a' <= small <= 'z'
    ensures LowerChar(c) == small <==> c == small || c == (small as int - 32) as char
  {
  }

  lemma BearerIsLower(s: string)
    ensures IsBearer(s) <==> Lower(s) == "bearer"
  {
    LowerAt(s, 0);
    if |s| == 6 {
      forall i | 0 <= i < 6 ensures Lower(s)[i] == LowerChar(s[i]) {
        LowerAt(s, i);
      }
      LowerIs(s[0], 'b');
      LowerIs(s[1], 'e');
      LowerIs(s[2], 'a');
      LowerIs(s[3], 'r');
      LowerIs(s[4], 'e');
      LowerIs(s[5], 'r');
      SixChars(Lower(s));
    }
  }

  lemma SixChars(s: string)
    requires |s| == 6
    ensures s == "bearer" <==> s[0] == 'b' && s[1] == 'e' && s[2] == 'a' && s[3] == 'r' && s[4] == 'e' && s[5] == 'r'
  {
  }

  lemma LifetimeIs(v: Json, seconds: int)
    ensures v == Number(seconds as real) && 0 < seconds < 9007199254740992 <==>
      IsLifetime(v) && v.value.Floor == seconds
  {
  }

  /** A response is parsed exactly when it grants a token. */
  lemma ParsedIffGrants(payload: Payload, token: string, seconds: int)
    ensures ParseTokenResponse(payload) == Some(Parsed(token, seconds)) <==> Grants(Answer(payload), token, seconds)
  {
    if payload.Fields? {
      LifetimeIs(payload.expiresIn, seconds);
      if payload.tokenType.Text? {
        BearerIsLower(payload.tokenType.text);
      }
    }
  }

  function Kept(token: string, at: real, seconds: int): Cached {
    Cached(token, at + 1000.0 * seconds as real)
  }

  lemma GrantedResult(a: Action, token: string, at: real, seconds: int)
    requires IsGrant(a, token, at, seconds)
    ensures ResultOf(a.response, a.now) == Obtained(Kept(token, at, seconds))
  {
    ParsedIffGrants(a.response.payload, token, seconds);
    assert (seconds * 1000) as real == 1000.0 * seconds as real;
  }

  lemma ObtainedIsGranted(a: Action) returns (seconds: int)
    requires a.Settle? && ResultOf(a.response, a.now).Obtained?
    ensures a.now.Some? && IsGrant(a, ResultOf(a.response, a.now).cached.token, a.now.value, seconds)
    ensures ResultOf(a.response, a.now) ==
      Obtained(Kept(ResultOf(a.response, a.now).cached.token, a.now.value, seconds))
  {
    var parsed := ParseTokenResponse(a.response.payload).value;
    seconds := parsed.expiresInSeconds;
    ParsedIffGrants(a.response.payload, parsed.accessToken, seconds);
    GrantedResult(a, parsed.accessToken, a.now.value, seconds);
  }

  // ---- Where tokens come from ----

  /** The token was granted by some action before the one at `end`, and kept until its seconds are over. */
  ghost predicate WasGranted(actions: seq<Action>, end: nat, cached: Cached)
    requires end <= |actions|
  {
    exists i, at, seconds :: 0 <= i < end && IsGrant(actions[i], cached.token, at, seconds)
                             && cached == Kept(cached.token, at, seconds)
  }

  predicate IsCall(a: Action, now: real) {
    a.Call? && a.now == Some(now)
  }

  /** A call at this time was served, with a token granted before it. */
  ghost predicate WasServedAt(actions: seq<Action>, now: real, cached: Cached) {
    exists j :: 0 <= j < |actions| && IsCall(actions[j], now) && WasGranted(actions, j, cached)
  }

  ghost predicate IsAccountable(actions: seq<Action>, c: Caller) {
    c.FromCache? ==> WasServedAt(actions, c.now, c.cached)
  }

  ghost predicate AllIsAccountable(actions: seq<Action>, s: State) {
    && (s.cached.Some? ==> WasGranted(actions, |actions|, s.cached.value))
    && (forall c :: c in s.callers ==> IsAccountable(actions, c))
  }

  lemma GrantStays(actions: seq<Action>, a: Action, end: nat, cached: Cached)
    requires end <= |actions| && WasGranted(actions, end, cached)
    ensures WasGranted(actions + [a], end, cached)
  {
    var i, at, seconds :| 0 <= i < end && IsGrant(actions[i], cached.token, at, seconds)
                          && cached == Kept(cached.token, at, seconds);
    assert (actions + [a])[i] == actions[i];
  }

  lemma GrantStaysGranted(actions: seq<Action>, end: nat, more: nat, cached: Cached)
    requires end <= more <= |actions| && WasGranted(actions, end, cached)
    ensures WasGranted(actions, more, cached)
  {
  }

  lemma AccountStays(actions: seq<Action>, a: Action, c: Caller)
    requires IsAccountable(actions, c)
    ensures IsAccountable(actions + [a], c)
  {
    if c.FromCache? {
      var j :| 0 <= j < |actions| && IsCall(actions[j], c.now) && WasGranted(actions, j, c.cached);
      GrantStays(actions, a, j, c.cached);
      assert (actions + [a])[j] == actions[j];
    }
  }

  lemma CacheIsAccountable(skewMs: nat, actions: seq<Action>, s: State, a: Action)
    requires Enabled(s, a) && s.cached.Some? ==> WasGranted(actions, |actions|, s.cached.value)
    requires Enabled(s, a)
    ensures
      var next := Do(skewMs, s, a).cached;
      next.Some? ==> WasGranted(actions + [a], |actions| + 1, next.value)
  {
    var all, next := actions + [a], Do(skewMs, s, a).cached;
    if a.Settle? && ResultOf(a.response, a.now).Obtained? {
      var seconds := ObtainedIsGranted(a);
      assert all[|actions|] == a;
      assert IsGrant(all[|actions|], next.value.token, a.now.value, seconds);
    } else if s.cached.Some? {
      GrantStays(actions, a, |actions|, s.cached.value);
      GrantStaysGranted(all, |actions|, |actions| + 1, s.cached.value);
    }
  }

  lemma CallIsAccountable(skewMs: nat, actions: seq<Action>, s: State, a: Action, c: Caller)
    requires AllIsAccountable(actions, s) && Enabled(s, a) && c in Do(skewMs, s, a).callers
    ensures IsAccountable(actions + [a], c)
  {
    if c in s.callers {
      AccountStays(actions, a, c);
    } else if c.FromCache? {
      GrantStays(actions, a, |actions|, s.cached.value);
      assert IsCall((actions + [a])[|actions|], c.now);
    }
  }

  lemma {:induction false} RunsAreAccountable(skewMs: nat, actions: seq<Action>, s: State)
    requires Reaches(skewMs, actions, s)
    ensures AllIsAccountable(actions, s)
  {
    if actions == [] {
    } else {
      var last := |actions| - 1;
      var early, a := actions[..last], actions[last];
      var before :| Reaches(skewMs, early, before) && Enabled(before, a) && s == Do(skewMs, before, a);
      assert actions == early + [a];
      RunsAreAccountable(skewMs, early, before);
      CacheIsAccountable(skewMs, early, before, a);
      forall c | c in s.callers ensures IsAccountable(actions, c) {
        CallIsAccountable(skewMs, early, before, a, c);
      }
    }
  }

  // ---- Main results ----

  /** A caller at `now`, whose call is the action at `j`, was served a token granted earlier and still fresh then. */
  ghost predicate IsDue(skewMs: nat, actions: seq<Action>, now: real, token: string, i: nat, j: nat,
                        at: real, seconds: int) {
    && i < j < |actions| && IsCall(actions[j], now)
    && IsGrant(actions[i], token, at, seconds) && IsFresh(skewMs, now, at, seconds)
  }

  /**
   In every run a token that a caller got from the cache had been granted by an answer before its call, and the seconds
   of that answer, counted from the clock reading after it, were not over at the time of the call, the skew taken off.
   */
  lemma CachedTokenWasGranted(skewMs: nat, actions: seq<Action>, s: State, c: nat)
    requires Reaches(skewMs, actions, s) && c < |s.callers| && s.callers[c].FromCache?
    ensures exists i, j, at, seconds ::
      IsDue(skewMs, actions, s.callers[c].now, s.callers[c].cached.token, i, j, at, seconds)
  {
    var caller := s.callers[c];
    RunsAreAccountable(skewMs, actions, s);
    EveryCallerIsServed(skewMs, actions, s, c);
    assert caller in s.callers && IsAccountable(actions, caller);
    var j :| 0 <= j < |actions| && IsCall(actions[j], caller.now) && WasGranted(actions, j, caller.cached);
    var i, at, seconds :| 0 <= i < j && IsGrant(actions[i], caller.cached.token, at, seconds)
                          && caller.cached == Kept(caller.cached.token, at, seconds);
    assert IsDue(skewMs, actions, caller.now, caller.cached.token, i, j, at, seconds);
  }

  /** After the action at `i`, no answer grants a token. */
  ghost predicate NoGrantAfter(actions: seq<Action>, i: nat) {
    forall j, token, at, seconds :: i < j < |actions| ==> !IsGrant(actions[j], token, at, seconds)
  }

  lemma {:induction false} GrantStaysCached(
      skewMs: nat, actions: seq<Action>, s: State, i: nat, token: string, at: real, seconds: int)
    requires Reaches(skewMs, actions, s) && i < |actions|
    requires IsGrant(actions[i], token, at, seconds) && NoGrantAfter(actions, i)
    ensures s.cached == Some(Kept(token, at, seconds))
    decreases |actions|
  {
    var last := |actions| - 1;
    var early, a := actions[..last], actions[last];
    var before :| Reaches(skewMs, early, before) && Enabled(before, a) && s == Do(skewMs, before, a);
    if i == last {
      GrantedResult(a, token, at, seconds);
    } else {
      assert early[i] == actions[i] && forall j :: 0 <= j < last ==> early[j] == actions[j];
      GrantStaysCached(skewMs, early, before, i, token, at, seconds);
      if a.Settle? && ResultOf(a.response, a.now).Obtained? {
        var other := ObtainedIsGranted(a);
        assert false;
      }
    }
  }

  /**
   Conversely, once an answer has granted a token, and until another one does, every call gets that token from the cache
   while its seconds are not over, the skew taken off, and none does afterwards.
   */
  lemma GrantedTokenIsServed(skewMs: nat, actions: seq<Action>, s: State, i: nat, token: string, at: real,
                             seconds: int, now: real)
    requires Reaches(skewMs, actions, s) && i < |actions| && now >= 0.0
    requires IsGrant(actions[i], token, at, seconds) && NoGrantAfter(actions, i)
    ensures
      var callers := Do(skewMs, s, Call(Some(now))).callers;
      && |callers| == |s.callers| + 1
      && (callers[|s.callers|].FromCache? <==> IsFresh(skewMs, now, at, seconds))
      && (callers[|s.callers|].FromCache? ==> callers[|s.callers|].cached.token == token)
  {
    GrantStaysCached(skewMs, actions, s, i, token, at, seconds);
  }

  /** Settling an exchange brings a token exactly when the answer grants it and the clock can be read. */
  lemma SettledIffGranted(skewMs: nat, s: State, a: Action, token: string)
    requires a.Settle? && Enabled(s, a)
    ensures
      var e := Do(skewMs, s, a).exchanges[a.exchange];
      && e.Settled?
      && ((e.result.Obtained? && e.result.cached.token == token) <==>
            exists at, seconds :: IsGrant(a, token, at, seconds))
  {
    if ResultOf(a.response, a.now).Obtained? {
      var seconds := ObtainedIsGranted(a);
      if at, n :| IsGrant(a, token, at, n) {
        GrantedResult(a, token, at, n);
      }
    } else if at, n :| IsGrant(a, token, at, n) {
      GrantedResult(a, token, at, n);
      assert false;
    }
  }
}
