/**
 What the order of lookups in the verifier cache has to do with time, and what the second look under the write lock is
 good for.
 */
module VerifierRuns {
  import opened Options
  import opened VerifierCache
  import Fingerprint
  import Joining

  // ---- The order of lookups and the order in time ----

  /** These actions lead from one state to another. */
  ghost predicate Leads(s: State, actions: seq<Action>, t: State) {
    if actions == [] then t == s
    else
      var last := |actions| - 1;
      exists before :: Leads(s, actions[..last], before) && Enabled(before, actions[last])
                       && t == Do(before, actions[last])
  }

  /** What came after `s` was logged after it. */
  ghost predicate IsLater(s: State, t: State) {
    && s.log <= t.log
    && |s.begun| <= |t.begun|
    && (forall n :: |s.begun| <= n < |t.begun| ==> t.begun[n] >= |s.log|)
  }

  lemma {:induction false} LaterStatesAreLater(s: State, actions: seq<Action>, t: State)
    requires Leads(s, actions, t) && Numbered(s)
    ensures IsLater(s, t) && Numbered(t)
  {
    if actions == [] {
    } else {
      var last := |actions| - 1;
      var before :| Leads(s, actions[..last], before) && Enabled(before, actions[last])
                    && t == Do(before, actions[last]);
      LaterStatesAreLater(s, actions[..last], before);
      StepKeepsNumbered(before, actions[last]);
      StepMovesNumbers(before, actions[last]);
      DoLogs(before, actions[last]);
    }
  }

  /**
   The order agrees with time: a request that was done before another one came has the earlier place.
   */
  lemma OrderFollowsTime(
      initial: Cache, early: seq<Action>, s: State, late: seq<Action>, t: State, u: nat, i: nat, j: nat)
    requires Reaches(initial, early, s) && Leads(s, late, t)
    requires u < |s.threads| && s.threads[u].Done?
    requires i < |t.log| && t.log[i].request.number == s.threads[u].request.number
    requires j < |t.log| && t.log[j].request.number >= |s.begun|
    ensures i < j
  {
    RunsAreSerial(initial, early, s);
    RunsKeepNumbered(initial, early, s);
    LaterStatesAreLater(s, late, t);
    var request, result := s.threads[u].request, s.threads[u].result;
    assert WasServed(s.log, request, result);
    var k :| 0 <= k < |s.log| && s.log[k].request == request && s.log[k].result == result;
    assert t.log[k] == s.log[k];
    assert i == k;
    assert ServedInTime(t, j);
  }

  // ---- The second look ----

  /** Between two moments a verifier for another fingerprint was stored. */
  ghost predicate OtherStored(events: seq<Event>, i: nat, j: nat, fingerprint: string) {
    exists k :: i < k < j && k < |events| && events[k].Stored? && events[k].request.fingerprint != fingerprint
  }

  /** A verifier for this fingerprint is on its way into the cache. */
  predicate IsPending(s: State, fingerprint: string) {
    exists t :: 0 <= t < |s.threads| && PendsAt(s, t, fingerprint)
  }

  predicate PendsAt(s: State, t: nat, fingerprint: string)
    requires t < |s.threads|
  {
    (s.threads[t].Stores? || s.threads[t].StoresConfig?) && s.threads[t].request.fingerprint == fingerprint
  }

  /** What was built is on its way into the cache, is there, or has made way for another one. */
  ghost predicate BuiltIsKept(s: State, i: nat)
    requires i < |s.events|
  {
    s.events[i].Built? ==>
      var fingerprint := s.events[i].request.fingerprint;
      || IsPending(s, fingerprint)
      || (s.cache.verifier.Some? && s.cache.verifierConfig == fingerprint)
      || OtherStored(s.events, i, |s.events|, fingerprint)
  }

  ghost predicate AllBuiltIsKept(s: State) {
    forall i :: 0 <= i < |s.events| ==> BuiltIsKept(s, i)
  }

  /** Two builds for one fingerprint have a store for another one between them. */
  ghost predicate BuildsAreApart(events: seq<Event>) {
    forall i, j :: 0 <= i < j < |events| && events[i].Built? && events[j].Built?
                   && events[i].request.fingerprint == events[j].request.fingerprint ==>
                     OtherStored(events, i, j, events[i].request.fingerprint)
  }

  /** A request builds only while the cache does not hold a verifier for it. */
  lemma BuilderMisses(initial: Cache, s: State, t: nat)
    requires Inv(initial, s) && t < |s.threads| && s.threads[t].Builds?
    ensures !Hits(s.cache, s.threads[t].request) && forall f :: !IsPending(s, f)
  {
    HolderSeesCache(initial, s, t);
    assert ThreadIsGood(initial, s, s.threads[t]);
    forall f, u | 0 <= u < |s.threads| ensures !PendsAt(s, u, f) {
      assert s.threads[t].HoldsWrite();
      assert u != t ==> !s.threads[u].HoldsWrite();
    }
  }

  function Added(s: State, a: Action): seq<Event>
    requires Enabled(s, a)
  {
    match a
    case BuildReturns(t, true) => [Built(s.threads[t].request)]
    case StoreConfig(t) => [Stored(s.threads[t].request)]
    case _ => []
  }

  lemma DoAdds(s: State, a: Action)
    requires Enabled(s, a)
    ensures Do(s, a).events == s.events + Added(s, a)
    ensures !a.Store? && !a.StoreConfig? ==> Do(s, a).cache == s.cache
  {
  }

  lemma OtherStoredStays(events: seq<Event>, more: seq<Event>, i: nat, j: nat, fingerprint: string)
    requires OtherStored(events, i, j, fingerprint) && j <= |events|
    ensures OtherStored(events + more, i, j, fingerprint)
    ensures OtherStored(events + more, i, |events + more|, fingerprint)
  {
    var k :| i < k < j && k < |events| && events[k].Stored? && events[k].request.fingerprint != fingerprint;
    assert (events + more)[k] == events[k];
  }

  lemma StepKeepsPending(s: State, a: Action, f: string)
    requires Enabled(s, a) && !a.StoreConfig? && IsPending(s, f)
    ensures IsPending(Do(s, a), f)
  {
    var t :| 0 <= t < |s.threads| && PendsAt(s, t, f);
    StepMovesOne(s, a);
    assert PendsAt(Do(s, a), t, f);
  }

  lemma StoringIsAlone(s: State, a: Action, f: string)
    requires Exclusive(s.threads) && Enabled(s, a) && a.StoreConfig? && IsPending(s, f)
    ensures s.threads[a.t].request.fingerprint == f
  {
    var t :| 0 <= t < |s.threads| && PendsAt(s, t, f);
    assert s.threads[a.t].HoldsWrite() && s.threads[t].HoldsWrite();
  }

  lemma StoringFills(initial: Cache, s: State, a: Action)
    requires Inv(initial, s) && Enabled(s, a) && a.StoreConfig?
    ensures Do(s, a).cache.verifier.Some? && Do(s, a).cache.verifierConfig == s.threads[a.t].request.fingerprint
  {
    assert IsHalfWay(s, a.t);
  }

  lemma StepKeepsBuilt(initial: Cache, s: State, a: Action, i: nat)
    requires Inv(initial, s) && Enabled(s, a) && i < |s.events| && BuiltIsKept(s, i)
    ensures i < |Do(s, a).events| && BuiltIsKept(Do(s, a), i)
  {
    DoAdds(s, a);
    var t, f := Do(s, a), s.events[i].request.fingerprint;
    assert t.events[i] == s.events[i];
    if s.events[i].Built? {
      if OtherStored(s.events, i, |s.events|, f) {
        OtherStoredStays(s.events, Added(s, a), i, |s.events|, f);
      } else if a.StoreConfig? {
        StoringFills(initial, s, a);
        if IsPending(s, f) {
          StoringIsAlone(s, a, f);
        } else if s.threads[a.t].request.fingerprint != f {
          assert t.events[|s.events|] == Stored(s.threads[a.t].request);
        }
      } else if IsPending(s, f) {
        StepKeepsPending(s, a, f);
      } else {
        StoreKeepsKey(s, a);
      }
    }
  }

  lemma StoreKeepsKey(s: State, a: Action)
    requires Enabled(s, a) && !a.StoreConfig?
    ensures Do(s, a).cache.verifierConfig == s.cache.verifierConfig
    ensures s.cache.verifier.Some? ==> Do(s, a).cache.verifier.Some?
  {
  }

  lemma StepKeepsAllBuilt(initial: Cache, s: State, a: Action)
    requires Inv(initial, s) && Enabled(s, a) && AllBuiltIsKept(s)
    ensures AllBuiltIsKept(Do(s, a))
  {
    var t := Do(s, a);
    DoAdds(s, a);
    forall i | 0 <= i < |t.events| ensures BuiltIsKept(t, i) {
      if i < |s.events| {
        StepKeepsBuilt(initial, s, a, i);
      } else if a.BuildReturns? {
        assert PendsAt(t, a.t, s.threads[a.t].request.fingerprint);
      }
    }
  }

  lemma StepKeepsApart(initial: Cache, s: State, a: Action)
    requires Inv(initial, s) && Enabled(s, a) && AllBuiltIsKept(s) && BuildsAreApart(s.events)
    ensures BuildsAreApart(Do(s, a).events)
  {
    var events, after := s.events, Do(s, a).events;
    DoAdds(s, a);
    forall i, j | 0 <= i < j < |after| && after[i].Built? && after[j].Built?
                  && after[i].request.fingerprint == after[j].request.fingerprint
      ensures OtherStored(after, i, j, after[i].request.fingerprint)
    {
      var f := after[i].request.fingerprint;
      assert after[i] == events[i];
      if j < |events| {
        OtherStoredStays(events, Added(s, a), i, j, f);
      } else {
        BuilderMisses(initial, s, a.t);
        assert BuiltIsKept(s, i);
        OtherStoredStays(events, Added(s, a), i, |events|, f);
      }
    }
  }

  lemma {:induction false} RunsKeepBuilds(initial: Cache, actions: seq<Action>, s: State)
    requires Reaches(initial, actions, s)
    ensures AllBuiltIsKept(s) && BuildsAreApart(s.events)
  {
    if actions == [] {
    } else {
      var last := |actions| - 1;
      var before :| Reaches(initial, actions[..last], before) && Enabled(before, actions[last])
                    && s == Do(before, actions[last]);
      RunsKeepInv(initial, actions[..last], before);
      RunsKeepBuilds(initial, actions[..last], before);
      StepKeepsAllBuilt(initial, before, actions[last]);
      StepKeepsApart(initial, before, actions[last]);
    }
  }

  /** In every run a verifier is built, or stored, only while the cache holds none for the request. */
  lemma BuildsOnlyOnMiss(initial: Cache, actions: seq<Action>, s: State, a: Action)
    requires Reaches(initial, actions, s) && Enabled(s, a) && (a.BuildReturns? || a.Store?)
    ensures !Hits(s.cache, s.threads[a.t].request)
  {
    RunsKeepInv(initial, actions, s);
    HolderSeesCache(initial, s, a.t);
    assert ThreadIsGood(initial, s, s.threads[a.t]);
  }

  /**
   In every run, between two successful builds for one fingerprint a verifier for another one was stored: requests that
   miss together build only once, because those that wait for the write lock look again.
   */
  lemma NoneIsBuiltTwiceInARow(initial: Cache, actions: seq<Action>, s: State, i: nat, j: nat)
    requires Reaches(initial, actions, s) && i < j < |s.events| && s.events[i].Built? && s.events[j].Built?
    requires s.events[i].request.fingerprint == s.events[j].request.fingerprint
    ensures exists k :: i < k < j && s.events[k].Stored?
                        && s.events[k].request.fingerprint != s.events[i].request.fingerprint
  {
    RunsKeepBuilds(initial, actions, s);
    assert OtherStored(s.events, i, j, s.events[i].request.fingerprint);
  }

  // ---- Verifiers with other settings ----

  /** In this run a request with this configuration is handed this verifier. */
  ghost predicate HandsOut(
      enabled: bool, first: Config, actions: seq<Action>, s: State, t: nat, c: Config, v: Verifier)
  {
    && Reaches(Initial(enabled, first), actions, s) && (forall a :: a in actions ==> AsksHonestly(a))
    && t < |s.threads| && s.threads[t].Done?
    && s.threads[t].request.config == c && s.threads[t].result == Some(v)
  }

  /** In no run is such a request handed a verifier with other settings. */
  ghost predicate AlwaysOwn(c: Config) {
    forall enabled, first, actions, s, t: nat, v :: HandsOut(enabled, first, actions, s, t, c, v) ==>
      Fingerprint.SameSettings(c, v.config)
  }

  lemma ReachesNext(initial: Cache, actions: seq<Action>, s: State, a: Action, next: State)
    requires Reaches(initial, actions, s) && Enabled(s, a) && next == Do(s, a)
    ensures Reaches(initial, actions + [a], next)
  {
    var all := actions + [a];
    assert all[..|all| - 1] == actions;
  }

  /** The state of a lone request. */
  function Lone(cache: Cache, thread: Thread, log: seq<Served>): State {
    State(cache, [thread], log, [0], [])
  }

  lemma LoneComes(cache: Cache, r: Request)
    requires r.number == 0
    ensures Reaches(cache, [Ask(0, r), LockRead(0)], Lone(cache, Reads(r), []))
  {
    var idle := State(cache, [Idle], [], [], []);
    assert Reaches(cache, [], idle);
    ReachesNext(cache, [], idle, Ask(0, r), Lone(cache, WantsRead(r), []));
    assert [] + [Ask(0, r)] == [Ask(0, r)];
    ReachesNext(cache, [Ask(0, r)], Lone(cache, WantsRead(r), []), LockRead(0), Lone(cache, Reads(r), []));
    assert [Ask(0, r)] + [LockRead(0)] == [Ask(0, r), LockRead(0)];
  }

  lemma LoneLooks(cache: Cache, r: Request, actions: seq<Action>)
    requires Hits(cache, r) && Reaches(cache, actions, Lone(cache, Reads(r), []))
    ensures
      var log := [Served(r, true, cache.verifier)];
      Reaches(cache, actions + [Look(0)] + [UnlockRead(0)], Lone(cache, Done(r, cache.verifier), log))
  {
    var log := [Served(r, true, cache.verifier)];
    ReachesNext(cache, actions, Lone(cache, Reads(r), []), Look(0), Lone(cache, Leaves(r, cache.verifier), log));
    ReachesNext(cache, actions + [Look(0)], Lone(cache, Leaves(r, cache.verifier), log), UnlockRead(0),
                Lone(cache, Done(r, cache.verifier), log));
  }

  /** When the cache already holds a verifier under its key, a lone request is handed that one. */
  lemma LoneRequest(c: Config, d: Config) returns (actions: seq<Action>, s: State)
    requires Fingerprint.Of(d) == Fingerprint.Of(c)
    ensures HandsOut(true, d, actions, s, 0, c, Build(d))
  {
    var cache, r := Initial(true, d), Request(0, c, Fingerprint.Of(c));
    actions, s := LoneRun(cache, r);
  }

  lemma LoneRun(cache: Cache, r: Request) returns (actions: seq<Action>, s: State)
    requires Hits(cache, r) && IsRequest(r) && r.number == 0
    ensures Reaches(cache, actions, s) && forall a :: a in actions ==> AsksHonestly(a)
    ensures |s.threads| == 1 && s.threads[0] == Done(r, cache.verifier)
  {
    var comes := [Ask(0, r), LockRead(0)];
    LoneComes(cache, r);
    LoneLooks(cache, r, comes);
    actions := comes + [Look(0)] + [UnlockRead(0)];
    s := Lone(cache, Done(r, cache.verifier), [Served(r, true, cache.verifier)]);
  }

  /**
   Requests with a configuration are handed verifiers with its own settings in every run if and only if it has no
   movable bar.
   */
  lemma AlwaysOwnIff(c: Config)
    ensures AlwaysOwn(c) <==> !Joining.HasMovable(Fingerprint.Parts(c))
  {
    Fingerprint.KeyTellsIff(c);
    if Joining.HasMovable(Fingerprint.Parts(c)) {
      var d :| Fingerprint.Of(d) == Fingerprint.Of(c) && !Fingerprint.SameSettings(c, d);
      var actions, s := LoneRequest(c, d);
      assert !Fingerprint.SameSettings(c, Build(d).config);
    } else {
      forall enabled, first, actions, s, t: nat, v | HandsOut(enabled, first, actions, s, t, c, v)
        ensures Fingerprint.SameSettings(c, v.config)
      {
        CacheGivesOwnSettings(enabled, first, actions, s, t);
      }
    }
  }

  /**
   In every run a verifier that is handed out checks tokens by introspection exactly when the mode it was built for is
   that word, blanks included, and as JSON web tokens otherwise.
   */
  lemma KindIsTheMode(enabled: bool, first: Config, actions: seq<Action>, s: State, t: nat, c: Config, v: Verifier)
    requires HandsOut(enabled, first, actions, s, t, c, v)
    ensures v.kind == Introspection <==> v.config.tokenValidationMode == "introspection"
    ensures v.kind == Jwt <==> v.config.tokenValidationMode != "introspection"
    ensures Fingerprint.Of(v.config) == Fingerprint.Of(c)
  {
    CacheIsTransparent(enabled, first, actions, s, t);
  }
}
