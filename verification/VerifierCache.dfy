/**
 The middleware's cache of one token verifier. Any number of requests, each with the configuration of the moment, look
 it up under a read lock and fill it under a write lock after a second look; their steps interleave freely.
 */
module VerifierCache {
  import opened Options
  import Fingerprint
  import Joining
  import opened Text

  type Config = Fingerprint.Config

  datatype Kind = Jwt | Introspection

  /** A verifier, known by the configuration it was built from and the kind that was chosen for it. */
  datatype Verifier = Verifier(kind: Kind, config: Config)

  /** The choice is made on the mode as it is written, blanks included. */
  function KindFor(c: Config): Kind {
    if c.tokenValidationMode == "introspection" then Introspection else Jwt
  }

  function Build(c: Config): Verifier {
    Verifier(KindFor(c), c)
  }

  /** The two cached fields. */
  datatype Cache = Cache(verifier: Option<Verifier>, verifierConfig: string)

  /** A configuration and its fingerprint, which a lookup computes once. Requests are numbered as they come. */
  datatype Request = Request(number: nat, config: Config, fingerprint: string)

  predicate IsRequest(r: Request) {
    r.fingerprint == Fingerprint.Of(r.config)
  }

  predicate Hits(cache: Cache, r: Request) {
    cache.verifier.Some? && cache.verifierConfig == r.fingerprint
  }

  /** One undisturbed lookup; `builds` tells whether building a verifier would succeed. No verifier means an error. */
  function Lookup(cache: Cache, r: Request, builds: bool): (Cache, Option<Verifier>) {
    if Hits(cache, r) then (cache, cache.verifier)
    else if !builds then (cache, None)
    else (Cache(Some(Build(r.config)), r.fingerprint), Some(Build(r.config)))
  }

  /** The middleware as one request sees it when it is alone. */
  class Middleware {
    var verifier: Option<Verifier>
    var verifierConfig: string

    ghost function View(): Cache
      reads this
    {
      Cache(verifier, verifierConfig)
    }

    /** The constructor builds the first verifier when authentication is on, and fails when that cannot be done. */
    constructor (enabled: bool, initial: Config)
      ensures View() == Initial(enabled, initial)
    {
      verifier := if enabled then Some(Build(initial)) else None;
      verifierConfig := if enabled then Fingerprint.Of(initial) else "";
    }

    method GetVerifier(c: Config, builds: bool) returns (r: Option<Verifier>)
      modifies this
      ensures forall n: nat :: (View(), r) == Lookup(old(View()), Request(n, c, Fingerprint.Of(c)), builds)
    {
      var fingerprint := Fingerprint.Of(c);
      if verifier.Some? && verifierConfig == fingerprint {
        return verifier;
      }
      if !builds {
        return None;
      }
      verifier, verifierConfig := Some(Build(c)), fingerprint;
      return verifier;
    }
  }

  function Initial(enabled: bool, c: Config): Cache {
    if enabled then Cache(Some(Build(c)), Fingerprint.Of(c)) else Cache(None, "")
  }

  // ---- Many requests at once ----

  /** Where a request is. */
  datatype Thread =
    | Idle
    | WantsRead(request: Request)
    | Reads(request: Request)                               // holds the read lock
    | Leaves(request: Request, verifier: Option<Verifier>)  // still holds it, with a verifier or none
    | WantsWrite(request: Request)
    | Looks(request: Request)                               // holds the write lock, as all states below
    | Builds(request: Request)
    | Stores(request: Request)
    | StoresConfig(request: Request)
    | Unlocks(request: Request, result: Option<Verifier>)
    | Done(request: Request, result: Option<Verifier>)
  {
    predicate HoldsRead() {
      Reads? || Leaves?
    }

    predicate HoldsWrite() {
      Looks? || Builds? || Stores? || StoresConfig? || Unlocks?
    }
  }

  /** A lookup at the moment it takes effect. */
  datatype Served = Served(request: Request, builds: bool, result: Option<Verifier>)

  /** What happens to verifiers: one is built for a request, and later stored. */
  datatype Event = Built(request: Request) | Stored(request: Request)

  /** `begun` holds, by number, how many lookups had taken effect when a request came. */
  datatype State = State(cache: Cache, threads: seq<Thread>, log: seq<Served>, begun: seq<nat>, events: seq<Event>)
  {
    function At(t: nat, thread: Thread): State
      requires t < |threads|
    {
      this.(threads := threads[t := thread])
    }
  }

  datatype Action =
    | Ask(t: nat, request: Request)
    | LockRead(t: nat)
    | Look(t: nat)
    | UnlockRead(t: nat)
    | LockWrite(t: nat)
    | LookAgain(t: nat)
    | BuildReturns(t: nat, ok: bool)
    | Store(t: nat)
    | StoreConfig(t: nat)
    | UnlockWrite(t: nat)

  /** Readers share the lock, a writer has it alone. */
  predicate CanRead(s: State) {
    forall u :: 0 <= u < |s.threads| ==> !s.threads[u].HoldsWrite()
  }

  predicate CanWrite(s: State) {
    forall u :: 0 <= u < |s.threads| ==> !s.threads[u].HoldsWrite() && !s.threads[u].HoldsRead()
  }

  predicate Enabled(s: State, a: Action) {
    a.t < |s.threads| &&
    var thread := s.threads[a.t];
    match a
    case Ask(_, r) => (thread.Idle? || thread.Done?) && r.number == |s.begun|
    case LockRead(_) => thread.WantsRead? && CanRead(s)
    case Look(_) => thread.Reads?
    case UnlockRead(_) => thread.Leaves?
    case LockWrite(_) => thread.WantsWrite? && CanWrite(s)
    case LookAgain(_) => thread.Looks?
    case BuildReturns(_, _) => thread.Builds?
    case Store(_) => thread.Stores?
    case StoreConfig(_) => thread.StoresConfig?
    case UnlockWrite(_) => thread.Unlocks?
  }

  function Do(s: State, a: Action): State
    requires Enabled(s, a)
  {
    var thread := s.threads[a.t];
    match a
    case Ask(t, r) => s.At(t, WantsRead(r)).(begun := s.begun + [|s.log|])
    case LockRead(t) => s.At(t, Reads(thread.request))
    case Look(t) =>
      if Hits(s.cache, thread.request) then
        s.At(t, Leaves(thread.request, s.cache.verifier))
         .(log := s.log + [Served(thread.request, true, s.cache.verifier)])
      else s.At(t, Leaves(thread.request, None))
    case UnlockRead(t) =>
      s.At(t, if thread.verifier.Some? then Done(thread.request, thread.verifier) else WantsWrite(thread.request))
    case LockWrite(t) => s.At(t, Looks(thread.request))
    case LookAgain(t) =>
      if Hits(s.cache, thread.request) then
        s.At(t, Unlocks(thread.request, s.cache.verifier))
         .(log := s.log + [Served(thread.request, true, s.cache.verifier)])
      else s.At(t, Builds(thread.request))
    case BuildReturns(t, ok) =>
      if ok then s.At(t, Stores(thread.request)).(events := s.events + [Built(thread.request)])
      else s.At(t, Unlocks(thread.request, None)).(log := s.log + [Served(thread.request, false, None)])
    case Store(t) =>
      s.At(t, StoresConfig(thread.request)).(cache := s.cache.(verifier := Some(Build(thread.request.config))))
    case StoreConfig(t) =>
      s.At(t, Unlocks(thread.request, s.cache.verifier))
       .(cache := s.cache.(verifierConfig := thread.request.fingerprint),
         log := s.log + [Served(thread.request, true, s.cache.verifier)],
         events := s.events + [Stored(thread.request)])
    case UnlockWrite(t) => s.At(t, Done(thread.request, thread.result))
  }

  predicate IsStart(initial: Cache, s: State) {
    && s.cache == initial && s.log == [] && s.begun == [] && s.events == []
    && (forall t :: 0 <= t < |s.threads| ==> s.threads[t].Idle?)
  }

  ghost predicate Reaches(initial: Cache, actions: seq<Action>, s: State) {
    if actions == [] then IsStart(initial, s)
    else
      var last := |actions| - 1;
      exists before :: Reaches(initial, actions[..last], before) && Enabled(before, actions[last])
                       && s == Do(before, actions[last])
  }

  // ---- The lookups of a run, one after the other ----

  /** The cache after these lookups, each undisturbed. */
  function Replay(initial: Cache, log: seq<Served>): Cache {
    if log == [] then initial
    else
      var last := log[|log| - 1];
      Lookup(Replay(initial, log[..|log| - 1]), last.request, last.builds).0
  }

  /** Each lookup had the result it has when the ones before it are done one after the other. */
  ghost predicate Agrees(initial: Cache, log: seq<Served>) {
    forall i :: 0 <= i < |log| ==> AgreesAt(initial, log, i)
  }

  ghost predicate AgreesAt(initial: Cache, log: seq<Served>, i: nat)
    requires i < |log|
  {
    log[i].result == Lookup(Replay(initial, log[..i]), log[i].request, log[i].builds).1
  }

  lemma LogOneMore(initial: Cache, log: seq<Served>, next: Served)
    requires Agrees(initial, log)
    requires next.result == Lookup(Replay(initial, log), next.request, next.builds).1
    ensures Agrees(initial, log + [next])
    ensures Replay(initial, log + [next]) == Lookup(Replay(initial, log), next.request, next.builds).0
  {
    var after := log + [next];
    assert after[..|log|] == log;
    forall i | 0 <= i < |after| ensures AgreesAt(initial, after, i) {
      if i < |log| {
        assert AgreesAt(initial, log, i) && after[..i] == log[..i];
      }
    }
  }

  // ---- What every step keeps ----

  ghost predicate WasServed(log: seq<Served>, r: Request, result: Option<Verifier>) {
    exists i :: 0 <= i < |log| && log[i].request == r && log[i].result == result
  }

  /** What a request may hold at its place. */
  ghost predicate ThreadIsGood(initial: Cache, s: State, thread: Thread) {
    match thread
    case Leaves(r, v) => v.Some? ==> WasServed(s.log, r, v)
    case Builds(r) => !Hits(Replay(initial, s.log), r)
    case Stores(r) => !Hits(Replay(initial, s.log), r)
    case StoresConfig(r) => !Hits(Replay(initial, s.log), r)
    case Unlocks(r, v) => WasServed(s.log, r, v)
    case Done(r, v) => WasServed(s.log, r, v)
    case _ => true
  }

  /** A writer is alone. */
  ghost predicate Exclusive(threads: seq<Thread>) {
    forall t, u :: 0 <= t < |threads| && 0 <= u < |threads| && t != u && threads[t].HoldsWrite() ==>
      !threads[u].HoldsWrite() && !threads[u].HoldsRead()
  }

  /** The cache is what the lookups so far have made it, but for a writer half way through. */
  ghost predicate CacheIsGood(initial: Cache, s: State) {
    && (forall t: nat :: IsHalfWay(s, t) ==>
          s.cache == Replay(initial, s.log).(verifier := Some(Build(s.threads[t].request.config))))
    && (NoneIsHalfWay(s) ==> s.cache == Replay(initial, s.log))
  }

  ghost predicate NoneIsHalfWay(s: State) {
    forall t: nat :: !IsHalfWay(s, t)
  }

  predicate IsHalfWay(s: State, t: nat) {
    t < |s.threads| && s.threads[t].StoresConfig?
  }

  ghost predicate ThreadsAreGood(initial: Cache, s: State) {
    forall t :: 0 <= t < |s.threads| ==> ThreadIsGood(initial, s, s.threads[t])
  }

  ghost predicate Inv(initial: Cache, s: State) {
    && Exclusive(s.threads) && CacheIsGood(initial, s) && ThreadsAreGood(initial, s)
    && Agrees(initial, s.log)
  }

  lemma StepKeepsExclusive(s: State, a: Action)
    requires Exclusive(s.threads) && Enabled(s, a)
    ensures Exclusive(Do(s, a).threads)
  {
  }

  /** While some request holds the lock without being half way through, the cache is what the lookups have made it. */
  lemma HolderSeesCache(initial: Cache, s: State, t: nat)
    requires Exclusive(s.threads) && CacheIsGood(initial, s) && t < |s.threads|
    requires s.threads[t].HoldsRead() || s.threads[t].HoldsWrite()
    ensures !s.threads[t].StoresConfig? ==> NoneIsHalfWay(s) && s.cache == Replay(initial, s.log)
  {
    forall u: nat | u != t ensures !IsHalfWay(s, u) {
      if IsHalfWay(s, u) {
        assert s.threads[u].HoldsWrite();
      }
    }
  }

  /** After a step that logs something, no request is half way through. */
  lemma LoggingIsWhole(initial: Cache, s: State, a: Action)
    requires Exclusive(s.threads) && Enabled(s, a) && Logs(s, a)
    ensures NoneIsHalfWay(Do(s, a))
  {
    var t := Do(s, a);
    forall u: nat ensures !IsHalfWay(t, u) {
      if IsHalfWay(t, u) && u != a.t {
        assert IsHalfWay(s, u) && s.threads[u].HoldsWrite();
      }
    }
  }

  /** Whether a step adds to the log, and what. */
  predicate Logs(s: State, a: Action)
    requires Enabled(s, a)
  {
    match a
    case Look(t) => Hits(s.cache, s.threads[t].request)
    case LookAgain(t) => Hits(s.cache, s.threads[t].request)
    case BuildReturns(_, ok) => !ok
    case StoreConfig(_) => true
    case _ => false
  }

  function Logged(s: State, a: Action): Served
    requires Enabled(s, a) && Logs(s, a)
  {
    Served(s.threads[a.t].request, !a.BuildReturns?, if a.BuildReturns? then None else s.cache.verifier)
  }

  lemma DoLogs(s: State, a: Action)
    requires Enabled(s, a)
    ensures Do(s, a).log == s.log + (if Logs(s, a) then [Logged(s, a)] else [])
  {
  }

  /** It is what one undisturbed lookup would have done. */
  lemma StepLogsALookup(initial: Cache, s: State, a: Action)
    requires Inv(initial, s) && Enabled(s, a) && Logs(s, a)
    ensures
      var next := Logged(s, a);
      (Do(s, a).cache, next.result) == Lookup(Replay(initial, s.log), next.request, next.builds)
  {
    HolderSeesCache(initial, s, a.t);
    assert ThreadIsGood(initial, s, s.threads[a.t]);
    if a.StoreConfig? {
      assert IsHalfWay(s, a.t);
    }
  }

  lemma StepKeepsLog(initial: Cache, s: State, a: Action)
    requires Inv(initial, s) && Enabled(s, a)
    ensures CacheIsGood(initial, Do(s, a)) && Agrees(initial, Do(s, a).log)
  {
    DoLogs(s, a);
    if Logs(s, a) {
      StepLogsALookup(initial, s, a);
      LogOneMore(initial, s.log, Logged(s, a));
      LoggingIsWhole(initial, s, a);
    } else if a.Store? {
      HolderSeesCache(initial, s, a.t);
      StoreMakesHalfWay(s, a);
      assert IsHalfWay(Do(s, a), a.t);
    } else {
      QuietStepKeepsHalfWay(s, a);
      QuietStepKeepsCache(initial, s, Do(s, a));
    }
  }

  lemma QuietStepKeepsCache(initial: Cache, s: State, t: State)
    requires CacheIsGood(initial, s) && t.cache == s.cache && t.log == s.log
    requires |t.threads| == |s.threads|
    requires forall u: nat :: IsHalfWay(t, u) == IsHalfWay(s, u)
    requires forall u: nat :: IsHalfWay(s, u) ==> t.threads[u] == s.threads[u]
    ensures CacheIsGood(initial, t)
  {
    if NoneIsHalfWay(t) {
      assert NoneIsHalfWay(s);
    }
  }

  lemma StoreMakesHalfWay(s: State, a: Action)
    requires Exclusive(s.threads) && Enabled(s, a) && a.Store?
    ensures forall u: nat :: IsHalfWay(Do(s, a), u) <==> u == a.t
  {
    forall u: nat ensures IsHalfWay(Do(s, a), u) <==> u == a.t {
      if IsHalfWay(Do(s, a), u) && u != a.t {
        assert IsHalfWay(s, u) && s.threads[u].HoldsWrite();
      }
    }
  }

  lemma QuietStepKeepsHalfWay(s: State, a: Action)
    requires Enabled(s, a) && !Logs(s, a) && !a.Store?
    ensures Do(s, a).cache == s.cache && Do(s, a).log == s.log
    ensures forall u: nat :: IsHalfWay(Do(s, a), u) == IsHalfWay(s, u)
    ensures forall u: nat :: IsHalfWay(s, u) ==> Do(s, a).threads[u] == s.threads[u]
  {
  }

  lemma ServedStays(log: seq<Served>, next: Served, r: Request, result: Option<Verifier>)
    ensures WasServed(log, r, result) ==> WasServed(log + [next], r, result)
    ensures WasServed(log + [next], next.request, next.result)
  {
    assert (log + [next])[|log|] == next;
    if WasServed(log, r, result) {
      var i :| 0 <= i < |log| && log[i].request == r && log[i].result == result;
      assert (log + [next])[i] == log[i];
    }
  }

  lemma StepKeepsOthers(initial: Cache, s: State, a: Action, u: nat)
    requires Inv(initial, s) && Enabled(s, a) && u < |s.threads| && u != a.t
    ensures ThreadIsGood(initial, Do(s, a), s.threads[u])
  {
    var thread := s.threads[u];
    assert ThreadIsGood(initial, s, thread);
    DoLogs(s, a);
    if Logs(s, a) {
      assert s.threads[a.t].HoldsRead() || s.threads[a.t].HoldsWrite();
      if thread.Leaves? {
        ServedStays(s.log, Logged(s, a), thread.request, thread.verifier);
      } else if thread.Unlocks? || thread.Done? {
        ServedStays(s.log, Logged(s, a), thread.request, thread.result);
      } else {
        OthersLookedFirst(s, a, u);
        StepLogsALookup(initial, s, a);
        LogOneMore(initial, s.log, Logged(s, a));
      }
    }
  }

  /** Whoever has looked again holds the lock, so that nobody else can take a lookup to its end. */
  lemma OthersLookedFirst(s: State, a: Action, u: nat)
    requires Exclusive(s.threads) && Enabled(s, a) && Logs(s, a) && u < |s.threads| && u != a.t
    ensures !s.threads[u].Builds? && !s.threads[u].Stores? && !s.threads[u].StoresConfig?
  {
    assert s.threads[a.t].HoldsRead() || s.threads[a.t].HoldsWrite();
  }

  lemma StepKeepsOwn(initial: Cache, s: State, a: Action)
    requires Inv(initial, s) && Enabled(s, a)
    ensures ThreadIsGood(initial, Do(s, a), Do(s, a).threads[a.t])
  {
    assert ThreadIsGood(initial, s, s.threads[a.t]);
    DoLogs(s, a);
    if Logs(s, a) {
      ServedStays(s.log, Logged(s, a), Logged(s, a).request, None);
      StepHandsOut(s, a);
    } else {
      if a.LookAgain? {
        HolderSeesCache(initial, s, a.t);
      }
      QuietStepIsGood(initial, s, a);
    }
  }

  lemma StepHandsOut(s: State, a: Action)
    requires Enabled(s, a) && Logs(s, a)
    ensures
      var own, next := Do(s, a).threads[a.t], Logged(s, a);
      own == Leaves(next.request, next.result) || own == Unlocks(next.request, next.result)
  {
  }

  lemma QuietStepIsGood(initial: Cache, s: State, a: Action)
    requires Enabled(s, a) && !Logs(s, a) && ThreadIsGood(initial, s, s.threads[a.t])
    requires a.LookAgain? ==> s.cache == Replay(initial, s.log)
    ensures ThreadIsGood(initial, Do(s, a), Do(s, a).threads[a.t])
  {
  }

  lemma StepKeepsInv(initial: Cache, s: State, a: Action)
    requires Inv(initial, s) && Enabled(s, a)
    ensures Inv(initial, Do(s, a))
  {
    StepKeepsExclusive(s, a);
    StepKeepsLog(initial, s, a);
    StepKeepsThreads(initial, s, a);
  }

  lemma StepMovesOne(s: State, a: Action)
    requires Enabled(s, a)
    ensures |Do(s, a).threads| == |s.threads|
    ensures forall u :: 0 <= u < |s.threads| && u != a.t ==> Do(s, a).threads[u] == s.threads[u]
  {
  }

  lemma StepKeepsThreads(initial: Cache, s: State, a: Action)
    requires Inv(initial, s) && Enabled(s, a)
    ensures ThreadsAreGood(initial, Do(s, a))
  {
    var t := Do(s, a);
    StepKeepsOwn(initial, s, a);
    StepMovesOne(s, a);
    forall u | 0 <= u < |t.threads| ensures ThreadIsGood(initial, t, t.threads[u]) {
      if u != a.t {
        StepKeepsOthers(initial, s, a, u);
      }
    }
  }

  lemma {:induction false} RunsKeepInv(initial: Cache, actions: seq<Action>, s: State)
    requires Reaches(initial, actions, s)
    ensures Inv(initial, s)
  {
    if actions == [] {
    } else {
      var last := |actions| - 1;
      var before :| Reaches(initial, actions[..last], before) && Enabled(before, actions[last])
                    && s == Do(before, actions[last]);
      RunsKeepInv(initial, actions[..last], before);
      StepKeepsInv(initial, before, actions[last]);
    }
  }

  /** Every request that asks, waits or was served came with the fingerprint of its configuration. */
  ghost predicate RequestsAreHonest(s: State) {
    && (forall t :: 0 <= t < |s.threads| ==> s.threads[t].Idle? || IsRequest(s.threads[t].request))
    && (forall i :: 0 <= i < |s.log| ==> IsRequest(s.log[i].request))
  }

  predicate AsksHonestly(a: Action) {
    a.Ask? ==> IsRequest(a.request)
  }

  lemma StepKeepsRequests(s: State, a: Action)
    requires RequestsAreHonest(s) && Enabled(s, a) && AsksHonestly(a)
    ensures RequestsAreHonest(Do(s, a))
  {
    var t := Do(s, a);
    DoLogs(s, a);
    StepMovesOne(s, a);
    assert s.threads[a.t].Idle? || IsRequest(s.threads[a.t].request);
    forall u | 0 <= u < |t.threads| ensures t.threads[u].Idle? || IsRequest(t.threads[u].request) {
      if u == a.t {
        StepKeepsOwnRequest(s, a);
      }
    }
  }

  lemma StepKeepsOwnRequest(s: State, a: Action)
    requires Enabled(s, a)
    ensures
      var own := Do(s, a).threads[a.t];
      !own.Idle? && own.request == (if a.Ask? then a.request else s.threads[a.t].request)
  {
  }

  lemma {:induction false} RunsKeepRequests(initial: Cache, actions: seq<Action>, s: State)
    requires Reaches(initial, actions, s) && forall a :: a in actions ==> AsksHonestly(a)
    ensures RequestsAreHonest(s)
  {
    if actions == [] {
    } else {
      var last := |actions| - 1;
      var before :| Reaches(initial, actions[..last], before) && Enabled(before, actions[last])
                    && s == Do(before, actions[last]);
      RunsKeepRequests(initial, actions[..last], before);
      StepKeepsRequests(before, actions[last]);
    }
  }

  // ---- Each request has its own place ----

  /** Asked, and not yet served. */
  predicate IsWaiting(thread: Thread) {
    match thread
    case Idle => false
    case Leaves(_, v) => v.None?
    case Unlocks(_, _) => false
    case Done(_, _) => false
    case _ => true
  }

  ghost predicate ThreadsAreNumbered(s: State) {
    && (forall t :: 0 <= t < |s.threads| && !s.threads[t].Idle? ==> s.threads[t].request.number < |s.begun|)
    && (forall t, u :: 0 <= t < u < |s.threads| && !s.threads[t].Idle? && !s.threads[u].Idle? ==>
          s.threads[t].request.number != s.threads[u].request.number)
  }

  ghost predicate LogIsNumbered(s: State) {
    && (forall i :: 0 <= i < |s.log| ==> ServedInTime(s, i))
    && (forall i, j :: 0 <= i < j < |s.log| ==> s.log[i].request.number != s.log[j].request.number)
    && (forall n :: 0 <= n < |s.begun| ==> s.begun[n] <= |s.log|)
  }

  /** A request takes effect after it came. */
  predicate ServedInTime(s: State, i: nat)
    requires i < |s.log|
  {
    s.log[i].request.number < |s.begun| && s.begun[s.log[i].request.number] <= i
  }

  ghost predicate WaitersAreUnserved(s: State) {
    forall t, i :: 0 <= t < |s.threads| && IsWaiting(s.threads[t]) && 0 <= i < |s.log| ==>
      s.log[i].request.number != s.threads[t].request.number
  }

  ghost predicate Numbered(s: State) {
    ThreadsAreNumbered(s) && LogIsNumbered(s) && WaitersAreUnserved(s)
  }

  lemma StepMovesNumbers(s: State, a: Action)
    requires Enabled(s, a)
    ensures
      var t := Do(s, a);
      && t.begun == s.begun + (if a.Ask? then [|s.log|] else [])
      && !t.threads[a.t].Idle?
      && t.threads[a.t].request.number == (if a.Ask? then |s.begun| else s.threads[a.t].request.number)
      && (Logs(s, a) ==> IsWaiting(s.threads[a.t]) && !IsWaiting(t.threads[a.t]))
      && (!a.Ask? && IsWaiting(t.threads[a.t]) ==> IsWaiting(s.threads[a.t]))
  {
  }

  lemma StepKeepsThreadsNumbered(s: State, a: Action)
    requires ThreadsAreNumbered(s) && Enabled(s, a)
    ensures ThreadsAreNumbered(Do(s, a))
  {
    StepMovesNumbers(s, a);
    StepMovesOne(s, a);
  }

  lemma StepKeepsLogNumbered(s: State, a: Action)
    requires Numbered(s) && Enabled(s, a)
    ensures LogIsNumbered(Do(s, a))
  {
    var t := Do(s, a);
    StepMovesNumbers(s, a);
    DoLogs(s, a);
    forall i | 0 <= i < |t.log| ensures ServedInTime(t, i) {
      if i < |s.log| {
        assert ServedInTime(s, i) && t.log[i] == s.log[i];
      }
    }
  }

  lemma StepKeepsWaiters(s: State, a: Action)
    requires Numbered(s) && Enabled(s, a)
    ensures WaitersAreUnserved(Do(s, a))
  {
    var t := Do(s, a);
    StepMovesNumbers(s, a);
    StepMovesOne(s, a);
    DoLogs(s, a);
    forall u, i | 0 <= u < |t.threads| && IsWaiting(t.threads[u]) && 0 <= i < |t.log|
      ensures t.log[i].request.number != t.threads[u].request.number
    {
      if i < |s.log| {
        assert ServedInTime(s, i) && t.log[i] == s.log[i];
      }
    }
  }

  lemma StepKeepsNumbered(s: State, a: Action)
    requires Numbered(s) && Enabled(s, a)
    ensures Numbered(Do(s, a))
  {
    StepKeepsThreadsNumbered(s, a);
    StepKeepsLogNumbered(s, a);
    StepKeepsWaiters(s, a);
  }

  lemma {:induction false} RunsKeepNumbered(initial: Cache, actions: seq<Action>, s: State)
    requires Reaches(initial, actions, s)
    ensures Numbered(s)
  {
    if actions == [] {
    } else {
      var last := |actions| - 1;
      var before :| Reaches(initial, actions[..last], before) && Enabled(before, actions[last])
                    && s == Do(before, actions[last]);
      RunsKeepNumbered(initial, actions[..last], before);
      StepKeepsNumbered(before, actions[last]);
    }
  }

  // ---- Main results ----

  /**
   However requests interleave, there is an order of undisturbed lookups in which every request has a place of its own,
   after those that were done when it came, and got what it got; and while no request is half way through storing, the
   cache is what that order leaves behind.
   */
  lemma RunsAreSerial(initial: Cache, actions: seq<Action>, s: State)
    requires Reaches(initial, actions, s)
    ensures Agrees(initial, s.log)
    ensures forall t :: 0 <= t < |s.threads| && s.threads[t].Done? ==>
              WasServed(s.log, s.threads[t].request, s.threads[t].result)
    ensures forall i, j :: 0 <= i < j < |s.log| ==> s.log[i].request.number != s.log[j].request.number
    ensures forall i :: 0 <= i < |s.log| ==> ServedInTime(s, i)
    ensures CanRead(s) ==> s.cache == Replay(initial, s.log)
  {
    RunsKeepInv(initial, actions, s);
    RunsKeepNumbered(initial, actions, s);
    forall t | 0 <= t < |s.threads| && s.threads[t].Done?
      ensures WasServed(s.log, s.threads[t].request, s.threads[t].result)
    {
      assert ThreadIsGood(initial, s, s.threads[t]);
    }
    if CanRead(s) {
      forall u: nat ensures !IsHalfWay(s, u) {
      }
    }
  }

  /** The cached verifier was built from a configuration with the cached key. */
  predicate IsHonest(cache: Cache) {
    cache.verifier.Some? ==>
      cache.verifierConfig == Fingerprint.Of(cache.verifier.value.config)
      && cache.verifier.value == Build(cache.verifier.value.config)
  }

  lemma {:induction false} ReplayIsHonest(initial: Cache, log: seq<Served>)
    requires IsHonest(initial) && forall i :: 0 <= i < |log| ==> IsRequest(log[i].request)
    ensures IsHonest(Replay(initial, log))
  {
    if log != [] {
      var last := log[|log| - 1];
      ReplayIsHonest(initial, log[..|log| - 1]);
      LookupIsHonest(Replay(initial, log[..|log| - 1]), last.request, last.builds);
    }
  }

  lemma ServedIsHonest(initial: Cache, log: seq<Served>, i: nat)
    requires i < |log| && Agrees(initial, log) && IsHonest(initial)
    requires forall k :: 0 <= k < |log| ==> IsRequest(log[k].request)
    ensures log[i].result.Some? ==> IsFor(log[i].result.value, log[i].request)
  {
    assert AgreesAt(initial, log, i);
    ReplayIsHonest(initial, log[..i]);
    LookupIsHonest(Replay(initial, log[..i]), log[i].request, log[i].builds);
  }

  /** The verifier was built from a configuration with the fingerprint asked for. */
  predicate IsFor(v: Verifier, r: Request) {
    v == Build(v.config) && Fingerprint.Of(v.config) == r.fingerprint
  }

  /** In every run a verifier handed out was built from a configuration with the fingerprint of the asker's. */
  lemma CacheIsTransparent(enabled: bool, first: Config, actions: seq<Action>, s: State, t: nat)
    requires Reaches(Initial(enabled, first), actions, s) && forall a :: a in actions ==> AsksHonestly(a)
    requires t < |s.threads| && s.threads[t].Done? && s.threads[t].result.Some?
    ensures IsFor(s.threads[t].result.value, s.threads[t].request) && IsRequest(s.threads[t].request)
  {
    var initial, request := Initial(enabled, first), s.threads[t].request;
    RunsAreSerial(initial, actions, s);
    RunsKeepRequests(initial, actions, s);
    var i :| 0 <= i < |s.log| && s.log[i].request == request && s.log[i].result == s.threads[t].result;
    InitialIsHonest(enabled, first);
    ServedIsHonest(initial, s.log, i);
  }

  lemma InitialIsHonest(enabled: bool, first: Config)
    ensures IsHonest(Initial(enabled, first))
  {
  }

  /** So when no setting of the asker holds a movable bar, the verifier was built from the asker's own settings. */
  lemma CacheGivesOwnSettings(enabled: bool, first: Config, actions: seq<Action>, s: State, t: nat)
    requires Reaches(Initial(enabled, first), actions, s) && forall a :: a in actions ==> AsksHonestly(a)
    requires t < |s.threads| && s.threads[t].Done? && s.threads[t].result.Some?
    requires !Joining.HasMovable(Fingerprint.Parts(s.threads[t].request.config))
    ensures Fingerprint.SameSettings(s.threads[t].request.config, s.threads[t].result.value.config)
  {
    CacheIsTransparent(enabled, first, actions, s, t);
    Fingerprint.KeyTellsIff(s.threads[t].request.config);
  }

  lemma LookupIsHonest(cache: Cache, r: Request, builds: bool)
    requires IsHonest(cache) && IsRequest(r)
    ensures
      var (after, v) := Lookup(cache, r, builds);
      IsHonest(after) && (v.Some? ==> IsFor(v.value, r))
  {
  }

  // ---- The kind of verifier ----

  /**
   The key trims the mode, the choice of the verifier does not. Under equal keys without movable bars two
   configurations get the same kind if and only if blanks surround both modes or neither, or the mode is not
   introspection at all.
   */
  lemma KindsAgreeIff(c: Config, d: Config)
    requires Fingerprint.Of(c) == Fingerprint.Of(d) && !Joining.HasMovable(Fingerprint.Parts(c))
    ensures
      var m, n := c.tokenValidationMode, d.tokenValidationMode;
      KindFor(c) == KindFor(d)
      <==> (Trim(m, GO_SPACE) == "introspection" ==> (IsTrimmed(m, GO_SPACE) <==> IsTrimmed(n, GO_SPACE)))
  {
    var m, n := c.tokenValidationMode, d.tokenValidationMode;
    Fingerprint.KeyTellsIff(c);
    assert Fingerprint.Parts(c)[3] == Fingerprint.Parts(d)[3];
    assert Trim(m, GO_SPACE) == Trim(n, GO_SPACE);
    IntrospectionIff(m);
    IntrospectionIff(n);
  }

  lemma IntrospectionIff(mode: string)
    ensures mode == "introspection" <==> Trim(mode, GO_SPACE) == "introspection" && IsTrimmed(mode, GO_SPACE)
  {
    if IsTrimmed(mode, GO_SPACE) {
      TrimmedStays(mode, GO_SPACE);
    } else {
      assert "introspection"[0] == 'i' && "introspection"[12] == 'n';
    }
  }

  lemma BlankIsTrimmed(s: string)
    requires s != "" && s[0] !in GO_SPACE
    ensures Trim(s + " ", GO_SPACE) == Trim(s, GO_SPACE)
  {
    assert (s + " ")[..|s + " "| - 1] == s;
  }

  /** For any other settings, a blank after the mode gives the other kind of verifier under the same key. */
  lemma BlankInModeChangesKind(c: Config)
    ensures
      var d, e := c.(tokenValidationMode := "introspection"), c.(tokenValidationMode := "introspection ");
      Fingerprint.Of(d) == Fingerprint.Of(e) && KindFor(d) != KindFor(e)
  {
    var d, e := c.(tokenValidationMode := "introspection"), c.(tokenValidationMode := "introspection ");
    var mode := "introspection";
    assert mode[0] == 'i' && mode[12] == 'n';
    TrimmedStays(mode, GO_SPACE);
    BlankIsTrimmed(mode);
    assert "introspection " == mode + " ";
    assert Fingerprint.Parts(d) == Fingerprint.Parts(e);
    assert |d.tokenValidationMode| != |e.tokenValidationMode|;
  }
}
