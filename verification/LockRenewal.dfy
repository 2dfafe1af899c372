/**
 The job worker: a batch of jobs is handled one by one while a second goroutine keeps the lock of the current job.
 Handler, renewer, the cancellation of the parent context and the remote calls take their steps in any order.
 */
module LockRenewal {
  import opened Options

  type Error = string

  /** How the handler returns. `Aborted` is an error that is a cancellation or a missed deadline. */
  datatype Outcome = Succeeded | HandlerFailed | Aborted(error: Error)

  datatype Request = CompleteJob | FailJob

  /** Where the worker's own goroutine is. */
  datatype Main =
    | Activating
    | ActivationFailed
    | BetweenJobs
    | Handling
    | Stopping(outcome: Outcome)    // stopLockRenewer called, cancel() comes next
    | Awaiting(outcome: Outcome)    // <-done
    | Receiving(outcome: Outcome)   // select on errCh
    | Deciding(outcome: Outcome)
    | Requesting(request: Request)
    | Returned(result: Option<Error>)

  /** Where the renewer goroutine is. */
  datatype Renewer =
    | NotStarted
    | Selecting
    | Extending
    | CallFailed(error: Error)      // before it looks at ctx.Err()
    | Sending(error: Error)         // before the send on errCh
    | Cancelling
    | Exited                        // done is closed

  /** What can be seen of a run. `job` is the position in the batch. */
  datatype Event =
    | Started(job: nat)
    | ExtendSent(job: nat)
    | ExtendAnswered(job: nat)
    | RenewalFailed(job: nat, error: Error)   // an extension failed while the job context was live
    | SendDropped(job: nat)                   // the default branch of the send
    | HandlerEnded(job: nat, outcome: Outcome)
    | Requested(job: nat, request: Request)

  datatype Config = Config(renews: bool)

  datatype State = State(
    jobs: nat, index: nat, main: Main, renewer: Renewer,
    parentCanceled: bool, renewCanceled: bool, errCh: seq<Error>, log: seq<Event>)
  {
    /** `ctx.Err() != nil` for the context of the job. */
    predicate JobContextDone() {
      parentCanceled || renewCanceled
    }

    function Log(e: Event): State {
      this.(log := log + [e])
    }
  }

  const INIT := State(0, 0, Activating, NotStarted, false, false, [], [])

  datatype Action =
    | CancelParent
    | Activated(batch: Option<nat>)
    | BeginJob
    | FinishBatch
    | HandlerReturns(outcome: Outcome)
    | StopCancels
    | SeeDone
    | ReceiveError
    | Decide
    | RequestAnswered(error: Option<Error>)
    | RenewerSeesDone
    | Tick
    | ExtendReturns(error: Option<Error>)
    | CheckContext
    | Send
    | RenewerCancels

  predicate Enabled(s: State, a: Action) {
    match a
    case CancelParent => true
    case Activated(_) => s.main == Activating
    case BeginJob => s.main == BetweenJobs && s.index < s.jobs
    case FinishBatch => s.main == BetweenJobs && s.index == s.jobs
    case HandlerReturns(_) => s.main == Handling
    case StopCancels => s.main.Stopping?
    case SeeDone => s.main.Awaiting? && s.renewer == Exited
    case ReceiveError => s.main.Receiving?
    case Decide => s.main.Deciding?
    case RequestAnswered(_) => s.main.Requesting?
    case RenewerSeesDone => s.renewer == Selecting && s.JobContextDone()
    case Tick => s.renewer == Selecting
    case ExtendReturns(_) => s.renewer == Extending
    case CheckContext => s.renewer.CallFailed?
    case Send => s.renewer.Sending?
    case RenewerCancels => s.renewer == Cancelling
  }

  function Do(c: Config, s: State, a: Action): State
    requires Enabled(s, a)
  {
    match a
    case CancelParent => s.(parentCanceled := true)
    case Activated(None) => s.(main := ActivationFailed)
    case Activated(Some(n)) => s.(main := BetweenJobs, jobs := n)
    case BeginJob =>
      s.(main := Handling, renewer := if c.renews then Selecting else NotStarted, renewCanceled := false, errCh := [])
       .Log(Started(s.index))
    case FinishBatch => s.(main := Returned(None))
    case HandlerReturns(outcome) =>
      s.(main := if c.renews then Stopping(outcome) else Deciding(outcome)).Log(HandlerEnded(s.index, outcome))
    case StopCancels => s.(main := Awaiting(s.main.outcome), renewCanceled := true)
    case SeeDone => s.(main := Receiving(s.main.outcome))
    case ReceiveError =>
      if s.errCh != [] then s.(main := Returned(Some(s.errCh[0])), errCh := s.errCh[1..])
      else s.(main := Deciding(s.main.outcome))
    case Decide =>
      (match s.main.outcome
       case Aborted(e) => s.(main := Returned(Some(e)))
       case HandlerFailed => s.(main := Requesting(FailJob)).Log(Requested(s.index, FailJob))
       case Succeeded => s.(main := Requesting(CompleteJob)).Log(Requested(s.index, CompleteJob)))
    case RequestAnswered(error) =>
      if error.Some? then s.(main := Returned(error)) else s.(main := BetweenJobs, index := s.index + 1)
    case RenewerSeesDone => s.(renewer := Exited)
    case Tick => s.(renewer := Extending).Log(ExtendSent(s.index))
    case ExtendReturns(error) =>
      s.(renewer := if error.Some? then CallFailed(error.value) else Selecting).Log(ExtendAnswered(s.index))
    case CheckContext =>
      if s.JobContextDone() then s.(renewer := Exited)
      else s.(renewer := Sending(s.renewer.error)).Log(RenewalFailed(s.index, s.renewer.error))
    case Send =>
      if s.errCh == [] then s.(renewer := Cancelling, errCh := [s.renewer.error])
      else s.(renewer := Cancelling).Log(SendDropped(s.index))
    case RenewerCancels => s.(renewer := Exited, renewCanceled := true)
  }

  /** The state after these actions, when each is possible at its turn. */
  ghost predicate Reaches(c: Config, actions: seq<Action>, s: State) {
    if actions == [] then s == INIT
    else
      var last := |actions| - 1;
      exists before :: Reaches(c, actions[..last], before) && Enabled(before, actions[last])
                       && s == Do(c, before, actions[last])
  }

  // ---- What every step keeps ----

  /** The current job has begun. */
  predicate InJob(s: State) {
    match s.main
    case Activating | ActivationFailed | BetweenJobs => false
    case Returned(r) => r.Some?
    case _ => true
  }

  ghost predicate Control(c: Config, s: State) {
    Places(c, s) && Channel(s)
  }

  /** Where the two goroutines can be at the same time. */
  ghost predicate Places(c: Config, s: State) {
    && s.index <= s.jobs && (InJob(s) ==> s.index < s.jobs)
    && (s.main == Activating ==> s.index == 0)
    && (s.main == Returned(None) ==> s.index == s.jobs)
    && (!c.renews ==> s.renewer == NotStarted && !s.main.Stopping? && !s.main.Awaiting? && !s.main.Receiving?)
    && (!InJob(s) || s.main.Receiving? || s.main.Deciding? || s.main.Requesting? || s.main.Returned? ==>
          s.renewer == NotStarted || s.renewer == Exited)
    && (c.renews && InJob(s) ==> s.renewer != NotStarted)
    && (c.renews && (s.main.Awaiting? || s.main.Receiving?) ==> s.renewCanceled)
  }

  /** When the error channel is empty. */
  ghost predicate Channel(s: State) {
    && |s.errCh| <= 1
    && (s.renewer != Cancelling && s.renewer != Exited ==> s.errCh == [])
    && (!InJob(s) || s.main.Deciding? || s.main.Requesting? || s.main.Returned? ==> s.errCh == [])
  }

  /** What the log says of the current job agrees with where the two goroutines are. */
  ghost predicate CurrentJob(s: State) {
    JobsKnown(s) && RequestKnown(s) && EndKnown(s) && FailureKnown(s)
    && (s.renewer != Extending ==> AllAnswered(s.log, s.index))
  }

  ghost predicate JobsKnown(s: State) {
    && (forall e :: e in s.log ==> JobKnown(s, e))
    && (InJob(s) ==> Started(s.index) in s.log)
  }

  ghost predicate RequestKnown(s: State) {
    forall r :: Requested(s.index, r) in s.log ==> s.main == Requesting(r) || s.main.Returned?
  }

  ghost predicate EndKnown(s: State) {
    forall o :: HandlerEnded(s.index, o) in s.log ==> HasEnded(s, o)
  }

  ghost predicate FailureKnown(s: State) {
    forall e :: RenewalFailed(s.index, e) in s.log ==> FailureIsKept(s, e)
  }

  predicate HasEnded(s: State, o: Outcome) {
    match s.main
    case Stopping(p) => p == o
    case Awaiting(p) => p == o
    case Receiving(p) => p == o
    case Deciding(p) => p == o
    case Requesting(r) => !o.Aborted? && r == RequestFor(o)
    case Returned(_) => true
    case _ => false
  }

  /** The error is about to be sent, is in the channel, or is what the worker returned. */
  predicate FailureIsKept(s: State, e: Error) {
    if s.renewer.Sending? then s.renewer.error == e
    else (s.renewer == Cancelling || s.renewer == Exited) && (s.errCh == [e] || s.main == Returned(Some(e)))
  }

  function RequestFor(o: Outcome): Request {
    if o == HandlerFailed then FailJob else CompleteJob
  }

  ghost predicate Answered(log: seq<Event>, p: nat) {
    exists j :: p < j < |log| && p < |log| && log[j] == ExtendAnswered(log[p].job)
  }

  ghost predicate AllAnswered(log: seq<Event>, job: nat) {
    forall p: nat :: p < |log| && log[p] == ExtendSent(job) ==> Answered(log, p)
  }

  // ---- What is true of the log of every run ----

  /** Jobs are handled in the order of the batch, and each begins with its handler being called. */
  ghost predicate InOrder(log: seq<Event>) {
    && (forall p, q :: 0 <= p < q < |log| ==> log[p].job <= log[q].job)
    && (forall e :: e in log ==> Started(e.job) in log)
  }

  /** After the request for a job nothing else happens to it: no second request, no extension, no late answer. */
  ghost predicate RequestIsLast(log: seq<Event>) {
    forall p, q :: 0 <= p < q < |log| && log[p].Requested? ==> log[p].job < log[q].job
  }

  /** When the request for a job is sent, every extension of its lock has been answered. */
  ghost predicate NoneInFlight(log: seq<Event>) {
    forall p, q :: 0 <= p < q < |log| && log[p].ExtendSent? && log[q].Requested? && log[q].job == log[p].job ==>
      AnsweredBetween(log, p, q)
  }

  ghost predicate AnsweredBetween(log: seq<Event>, p: nat, q: nat) {
    exists j :: p < j < q < |log| && log[j] == ExtendAnswered(log[p].job)
  }

  /** The request tells how the handler ended, and a handler that was aborted sends none. */
  ghost predicate RequestTellsOutcome(log: seq<Event>) {
    forall n, o, r :: HandlerEnded(n, o) in log && Requested(n, r) in log ==> !o.Aborted? && r == RequestFor(o)
  }

  /** A renewal that failed while the job was live leaves the job without request. */
  ghost predicate FailureBlocksRequest(log: seq<Event>) {
    forall n, e, r :: RenewalFailed(n, e) in log ==> Requested(n, r) !in log
  }

  /** At most one renewal failure per job; its error always fits into the channel. */
  ghost predicate OneFailurePerJob(log: seq<Event>) {
    && (forall p, q :: 0 <= p < q < |log| && log[p].RenewalFailed? && log[q].RenewalFailed? ==> log[p].job < log[q].job)
    && (forall n :: SendDropped(n) !in log)
  }

  ghost predicate LogIsGood(log: seq<Event>) {
    && InOrder(log) && RequestIsLast(log) && NoneInFlight(log) && RequestTellsOutcome(log)
    && FailureBlocksRequest(log) && OneFailurePerJob(log)
  }

  ghost predicate Inv(c: Config, s: State) {
    Control(c, s) && CurrentJob(s) && LogIsGood(s.log)
  }

  lemma StepKeepsControl(c: Config, s: State, a: Action)
    requires Inv(c, s) && Enabled(s, a)
    ensures Control(c, Do(c, s, a))
  {
    StepKeepsPlaces(c, s, a);
    StepKeepsChannel(c, s, a);
  }

  lemma StepKeepsPlaces(c: Config, s: State, a: Action)
    requires Places(c, s) && Enabled(s, a)
    ensures Places(c, Do(c, s, a))
  {
  }

  lemma StepKeepsChannel(c: Config, s: State, a: Action)
    requires Places(c, s) && Channel(s) && Enabled(s, a)
    ensures Channel(Do(c, s, a))
  {
  }

  lemma AppendKeepsAnswers(log: seq<Event>, e: Event, job: nat)
    requires AllAnswered(log, job) && e != ExtendSent(job)
    ensures AllAnswered(log + [e], job)
  {
    var after := log + [e];
    forall p: nat | p < |after| && after[p] == ExtendSent(job) ensures Answered(after, p) {
      assert log[p] == after[p] && Answered(log, p);
      var j :| p < j < |log| && log[j] == ExtendAnswered(log[p].job);
      assert after[j] == log[j];
    }
  }

  lemma AnswerAnswersAll(log: seq<Event>, job: nat)
    ensures AllAnswered(log + [ExtendAnswered(job)], job)
  {
    var after := log + [ExtendAnswered(job)];
    forall p: nat | p < |after| && after[p] == ExtendSent(job) ensures Answered(after, p) {
      assert after[|log|] == ExtendAnswered(after[p].job);
    }
  }

  /** What a step adds to the log. */
  function Logged(c: Config, s: State, a: Action): seq<Event>
    requires Enabled(s, a)
  {
    match a
    case BeginJob => [Started(s.index)]
    case HandlerReturns(outcome) => [HandlerEnded(s.index, outcome)]
    case Decide => if s.main.outcome.Aborted? then [] else [Requested(s.index, RequestFor(s.main.outcome))]
    case Tick => [ExtendSent(s.index)]
    case ExtendReturns(_) => [ExtendAnswered(s.index)]
    case CheckContext => if s.JobContextDone() then [] else [RenewalFailed(s.index, s.renewer.error)]
    case Send => if s.errCh == [] then [] else [SendDropped(s.index)]
    case _ => []
  }

  lemma DoLogs(c: Config, s: State, a: Action)
    requires Places(c, s) && Enabled(s, a)
    ensures
      var t := Do(c, s, a);
      && t.log == s.log + Logged(c, s, a)
      && (t.index == s.index || (Logged(c, s, a) == [] && t.index == s.index + 1))
      && (t.renewer != Extending && s.renewer == Extending ==> Logged(c, s, a) == [ExtendAnswered(s.index)])
      && (t.renewer != Extending ==> Logged(c, s, a) != [ExtendSent(s.index)])
  {
  }

  lemma StepKeepsAnswers(c: Config, s: State, a: Action)
    requires Places(c, s) && JobsKnown(s) && Enabled(s, a)
    requires s.renewer != Extending ==> AllAnswered(s.log, s.index)
    ensures var t := Do(c, s, a); t.renewer != Extending ==> AllAnswered(t.log, t.index)
  {
    var t, logged := Do(c, s, a), Logged(c, s, a);
    DoLogs(c, s, a);
    if t.renewer != Extending {
      if t.index == s.index + 1 {
        forall p: nat | p < |t.log| ensures t.log[p] != ExtendSent(t.index) {
          assert JobKnown(s, s.log[p]);
        }
      } else if logged == [ExtendAnswered(s.index)] {
        AnswerAnswersAll(s.log, s.index);
      } else if logged != [] {
        AppendKeepsAnswers(s.log, logged[0], s.index);
      }
    }
  }

  predicate JobKnown(s: State, e: Event) {
    if InJob(s) then e.job <= s.index else e.job < s.index
  }

  lemma StepKeepsJobsKnown(c: Config, s: State, a: Action)
    requires Control(c, s) && JobsKnown(s) && Enabled(s, a)
    ensures JobsKnown(Do(c, s, a))
  {
    var t := Do(c, s, a);
    forall e | e in t.log ensures JobKnown(t, e) {
      StepKeepsJobKnown(c, s, a, e);
    }
    StepKeepsStarted(c, s, a);
  }

  lemma StepKeepsJobKnown(c: Config, s: State, a: Action, e: Event)
    requires Control(c, s) && Enabled(s, a) && e in Do(c, s, a).log && (e in s.log ==> JobKnown(s, e))
    ensures JobKnown(Do(c, s, a), e)
  {
  }

  lemma StepKeepsStarted(c: Config, s: State, a: Action)
    requires Control(c, s) && Enabled(s, a) && (InJob(s) ==> Started(s.index) in s.log)
    ensures var t := Do(c, s, a); InJob(t) ==> Started(t.index) in t.log
  {
  }

  lemma StepKeepsRequestKnown(c: Config, s: State, a: Action)
    requires Control(c, s) && JobsKnown(s) && RequestKnown(s) && Enabled(s, a)
    ensures RequestKnown(Do(c, s, a))
  {
  }

  lemma StepKeepsEndKnown(c: Config, s: State, a: Action)
    requires Control(c, s) && JobsKnown(s) && EndKnown(s) && Enabled(s, a)
    ensures EndKnown(Do(c, s, a))
  {
    var t := Do(c, s, a);
    forall o | HandlerEnded(t.index, o) in t.log ensures HasEnded(t, o) {
      if HandlerEnded(t.index, o) in s.log {
        StepKeepsEnd(c, s, a, o);
      }
    }
  }

  lemma StepKeepsEnd(c: Config, s: State, a: Action, o: Outcome)
    requires Control(c, s) && JobsKnown(s) && Enabled(s, a)
    requires HandlerEnded(Do(c, s, a).index, o) in s.log && (HandlerEnded(s.index, o) in s.log ==> HasEnded(s, o))
    ensures HasEnded(Do(c, s, a), o)
  {
  }

  lemma StepKeepsFailureKnown(c: Config, s: State, a: Action)
    requires Control(c, s) && JobsKnown(s) && FailureKnown(s) && Enabled(s, a)
    ensures FailureKnown(Do(c, s, a))
  {
    var t := Do(c, s, a);
    forall e | RenewalFailed(t.index, e) in t.log ensures FailureIsKept(t, e) {
      if RenewalFailed(t.index, e) in s.log {
        StepKeepsFailure(c, s, a, e);
      }
    }
  }

  lemma StepKeepsFailure(c: Config, s: State, a: Action, e: Error)
    requires Control(c, s) && JobsKnown(s) && Enabled(s, a)
    requires RenewalFailed(Do(c, s, a).index, e) in s.log
    requires RenewalFailed(s.index, e) in s.log ==> FailureIsKept(s, e)
    ensures FailureIsKept(Do(c, s, a), e)
  {
  }

  /** What has to be known of an event for the log to stay good. */
  ghost predicate Fits(s: State, e: Event) {
    && e.job == s.index && !e.SendDropped?
    && (forall d :: d in s.log ==> d.job <= s.index)
    && (Started(s.index) in s.log || e == Started(s.index))
    && (forall r :: Requested(s.index, r) !in s.log)
    && (e.Requested? ==> FitsRequest(s, e.request))
    && (e.RenewalFailed? || e.Requested? ==> forall f :: RenewalFailed(s.index, f) !in s.log)
  }

  ghost predicate FitsRequest(s: State, r: Request) {
    && AllAnswered(s.log, s.index)
    && forall o :: HandlerEnded(s.index, o) in s.log ==> !o.Aborted? && r == RequestFor(o)
  }

  lemma StepLogsInJob(c: Config, s: State, a: Action)
    requires Control(c, s) && CurrentJob(s) && Enabled(s, a) && Logged(c, s, a) != []
    ensures
      var e := Logged(c, s, a)[0];
      && e.job == s.index && !e.SendDropped?
      && (Started(s.index) in s.log || e == Started(s.index))
      && !s.main.Requesting? && !s.main.Returned?
      && (e.RenewalFailed? ==> s.renewer.CallFailed?)
      && (e.Requested? ==> s.main.Deciding? && !s.main.outcome.Aborted? && e.request == RequestFor(s.main.outcome)
                           && (s.renewer == NotStarted || s.renewer == Exited) && s.errCh == [])
  {
  }

  lemma StepLogsWhatFits(c: Config, s: State, a: Action)
    requires Control(c, s) && CurrentJob(s) && Enabled(s, a) && Logged(c, s, a) != []
    ensures Fits(s, Logged(c, s, a)[0])
  {
    var e := Logged(c, s, a)[0];
    StepLogsInJob(c, s, a);
    forall d | d in s.log ensures d.job <= s.index {
      assert JobKnown(s, d);
    }
    if e.RenewalFailed? || e.Requested? {
      forall f ensures RenewalFailed(s.index, f) !in s.log {
        assert RenewalFailed(s.index, f) in s.log ==> FailureIsKept(s, f);
      }
    }
    if e.Requested? {
      forall o | HandlerEnded(s.index, o) in s.log ensures !o.Aborted? && e.request == RequestFor(o) {
        assert HasEnded(s, o);
      }
    }
  }

  lemma FittingKeepsOrder(s: State, e: Event)
    requires LogIsGood(s.log) && Fits(s, e)
    ensures InOrder(s.log + [e])
  {
    var after := s.log + [e];
    assert forall p :: 0 <= p < |s.log| ==> after[p] == s.log[p] && s.log[p] in s.log;
  }

  lemma FittingKeepsRequestLast(s: State, e: Event)
    requires RequestIsLast(s.log) && Fits(s, e)
    ensures RequestIsLast(s.log + [e])
  {
    var after := s.log + [e];
    forall p, q | 0 <= p < q < |after| && after[p].Requested? ensures after[p].job < after[q].job {
      assert after[p] == s.log[p] && s.log[p] in s.log;
      if q == |s.log| {
        assert after[p] == Requested(after[p].job, after[p].request);
      }
    }
  }

  lemma FittingKeepsOneFailure(s: State, e: Event)
    requires OneFailurePerJob(s.log) && Fits(s, e)
    ensures OneFailurePerJob(s.log + [e])
  {
    var after := s.log + [e];
    forall p, q | 0 <= p < q < |after| && after[p].RenewalFailed? && after[q].RenewalFailed?
      ensures after[p].job < after[q].job
    {
      assert after[p] == s.log[p] && s.log[p] in s.log;
      if q == |s.log| {
        assert after[p] == RenewalFailed(after[p].job, after[p].error);
      }
    }
  }

  lemma FittingKeepsNoneInFlight(s: State, e: Event)
    requires LogIsGood(s.log) && Fits(s, e)
    ensures NoneInFlight(s.log + [e])
  {
    var after := s.log + [e];
    forall p, q | 0 <= p < q < |after| && after[p].ExtendSent? && after[q].Requested? && after[q].job == after[p].job
      ensures AnsweredBetween(after, p, q)
    {
      if q < |s.log| {
        assert AnsweredBetween(s.log, p, q);
        var j :| p < j < q && s.log[j] == ExtendAnswered(s.log[p].job);
        assert after[j] == s.log[j];
      } else {
        assert Answered(s.log, p);
        var j :| p < j < |s.log| && s.log[j] == ExtendAnswered(s.log[p].job);
        assert after[j] == s.log[j];
      }
    }
  }

  lemma FittingKeepsOutcomes(s: State, e: Event)
    requires RequestTellsOutcome(s.log) && Fits(s, e)
    ensures RequestTellsOutcome(s.log + [e])
  {
  }

  lemma FittingKeepsFailureBlocks(s: State, e: Event)
    requires FailureBlocksRequest(s.log) && Fits(s, e)
    ensures FailureBlocksRequest(s.log + [e])
  {
  }

  lemma StepKeepsInv(c: Config, s: State, a: Action)
    requires Inv(c, s) && Enabled(s, a)
    ensures Inv(c, Do(c, s, a))
  {
    StepKeepsControl(c, s, a);
    StepKeepsJobsKnown(c, s, a);
    StepKeepsRequestKnown(c, s, a);
    StepKeepsEndKnown(c, s, a);
    StepKeepsFailureKnown(c, s, a);
    StepKeepsAnswers(c, s, a);
    DoLogs(c, s, a);
    if Logged(c, s, a) != [] {
      var e := Logged(c, s, a)[0];
      StepLogsWhatFits(c, s, a);
      assert Logged(c, s, a) == [e];
      FittingKeepsOrder(s, e);
      FittingKeepsRequestLast(s, e);
      FittingKeepsOneFailure(s, e);
      FittingKeepsNoneInFlight(s, e);
      FittingKeepsOutcomes(s, e);
      FittingKeepsFailureBlocks(s, e);
    } else {
      assert Do(c, s, a).log == s.log;
    }
  }

  lemma {:induction false} RunsKeepInv(c: Config, actions: seq<Action>, s: State)
    requires Reaches(c, actions, s)
    ensures Inv(c, s)
  {
    if actions == [] {
    } else {
      var last := |actions| - 1;
      var before :| Reaches(c, actions[..last], before) && Enabled(before, actions[last])
                    && s == Do(c, before, actions[last]);
      RunsKeepInv(c, actions[..last], before);
      StepKeepsInv(c, before, actions[last]);
    }
  }

  // ---- Main results ----

  /**
   In every run the log is good: extensions and requests keep out of each other's way, each job gets at most one
   request, and none after an aborted handler or a renewal failure.
   */
  lemma EveryRunIsGood(c: Config, actions: seq<Action>, s: State)
    requires Reaches(c, actions, s)
    ensures LogIsGood(s.log)
  {
    RunsKeepInv(c, actions, s);
  }

  /** A renewal failure seen while the job was live is what the worker returns, whatever the handler did. */
  lemma RenewalFailureIsReturned(c: Config, actions: seq<Action>, s: State, n: nat, e: Error)
    requires Reaches(c, actions, s) && RenewalFailed(n, e) in s.log
    ensures s.index == n && InJob(s)
    ensures s.main.Returned? ==> s.main == Returned(Some(e))
    ensures !s.main.Deciding? && !s.main.Requesting?
  {
    RunsKeepFailures(c, actions, s, n, e);
    RunsKeepInv(c, actions, s);
  }

  /** The job whose renewal failed stays the current one. */
  lemma StepKeepsFailedJob(c: Config, s: State, a: Action, n: nat, e: Error)
    requires Inv(c, s) && Enabled(s, a) && RenewalFailed(n, e) in Do(c, s, a).log
    requires RenewalFailed(n, e) in s.log ==> s.index == n && InJob(s)
    ensures Do(c, s, a).index == n && InJob(Do(c, s, a))
  {
    if RenewalFailed(n, e) in s.log {
      assert FailureIsKept(s, e);
    }
  }

  lemma {:induction false} RunsKeepFailures(c: Config, actions: seq<Action>, s: State, n: nat, e: Error)
    requires Reaches(c, actions, s) && RenewalFailed(n, e) in s.log
    ensures s.index == n && InJob(s)
  {
    if actions == [] {
    } else {
      var last := |actions| - 1;
      var before :| Reaches(c, actions[..last], before) && Enabled(before, actions[last])
                    && s == Do(c, before, actions[last]);
      RunsKeepInv(c, actions[..last], before);
      if RenewalFailed(n, e) in before.log {
        RunsKeepFailures(c, actions[..last], before, n, e);
      }
      StepKeepsFailedJob(c, before, actions[last], n, e);
    }
  }

  ghost predicate WasRequested(log: seq<Event>, n: nat) {
    exists r :: Requested(n, r) in log
  }

  /** Every job before the current one was started and got its request. */
  ghost predicate EarlierJobsAreDone(s: State) {
    && (s.main.Requesting? ==> WasRequested(s.log, s.index))
    && forall n: nat :: n < s.index ==> Started(n) in s.log && WasRequested(s.log, n)
  }

  lemma StepKeepsEarlierJobsDone(c: Config, s: State, a: Action)
    requires Inv(c, s) && Enabled(s, a) && EarlierJobsAreDone(s)
    ensures EarlierJobsAreDone(Do(c, s, a))
  {
    var t := Do(c, s, a);
    StepMovesOn(c, s, a);
    forall n: nat | n < t.index ensures Started(n) in t.log && WasRequested(t.log, n) {
      assert WasRequested(s.log, n);
      var r :| Requested(n, r) in s.log;
      assert Requested(n, r) in t.log;
    }
    if t.main.Requesting? {
      if s.main.Requesting? {
        var r :| Requested(s.index, r) in s.log;
        assert Requested(t.index, r) in t.log;
      } else {
        assert Requested(t.index, t.main.request) in t.log;
      }
    }
  }

  /** A step leads on to the next job only when the request for the current one has been answered. */
  lemma StepMovesOn(c: Config, s: State, a: Action)
    requires Inv(c, s) && Enabled(s, a)
    ensures
      var t := Do(c, s, a);
      && (forall e :: e in s.log ==> e in t.log)
      && (t.index == s.index || (t.index == s.index + 1 && s.main.Requesting? && Started(s.index) in s.log))
      && (t.main.Requesting? ==>
            t.index == s.index && (s.main.Requesting? || Requested(t.index, t.main.request) in t.log))
  {
  }

  lemma {:induction false} RunsKeepEarlierJobsDone(c: Config, actions: seq<Action>, s: State)
    requires Reaches(c, actions, s)
    ensures EarlierJobsAreDone(s)
  {
    if actions == [] {
    } else {
      var last := |actions| - 1;
      var before :| Reaches(c, actions[..last], before) && Enabled(before, actions[last])
                    && s == Do(c, before, actions[last]);
      RunsKeepInv(c, actions[..last], before);
      RunsKeepEarlierJobsDone(c, actions[..last], before);
      StepKeepsEarlierJobsDone(c, before, actions[last]);
    }
  }

  /**
   The worker handles a prefix of the batch, in order: the jobs that were started are those up to the current one,
   each job before it got its request, and the worker returns without error only at the end of the batch.
   */
  lemma BatchIsHandledInOrder(c: Config, actions: seq<Action>, s: State)
    requires Reaches(c, actions, s)
    ensures s.main == Returned(None) ==> s.index == s.jobs
    ensures s.index <= s.jobs
    ensures forall n: nat :: Started(n) in s.log <==> n < s.index || (n == s.index && InJob(s))
    ensures forall n: nat :: n < s.index ==> WasRequested(s.log, n)
  {
    RunsKeepInv(c, actions, s);
    RunsKeepEarlierJobsDone(c, actions, s);
  }

  /** The worker never waits for good: some step other than a cancellation or a tick is always possible. */
  lemma NeverStuck(c: Config, actions: seq<Action>, s: State)
    requires Reaches(c, actions, s) && !s.main.Returned? && s.main != ActivationFailed
    ensures exists a :: Enabled(s, a) && a != CancelParent && a != Tick
  {
    RunsKeepInv(c, actions, s);
    var a := match s.main
      case Activating => Activated(Some(0))
      case BetweenJobs => if s.index < s.jobs then BeginJob else FinishBatch
      case Handling => HandlerReturns(Succeeded)
      case Stopping(_) => StopCancels
      case Awaiting(_) =>
        (match s.renewer
         case Selecting => RenewerSeesDone
         case Extending => ExtendReturns(None)
         case CallFailed(_) => CheckContext
         case Sending(_) => Send
         case Cancelling => RenewerCancels
         case _ => SeeDone)
      case Receiving(_) => ReceiveError
      case Deciding(_) => Decide
      case _ => RequestAnswered(None);
    assert Enabled(s, a);
  }
}
