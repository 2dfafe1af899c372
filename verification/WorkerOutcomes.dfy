/**
 How a run of the worker ends, told by its actions: what is returned and where it comes from, what a failed request
 stops, and what cannot fail any more once the context of a job is done.
 */
module WorkerOutcomes {
  import opened Options
  import opened LockRenewal

  // ---- Once the worker has returned ----

  /** These actions lead from one state to another. */
  ghost predicate Leads(c: Config, s: State, actions: seq<Action>, t: State) {
    if actions == [] then t == s
    else
      var last := |actions| - 1;
      exists before :: Leads(c, s, actions[..last], before) && Enabled(before, actions[last])
                       && t == Do(c, before, actions[last])
  }

  lemma ReturnedStays(c: Config, s: State, a: Action)
    requires s.main.Returned? && Enabled(s, a)
    ensures Do(c, s, a).main == s.main && Do(c, s, a).index == s.index && a != BeginJob && !a.RequestAnswered?
  {
  }

  /** Some request was answered with this error, and no job is begun after that. */
  ghost predicate FailedRequestEnds(actions: seq<Action>, e: Error, i: nat) {
    && i < |actions| && actions[i] == RequestAnswered(Some(e))
    && forall j :: i < j < |actions| ==> actions[j] != BeginJob && !actions[j].RequestAnswered?
  }

  lemma FailedAnswerReturns(c: Config, s: State, e: Error)
    requires Enabled(s, RequestAnswered(Some(e)))
    ensures Do(c, s, RequestAnswered(Some(e))).main == Returned(Some(e))
  {
  }

  lemma OneMoreEnds(actions: seq<Action>, a: Action, e: Error, i: nat)
    requires FailedRequestEnds(actions, e, i) && a != BeginJob && !a.RequestAnswered?
    ensures FailedRequestEnds(actions + [a], e, i)
  {
  }

  /** When a request is answered with an error, the worker has returned that error, and never begins another job. */
  lemma {:induction false} FailedRequestIsReturned(c: Config, actions: seq<Action>, s: State, i: nat, e: Error)
    requires Reaches(c, actions, s) && i < |actions| && actions[i] == RequestAnswered(Some(e))
    ensures s.main == Returned(Some(e)) && FailedRequestEnds(actions, e, i)
    decreases |actions|
  {
    var last := |actions| - 1;
    var early, a := actions[..last], actions[last];
    var before :| Reaches(c, early, before) && Enabled(before, a) && s == Do(c, before, a);
    if i == last {
      FailedAnswerReturns(c, before, e);
    } else {
      assert early[i] == actions[i];
      FailedRequestIsReturned(c, early, before, i, e);
      ReturnedStays(c, before, a);
      assert actions == early + [a];
      OneMoreEnds(early, a, e, i);
    }
  }

  // ---- Every job got an answer ----

  /** At this place of the run the request for the job is answered without error. */
  ghost predicate IsAnsweredAt(c: Config, actions: seq<Action>, i: nat, n: nat) {
    && i < |actions| && actions[i] == RequestAnswered(None)
    && exists before :: Reaches(c, actions[..i], before) && before.index == n && before.main.Requesting?
                        && Requested(n, before.main.request) in before.log
  }

  ghost predicate IsAnswered(c: Config, actions: seq<Action>, n: nat) {
    exists i: nat :: IsAnsweredAt(c, actions, i, n)
  }

  lemma AnswerStays(c: Config, actions: seq<Action>, a: Action, n: nat)
    requires IsAnswered(c, actions, n)
    ensures IsAnswered(c, actions + [a], n)
  {
    var i: nat :| IsAnsweredAt(c, actions, i, n);
    assert (actions + [a])[..i] == actions[..i];
    assert IsAnsweredAt(c, actions + [a], i, n);
  }

  /** The request that is on its way is the one that was logged. */
  ghost predicate RequestIsLogged(s: State) {
    s.main.Requesting? ==> Requested(s.index, s.main.request) in s.log
  }

  lemma StepKeepsRequestLogged(c: Config, s: State, a: Action)
    requires RequestIsLogged(s) && Enabled(s, a)
    ensures RequestIsLogged(Do(c, s, a))
    ensures Do(c, s, a).index == if a == RequestAnswered(None) then s.index + 1 else s.index
  {
  }

  /** The requests for the first `k` jobs are answered. */
  ghost predicate AreAnswered(c: Config, actions: seq<Action>, k: nat) {
    forall n: nat :: n < k ==> IsAnswered(c, actions, n)
  }

  lemma AnswersStay(c: Config, actions: seq<Action>, a: Action, k: nat)
    requires AreAnswered(c, actions, k)
    ensures AreAnswered(c, actions + [a], k)
  {
    forall n: nat | n < k ensures IsAnswered(c, actions + [a], n) {
      AnswerStays(c, actions, a, n);
    }
  }

  lemma StepAnswers(c: Config, actions: seq<Action>, s: State, a: Action)
    requires Reaches(c, actions, s) && Enabled(s, a) && RequestIsLogged(s) && AreAnswered(c, actions, s.index)
    ensures AreAnswered(c, actions + [a], Do(c, s, a).index)
  {
    AnswersStay(c, actions, a, s.index);
    StepKeepsRequestLogged(c, s, a);
    if a == RequestAnswered(None) {
      AnsweredNow(c, actions, s);
      OneMoreAnswered(c, actions + [a], s.index);
    }
  }

  lemma OneMoreAnswered(c: Config, actions: seq<Action>, k: nat)
    requires AreAnswered(c, actions, k) && IsAnswered(c, actions, k)
    ensures AreAnswered(c, actions, k + 1)
  {
  }

  lemma {:induction false} EarlierAreAnswered(c: Config, actions: seq<Action>, s: State)
    requires Reaches(c, actions, s)
    ensures RequestIsLogged(s) && AreAnswered(c, actions, s.index)
  {
    if actions == [] {
    } else {
      var last := |actions| - 1;
      var early, a := actions[..last], actions[last];
      var before :| Reaches(c, early, before) && Enabled(before, a) && s == Do(c, before, a);
      EarlierAreAnswered(c, early, before);
      StepKeepsRequestLogged(c, before, a);
      StepAnswers(c, early, before, a);
      assert actions == early + [a];
    }
  }

  lemma AnsweredNow(c: Config, actions: seq<Action>, s: State)
    requires Reaches(c, actions, s) && RequestIsLogged(s) && s.main.Requesting?
    ensures IsAnswered(c, actions + [RequestAnswered(None)], s.index)
  {
    var all := actions + [RequestAnswered(None)];
    assert all[..|actions|] == actions;
    assert IsAnsweredAt(c, all, |actions|, s.index);
  }

  // ---- Where a returned error comes from ----

  /** A renewal failure of the current job, the error of its aborted handler, or the answer to its request. */
  ghost predicate IsAccounted(actions: seq<Action>, s: State, e: Error) {
    || RenewalFailed(s.index, e) in s.log
    || HandlerEnded(s.index, Aborted(e)) in s.log
    || (RequestAnswered(Some(e)) in actions && exists r :: Requested(s.index, r) in s.log)
  }

  /** Errors on their way through the worker. */
  ghost predicate ErrorsAreKnown(actions: seq<Action>, s: State) {
    && (s.renewer.Sending? ==> RenewalFailed(s.index, s.renewer.error) in s.log)
    && (forall e :: e in s.errCh ==> RenewalFailed(s.index, e) in s.log)
    && OutcomeIsKnown(s)
    && (s.main.Returned? && s.main.result.Some? ==> IsAccounted(actions, s, s.main.result.value))
  }

  ghost predicate OutcomeIsKnown(s: State) {
    match s.main
    case Stopping(o) => HandlerEnded(s.index, o) in s.log
    case Awaiting(o) => HandlerEnded(s.index, o) in s.log
    case Receiving(o) => HandlerEnded(s.index, o) in s.log
    case Deciding(o) => HandlerEnded(s.index, o) in s.log
    case _ => true
  }

  lemma StepKeepsSent(c: Config, s: State, a: Action)
    requires Control(c, s) && Enabled(s, a)
    requires s.renewer.Sending? ==> RenewalFailed(s.index, s.renewer.error) in s.log
    requires forall e :: e in s.errCh ==> RenewalFailed(s.index, e) in s.log
    ensures
      var t := Do(c, s, a);
      && (t.renewer.Sending? ==> RenewalFailed(t.index, t.renewer.error) in t.log)
      && (forall e :: e in t.errCh ==> RenewalFailed(t.index, e) in t.log)
  {
  }

  lemma StepKeepsOutcomeKnown(c: Config, s: State, a: Action)
    requires OutcomeIsKnown(s) && Enabled(s, a)
    ensures OutcomeIsKnown(Do(c, s, a))
  {
  }

  lemma StepAccounts(c: Config, actions: seq<Action>, s: State, a: Action)
    requires ErrorsAreKnown(actions, s) && RequestIsLogged(s) && Enabled(s, a)
    ensures
      var t := Do(c, s, a);
      t.main.Returned? && t.main.result.Some? ==> IsAccounted(actions + [a], t, t.main.result.value)
  {
    var t := Do(c, s, a);
    if t.main.Returned? && t.main.result.Some? {
      if s.main.Returned? {
        assert IsAccounted(actions, s, s.main.result.value);
        assert forall e :: e in s.log ==> e in t.log;
      } else if a.RequestAnswered? {
        assert Requested(t.index, s.main.request) in t.log;
        assert a in actions + [a];
      } else if a.ReceiveError? {
        assert s.errCh[0] in s.errCh;
      }
    }
  }

  lemma {:induction false} RunsAccount(c: Config, actions: seq<Action>, s: State)
    requires Reaches(c, actions, s)
    ensures ErrorsAreKnown(actions, s)
  {
    if actions == [] {
    } else {
      var last := |actions| - 1;
      var early, a := actions[..last], actions[last];
      var before :| Reaches(c, early, before) && Enabled(before, a) && s == Do(c, before, a);
      RunsKeepInv(c, early, before);
      RunsAccount(c, early, before);
      EarlierAreAnswered(c, early, before);
      StepKeepsSent(c, before, a);
      StepKeepsOutcomeKnown(c, before, a);
      StepAccounts(c, early, before, a);
      assert actions == early + [a];
    }
  }

  // ---- Main results ----

  /**
   The worker returns without error only when every job of the batch got its request and each request was answered
   without error; and each job that was left behind on the way was.
   */
  lemma ReturnsNoneWhenAllAreAnswered(c: Config, actions: seq<Action>, s: State)
    requires Reaches(c, actions, s)
    ensures AreAnswered(c, actions, s.index)
    ensures s.main == Returned(None) ==>
      AreAnswered(c, actions, s.jobs) && forall e :: RequestAnswered(Some(e)) !in actions
  {
    EarlierAreAnswered(c, actions, s);
    BatchIsHandledInOrder(c, actions, s);
    if s.main == Returned(None) {
      forall e ensures RequestAnswered(Some(e)) !in actions {
        if RequestAnswered(Some(e)) in actions {
          var i :| 0 <= i < |actions| && actions[i] == RequestAnswered(Some(e));
          FailedRequestIsReturned(c, actions, s, i, e);
        }
      }
    }
  }

  /**
   An error that the worker returns is a renewal failure of the job it had come to, the error of that job's aborted
   handler, or the answer to that job's request.
   */
  lemma ReturnedErrorIsAccounted(c: Config, actions: seq<Action>, s: State, e: Error)
    requires Reaches(c, actions, s) && s.main == Returned(Some(e))
    ensures IsAccounted(actions, s, e)
  {
    RunsAccount(c, actions, s);
  }

  /** An aborted handler's error is what the worker returns, unless its lock was lost. */
  lemma AbortIsReturned(c: Config, actions: seq<Action>, s: State, n: nat, e: Error)
    requires Reaches(c, actions, s) && HandlerEnded(n, Aborted(e)) in s.log && s.main.Returned?
    ensures s.index == n
    ensures s.main == Returned(Some(e)) || exists f :: RenewalFailed(n, f) in s.log && s.main == Returned(Some(f))
  {
    RunsKeepAborted(c, actions, s, n, e);
  }

  ghost predicate AbortIsKept(s: State, n: nat, e: Error) {
    s.index == n &&
    match s.main
    case Stopping(o) => o == Aborted(e)
    case Awaiting(o) => o == Aborted(e)
    case Receiving(o) => o == Aborted(e)
    case Deciding(o) => o == Aborted(e)
    case Returned(r) => r == Some(e) || (r.Some? && RenewalFailed(n, r.value) in s.log)
    case _ => false
  }

  lemma {:induction false} RunsKeepAborted(c: Config, actions: seq<Action>, s: State, n: nat, e: Error)
    requires Reaches(c, actions, s) && HandlerEnded(n, Aborted(e)) in s.log
    ensures AbortIsKept(s, n, e)
  {
    if actions == [] {
    } else {
      var last := |actions| - 1;
      var early, a := actions[..last], actions[last];
      var before :| Reaches(c, early, before) && Enabled(before, a) && s == Do(c, before, a);
      RunsKeepInv(c, early, before);
      RunsAccount(c, early, before);
      if HandlerEnded(n, Aborted(e)) in before.log {
        RunsKeepAborted(c, early, before, n, e);
      }
      StepKeepsAborted(c, early, before, a, n, e);
    }
  }

  lemma StepKeepsAborted(c: Config, actions: seq<Action>, s: State, a: Action, n: nat, e: Error)
    requires ErrorsAreKnown(actions, s) && Enabled(s, a) && HandlerEnded(n, Aborted(e)) in Do(c, s, a).log
    requires HandlerEnded(n, Aborted(e)) in s.log ==> AbortIsKept(s, n, e)
    ensures AbortIsKept(Do(c, s, a), n, e)
  {
    if a.ReceiveError? && s.errCh != [] {
      assert s.errCh[0] in s.errCh;
    }
  }

  lemma DoneStepRaisesNothing(c: Config, s: State, a: Action, e: Event)
    requires s.JobContextDone() && Enabled(s, a) && a != BeginJob
    ensures Do(c, s, a).JobContextDone()
    ensures e.RenewalFailed? && e in Do(c, s, a).log ==> e in s.log
  {
  }

  /** Once the context of a job is done, no renewal failure is raised until another job is begun. */
  lemma {:induction false} DoneContextRaisesNothing(c: Config, s: State, actions: seq<Action>, t: State, e: Event)
    requires s.JobContextDone() && Leads(c, s, actions, t) && BeginJob !in actions && e.RenewalFailed?
    ensures t.JobContextDone() && (e in t.log ==> e in s.log)
  {
    if actions != [] {
      var last := |actions| - 1;
      var early, a := actions[..last], actions[last];
      var before :| Leads(c, s, early, before) && Enabled(before, a) && t == Do(c, before, a);
      assert a in actions;
      DoneContextRaisesNothing(c, s, early, before, e);
      DoneStepRaisesNothing(c, before, a, e);
    }
  }

  /** The context is done from the cancellation of the parent on, and from the moment the handler's end is seen. */
  lemma {:induction false} CancelledIsDone(c: Config, actions: seq<Action>, s: State)
    requires Reaches(c, actions, s)
    ensures CancelParent in actions ==> s.JobContextDone()
    ensures c.renews && (s.main.Awaiting? || s.main.Receiving?) ==> s.JobContextDone()
  {
    RunsKeepInv(c, actions, s);
    if CancelParent in actions {
      ParentStaysCancelled(c, actions, s);
    }
  }

  lemma {:induction false} ParentStaysCancelled(c: Config, actions: seq<Action>, s: State)
    requires Reaches(c, actions, s) && CancelParent in actions
    ensures s.parentCanceled
  {
    var last := |actions| - 1;
    var before :| Reaches(c, actions[..last], before) && Enabled(before, actions[last])
                  && s == Do(c, before, actions[last]);
    if actions[last] != CancelParent {
      assert CancelParent in actions[..last];
      ParentStaysCancelled(c, actions[..last], before);
    }
  }
}
