/**
  How long a refused workload create is retried (pkg/controller/job_controller.go, issue 488).

  Only a create the API server refused, and whose refusal is confirmed not to be a missing
  permission, runs against the creation deadline. The clock is persisted in the Job's status.
*/
module RejectionDeadline {
  import opened Prelude

  // ---- Which failures count ----

  datatype CreateError = Forbidden | Invalid | BadRequest | Unreachable

  datatype Review = ReviewFailed | Denied | Allowed

  datatype Class = Transient | RbacDenied | AccessUnknown | Rejected

  /**
    classifyWorkloadCreateError. `resource` says whether the refused resource is known, from the
    error or from the REST mapping; `cachedDenial` whether a denial is cached; `review` is what a
    fresh access review would answer.
  */
  function Classify(error: CreateError, canReview: bool, resource: bool, cachedDenial: bool, review: Review): (c: Class)
    // Exactly the confirmed refusals count.
    ensures c == Rejected <==>
      || error == Invalid || error == BadRequest
      || (error == Forbidden && canReview && resource && !cachedDenial && review == Allowed)
    ensures c == Transient <==> error == Unreachable
    ensures c == RbacDenied <==> error == Forbidden && canReview && resource && (cachedDenial || review == Denied)
    ensures c == AccessUnknown <==>
      error == Forbidden && (!canReview || !resource || (!cachedDenial && review == ReviewFailed))
  {
    match error
    case Unreachable => Transient
    case Invalid => Rejected
    case BadRequest => Rejected
    case Forbidden =>
      if !canReview || !resource then AccessUnknown
      else if cachedDenial then RbacDenied
      else match review
        case ReviewFailed => AccessUnknown
        case Denied => RbacDenied
        case Allowed => Rejected
  }

  // ---- The clock ----

  datatype JobStatus = JobStatus(ref: bool, since: Option<int>, terminal: bool)

  datatype Outcome = Accepted | Refused(kind: Class)

  /** Why a version was written. */
  datatype Reason =
    | CreateAccepted
    | RejectionRecorded(at: int)
    | DeadlinePassed(at: int, since: int, view: nat)  // the version the attempt read
    | Unrelated

  datatype World = World(versions: seq<JobStatus>, reasons: seq<Reason>)

  const Initial := World([JobStatus(false, None, false)], [])

  datatype Step =
    | Try(view: nat, now: int, outcome: Outcome, lost: bool)
    | Restart  // the reference is given up, and a new create follows
    | EndsOtherwise

  function Put(w: World, s: JobStatus, why: Reason): World {
    World(w.versions + [s], w.reasons + [why])
  }

  /** What an attempt writes, decided on the version it saw and applied to the stored one. */
  function Attempt(deadline: int, seen: JobStatus, view: nat, stored: JobStatus, now: int, outcome: Outcome)
    : Option<(JobStatus, Reason)>
  {
    if stored.terminal then None else
    match outcome
    case Accepted => Some((JobStatus(true, None, false), CreateAccepted))
    case Refused(kind) =>
      if kind != Rejected then None
      else if seen.since.Some? && now - seen.since.value >= deadline then
        Some((stored.(terminal := true), DeadlinePassed(now, seen.since.value, view)))
      else
        Some((stored.(since := if stored.since.Some? then stored.since else Some(now)), RejectionRecorded(now)))
  }

  function Next(deadline: int, w: World, step: Step): (n: World)
    requires |w.versions| > 0
    ensures |n.versions| > 0
  {
    var stored := Last(w.versions);
    match step
    case Try(view, now, outcome, lost) =>
      if lost || view >= |w.versions| || w.versions[view].ref || w.versions[view].terminal then w
      else
        var written := Attempt(deadline, w.versions[view], view, stored, now, outcome);
        if written.None? then w else Put(w, written.value.0, written.value.1)
    case Restart => if stored.terminal then w else Put(w, stored.(ref := false), Unrelated)
    case EndsOtherwise => if stored.terminal then w else Put(w, stored.(terminal := true), Unrelated)
  }

  function Run(deadline: int, trace: Trace<Step>): (w: World)
    ensures |w.versions| > 0
  {
    match trace
    case Start => Initial
    case After(before, step) => Next(deadline, Run(deadline, before), step)
  }

  // ---- Reference: the clock read off the reasons ----

  /** The reasons after the last accepted create. */
  function SinceAccepted(reasons: seq<Reason>): seq<Reason> {
    if reasons == [] then []
    else if Last(reasons) == CreateAccepted then []
    else SinceAccepted(reasons[..|reasons| - 1]) + [Last(reasons)]
  }

  /** The time of the first recorded rejection. */
  function FirstRejection(reasons: seq<Reason>): Option<int> {
    if reasons == [] then None
    else if reasons[0].RejectionRecorded? then Some(reasons[0].at)
    else FirstRejection(reasons[1..])
  }

  function ClockOf(reasons: seq<Reason>): Option<int> { FirstRejection(SinceAccepted(reasons)) }

  lemma {:induction false} FirstRejectionSnoc(reasons: seq<Reason>, r: Reason)
    ensures FirstRejection(reasons + [r]) ==
      if FirstRejection(reasons).Some? then FirstRejection(reasons)
      else if r.RejectionRecorded? then Some(r.at) else None
  {
    if reasons != [] {
      assert (reasons + [r])[1..] == reasons[1..] + [r];
      FirstRejectionSnoc(reasons[1..], r);
    }
  }

  ghost predicate Inv(deadline: int, w: World) {
    && |w.versions| == |w.reasons| + 1
    && (forall i :: 0 <= i < |w.versions| ==> w.versions[i].since == ClockOf(w.reasons[..i]))
    && (forall i :: 0 <= i < |w.reasons| ==> ReasonHolds(deadline, w, i))
  }

  ghost predicate ReasonHolds(deadline: int, w: World, i: nat)
    requires i < |w.reasons| && |w.versions| == |w.reasons| + 1
  {
    && !w.versions[i].terminal
    && (w.reasons[i].DeadlinePassed? ==>
          && w.versions[i + 1].terminal
          && w.reasons[i].at - w.reasons[i].since >= deadline
          && w.reasons[i].view <= i && w.versions[w.reasons[i].view].since == Some(w.reasons[i].since))
  }

  lemma PutKeepsInv(deadline: int, w: World, s: JobStatus, why: Reason)
    requires Inv(deadline, w) && !Last(w.versions).terminal
    requires s.since ==
      if why == CreateAccepted then None
      else if Last(w.versions).since.Some? then Last(w.versions).since
      else if why.RejectionRecorded? then Some(why.at) else None
    requires why.DeadlinePassed? ==>
      s.terminal && why.at - why.since >= deadline
      && why.view < |w.versions| && w.versions[why.view].since == Some(why.since)
    ensures Inv(deadline, Put(w, s, why))
  {
    var n := Put(w, s, why);
    var i := |w.reasons|;
    assert n.reasons[..i + 1] == n.reasons && n.reasons[..i] == w.reasons && w.reasons[..i] == w.reasons;
    FirstRejectionSnoc(SinceAccepted(w.reasons), why);
    assert ClockOf(n.reasons) == s.since;
    forall j | 0 <= j < |n.versions|
      ensures n.versions[j].since == ClockOf(n.reasons[..j])
    {
      assert j <= i ==> n.reasons[..j] == w.reasons[..j];
    }
    forall j | 0 <= j < |n.reasons|
      ensures ReasonHolds(deadline, n, j)
    {
      if j < i {
        assert ReasonHolds(deadline, w, j);
      }
    }
  }

  lemma {:induction false} RunKeepsInv(deadline: int, trace: Trace<Step>)
    ensures Inv(deadline, Run(deadline, trace))
  {
    if trace.After? {
      RunKeepsInv(deadline, trace.before);
      var w, n := Run(deadline, trace.before), Run(deadline, trace);
      if n != w {
        PutKeepsInv(deadline, w, Last(n.versions), Last(n.reasons));
      }
    }
  }

  /**
    In every run and every version: the clock shows the first recorded rejection since the last
    accepted create, so it is never restarted by a later rejection and never started by anything
    else; nothing follows a terminal version; and the deadline only ever fails a Job at least
    `deadline` after a time its clock showed.
  */
  lemma ClockIsFirstRejection(deadline: int, trace: Trace<Step>)
    ensures var w := Run(deadline, trace);
      && |w.versions| == |w.reasons| + 1
      && (forall i :: 0 <= i < |w.versions| ==> w.versions[i].since == ClockOf(w.reasons[..i]))
      && (forall i :: 0 <= i < |w.reasons| ==> ReasonHolds(deadline, w, i))
  {
    RunKeepsInv(deadline, trace);
  }

  /** The attempt is made, for the version it read still waits for a workload, and its write can land. */
  predicate Attempts(w: World, step: Step)
    requires |w.versions| > 0
  {
    && step.Try? && !step.lost && step.view < |w.versions|
    && !w.versions[step.view].ref && !w.versions[step.view].terminal && !Last(w.versions).terminal
  }

  /**
    Exactness. An attempt, whichever version it read, fails the Job over the deadline if and only if
    the create was rejected and the first rejection, as of that version, is `deadline` old.
  */
  lemma FailsExactlyAtDeadline(deadline: int, trace: Trace<Step>, step: Step)
    requires Attempts(Run(deadline, trace), step)
    ensures var w := Run(deadline, trace);
      var n := Run(deadline, After(trace, step));
      && |w.versions| == |w.reasons| + 1
      && var clock := ClockOf(w.reasons[..step.view]);
         (|n.reasons| > |w.reasons| && Last(n.reasons).DeadlinePassed?) <==>
           && step.outcome == Refused(Rejected)
           && clock.Some? && step.now - clock.value >= deadline
  {
    RunKeepsInv(deadline, trace);
  }

  /** A refusal that is not a confirmed rejection. */
  predicate Passing(step: Step) { step.Try? && step.outcome.Refused? && step.outcome.kind != Rejected }

  lemma OthersLeaveNoMark(deadline: int, w: World, step: Step)
    requires |w.versions| > 0 && Passing(step)
    ensures Next(deadline, w, step) == w
  {
  }

  /** The run without such attempts. */
  function WithoutPassing(trace: Trace<Step>): Trace<Step> {
    match trace
    case Start => Start
    case After(before, step) =>
      if Passing(step) then WithoutPassing(before) else After(WithoutPassing(before), step)
  }

  predicate NonePasses(trace: Trace<Step>) { trace.After? ==> NonePasses(trace.before) && !Passing(trace.step) }

  /** Denied and unconfirmed attempts, however many and whenever they fall, move no clock and fail no Job. */
  lemma {:induction false} OnlyRejectionsCount(deadline: int, trace: Trace<Step>)
    ensures NonePasses(WithoutPassing(trace)) && Run(deadline, WithoutPassing(trace)) == Run(deadline, trace)
  {
    hide Next;
    if trace.After? {
      OnlyRejectionsCount(deadline, trace.before);
      if Passing(trace.step) {
        OthersLeaveNoMark(deadline, Run(deadline, trace.before), trace.step);
      }
    }
  }

  /** A Job that restarts its workload creates again, on the clock it had. */
  lemma RestartCreatesAgain(deadline: int, trace: Trace<Step>, now: int, outcome: Outcome)
    requires !Last(Run(deadline, trace).versions).terminal
    ensures var w, n := Run(deadline, trace), Run(deadline, After(trace, Restart));
      Attempts(n, Try(|n.versions| - 1, now, outcome, false)) && Last(n.versions).since == Last(w.versions).since
  {
  }

  /** A Job that has ended, for whatever reason, is never written again. */
  lemma {:induction false} EndIsFinal(deadline: int, trace: Trace<Step>, more: seq<Step>)
    ensures var n := Run(deadline, After(trace, EndsOtherwise));
      && Last(n.versions).terminal
      && Run(deadline, Extend(After(trace, EndsOtherwise), more)) == n
  {
    var ended := After(trace, EndsOtherwise);
    assert Last(Run(deadline, ended).versions).terminal;
    hide Next;
    TerminalStays(deadline, ended, more);
  }

  lemma {:induction false} TerminalStays(deadline: int, trace: Trace<Step>, more: seq<Step>)
    requires Last(Run(deadline, trace).versions).terminal
    ensures Run(deadline, Extend(trace, more)) == Run(deadline, trace)
    decreases |more|
  {
    if more != [] {
      assert Run(deadline, After(trace, more[0])) == Run(deadline, trace);
      TerminalStays(deadline, After(trace, more[0]), more[1..]);
    }
  }

  // ---- Attempts that read an older version ----

  /** The time of the latest attempt. */
  function LatestTry(trace: Trace<Step>): Option<int> {
    match trace
    case Start => None
    case After(before, step) => if step.Try? then Some(step.now) else LatestTry(before)
  }

  /** Every attempt is later than the one before it. */
  predicate Chronological(trace: Trace<Step>) {
    match trace
    case Start => true
    case After(before, step) =>
      Chronological(before) && (step.Try? && LatestTry(before).Some? ==> step.now > LatestTry(before).value)
  }

  predicate NoneAccepted(reasons: seq<Reason>, from: nat, to: nat)
    requires from <= to <= |reasons|
  {
    forall k :: from <= k < to ==> reasons[k] != CreateAccepted
  }

  ghost predicate InOrder(reasons: seq<Reason>, latest: Option<int>) {
    && (forall k :: 0 <= k < |reasons| && reasons[k].RejectionRecorded? ==>
          latest.Some? && reasons[k].at <= latest.value)
    && (forall j, k :: 0 <= j < k < |reasons| && reasons[j].RejectionRecorded? && reasons[k].RejectionRecorded? ==>
          reasons[j].at < reasons[k].at)
  }

  lemma {:induction false} RunKeepsOrder(deadline: int, trace: Trace<Step>)
    requires Chronological(trace)
    ensures InOrder(Run(deadline, trace).reasons, LatestTry(trace))
  {
    if trace.After? {
      RunKeepsOrder(deadline, trace.before);
    }
  }

  lemma ClockSnoc(reasons: seq<Reason>, r: Reason)
    ensures ClockOf(reasons + [r]) ==
      if r == CreateAccepted then None
      else if ClockOf(reasons).Some? then ClockOf(reasons)
      else if r.RejectionRecorded? then Some(r.at) else None
  {
    assert (reasons + [r])[..|reasons|] == reasons;
    FirstRejectionSnoc(SinceAccepted(reasons), r);
  }

  /** A clock that shows a time was started by a rejection, and no create was accepted since. */
  lemma {:induction false} ClockStarted(reasons: seq<Reason>, i: nat) returns (k: nat)
    requires i <= |reasons| && ClockOf(reasons[..i]).Some?
    ensures k < i && reasons[k] == RejectionRecorded(ClockOf(reasons[..i]).value) && NoneAccepted(reasons, k, i)
    decreases i
  {
    if i > 0 {
      assert reasons[..i] == reasons[..i - 1] + [reasons[i - 1]];
      ClockSnoc(reasons[..i - 1], reasons[i - 1]);
      if ClockOf(reasons[..i - 1]).Some? {
        k := ClockStarted(reasons, i - 1);
      } else {
        k := i - 1;
      }
    }
  }

  lemma {:induction false} ClockStays(reasons: seq<Reason>, v: nat, i: nat)
    requires v <= i <= |reasons| && NoneAccepted(reasons, v, i) && ClockOf(reasons[..v]).Some?
    ensures ClockOf(reasons[..i]) == ClockOf(reasons[..v])
    decreases i
  {
    if v < i {
      ClockStays(reasons, v, i - 1);
      assert reasons[..i] == reasons[..i - 1] + [reasons[i - 1]];
      ClockSnoc(reasons[..i - 1], reasons[i - 1]);
    }
  }

  /**
    Whatever version the failing attempt read: the deadline it enforced is the one the stored clock
    shows if and only if no create was accepted since that version.
  */
  lemma DeadlineIsStoredIff(deadline: int, trace: Trace<Step>, i: nat)
    requires Chronological(trace) && i < |Run(deadline, trace).reasons|
    requires Run(deadline, trace).reasons[i].DeadlinePassed?
    ensures var w := Run(deadline, trace);
      var why := w.reasons[i];
      && |w.versions| == |w.reasons| + 1 && why.view <= i
      && (w.versions[i].since == Some(why.since) <==> NoneAccepted(w.reasons, why.view, i))
  {
    RunKeepsInv(deadline, trace);
    RunKeepsOrder(deadline, trace);
    hide Run, ClockOf;
    var w := Run(deadline, trace);
    var why := w.reasons[i];
    assert ReasonHolds(deadline, w, i);
    if NoneAccepted(w.reasons, why.view, i) {
      ClockStays(w.reasons, why.view, i);
    } else if w.versions[i].since == Some(why.since) {
      var k := ClockStarted(w.reasons, why.view);
      var l := ClockStarted(w.reasons, i);
    }
  }

  /**
    An attempt decided on a stale version can fail a Job whose workload has been accepted in the
    meantime: the quota that admitted the workload may refuse the repeated create, and the stop
    guard of the write only looks at terminal states.
  */
  lemma StaleAttemptMayFailAcceptedJob(deadline: nat) returns (trace: Trace<Step>)
    ensures var w := Run(deadline, trace); Last(w.versions).terminal && Last(w.versions).ref
    ensures Chronological(trace)
  {
    var rejected := After(Start, Try(0, 0, Refused(Rejected), false));
    assert Run(deadline, rejected).versions == [JobStatus(false, None, false), JobStatus(false, Some(0), false)];
    var accepted := After(rejected, Try(1, 1, Accepted, false));
    assert Run(deadline, accepted).versions ==
      [JobStatus(false, None, false), JobStatus(false, Some(0), false), JobStatus(true, None, false)];
    trace := After(accepted, Try(1, deadline + 2, Refused(Rejected), false));
  }
}
