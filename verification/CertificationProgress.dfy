/**
  A Certification can always be carried to its end
  (pkg/controller/certification_controller.go).
*/
module CertificationProgress {
  import opened Prelude
  import Sequence = CertificationSequence
  import opened CertificationOutcome

  /** Every reconcile of the run read the stored version. */
  ghost predicate UpToDate(n: nat, trace: Trace<Step>) { Sequence.UpToDate(n, Abstract(n, trace)) }

  lemma {:induction false} StepUpToDate(n: nat, trace: Trace<Step>, step: Step)
    requires UpToDate(n, trace)
    requires Chosen(n, Run(n, trace), step).Some? ==> View(step) == |Run(n, trace).versions| - 1
    ensures UpToDate(n, After(trace, step))
  {
    RunRefines(n, trace);
    hide Chosen, Run;
  }

  lemma Unfold(n: nat, trace: Trace<Step>, step: Step)
    ensures Run(n, After(trace, step)) == Next(n, Run(n, trace), step)
  {
  }

  /** The categories when k of them have ended as given and the next one runs. */
  function Stage(outcomes: seq<bool>, k: nat): seq<Sequence.Category> {
    seq(|outcomes|, j requires 0 <= j < |outcomes| =>
      if j < k then Sequence.Category(if outcomes[j] then Sequence.Succeeded else Sequence.Failed, Some(j))
      else if j == k then Sequence.Category(Sequence.InProgress, Some(j))
      else Sequence.Category(Sequence.Pending, None))
  }

  /** So many Workflows have ended, and the next one runs, if there is one. */
  ghost predicate AtStage(w: World, outcomes: seq<bool>, k: nat) {
    && |w.versions| > 0 && Last(w.versions) == Sequence.Cert(Sequence.Running, Stage(outcomes, k))
    && |w.flows| == |outcomes| && (k < |outcomes| ==> w.flows[k] != [] && Last(w.flows[k]) == Going)
    && forall j :: k < j < |w.flows| ==> w.flows[j] == [Absent]
  }

  lemma {:induction false} FirstStage(outcomes: seq<bool>) returns (trace: Trace<Step>)
    requires outcomes != []
    ensures AtStage(Run(|outcomes|, trace), outcomes, 0) && UpToDate(|outcomes|, trace)
  {
    var n := |outcomes|;
    StartDecides(n, Start, 0, false);
    trace := After(Start, Decide(0, Sequence.Init, false));
    StepUpToDate(n, Start, trace.step);
    assert Last(Run(n, trace).versions).cats == Stage(outcomes, 0);
  }

  /** The running Workflow ends, and a check with up-to-date reads settles its category. */
  lemma {:induction false} WorkflowEnds(outcomes: seq<bool>, k: nat, trace: Trace<Step>) returns (longer: Trace<Step>)
    requires k < |outcomes| && AtStage(Run(|outcomes|, trace), outcomes, k) && UpToDate(|outcomes|, trace)
    ensures UpToDate(|outcomes|, longer)
    ensures var w := Run(|outcomes|, longer);
      && Last(w.versions).phase == Sequence.Running && |w.flows| == |outcomes|
      && (forall j :: k < j < |w.flows| ==> w.flows[j] == [Absent])
      && var ended := if outcomes[k] then Sequence.Succeeded else Sequence.Failed;
      && Last(w.versions).cats == Stage(outcomes, k)[k := Sequence.Category(ended, Some(k))]
  {
    var n := |outcomes|;
    var w := Run(n, trace);
    var ended := After(trace, FlowMoves(k, Ended(outcomes[k])));
    var e := Run(n, ended);
    assert e.versions == w.versions && e.flows == w.flows[k := w.flows[k] + [Ended(outcomes[k])]];
    longer := After(ended, Check(|e.versions| - 1, |w.flows[k]|, |w.flows[k]|, false));
    StepUpToDate(n, trace, ended.step);
    StepUpToDate(n, ended, longer.step);
    hide Run, UpToDate;
    assert Running(Last(e.versions), k) && Last(e.versions).cats[k].ref.value == k;
    CheckStep(n, e, k, |w.flows[k]|, |w.flows[k]|);
    assert Run(n, longer) == Next(n, e, longer.step) by { Unfold(n, ended, longer.step); }
  }

  /** Then the next one is started. */
  lemma {:induction false} NextStage(outcomes: seq<bool>, k: nat, trace: Trace<Step>) returns (longer: Trace<Step>)
    requires k + 1 < |outcomes| && AtStage(Run(|outcomes|, trace), outcomes, k) && UpToDate(|outcomes|, trace)
    ensures AtStage(Run(|outcomes|, longer), outcomes, k + 1) && UpToDate(|outcomes|, longer)
  {
    hide Run, UpToDate;
    var n := |outcomes|;
    var settled := WorkflowEnds(outcomes, k, trace);
    var w := Run(n, settled);
    StartDecides(n, settled, k + 1, false);
    longer := After(settled, Decide(|w.versions| - 1, Sequence.Begin(k + 1), false));
    StepUpToDate(n, settled, longer.step);
    var l := Run(n, longer);
    var started := Sequence.Category(Sequence.InProgress, Some(k + 1));
    assert Last(w.versions).cats[k + 1 := started] == Stage(outcomes, k + 1);
    assert Last(l.flows[k + 1]) == Going;
  }

  lemma {:induction false} ReachStage(outcomes: seq<bool>, k: nat) returns (trace: Trace<Step>)
    requires k < |outcomes|
    ensures AtStage(Run(|outcomes|, trace), outcomes, k) && UpToDate(|outcomes|, trace)
  {
    hide Run, UpToDate, AtStage;
    if k == 0 {
      trace := FirstStage(outcomes);
    } else {
      var before := ReachStage(outcomes, k - 1);
      trace := NextStage(outcomes, k - 1, before);
    }
  }

  /** All categories have ended as given: the last write. */
  lemma {:induction false} Finalize(outcomes: seq<bool>, settled: Trace<Step>) returns (trace: Trace<Step>)
    requires outcomes != [] && UpToDate(|outcomes|, settled)
    requires var c := Last(Run(|outcomes|, settled).versions);
      c.phase == Sequence.Running && HaveEnded(outcomes, c.cats)
    ensures UpToDate(|outcomes|, trace)
    ensures var c := Last(Run(|outcomes|, trace).versions);
      && c.cats == Last(Run(|outcomes|, settled).versions).cats
      && (c.phase == Sequence.Passed <==> forall k :: 0 <= k < |outcomes| ==> outcomes[k])
      && (c.phase == Sequence.Rejected <==> exists k :: 0 <= k < |outcomes| && !outcomes[k])
  {
    hide Run, UpToDate;
    var n := |outcomes|;
    var w := Run(n, settled);
    var c := Last(w.versions);
    var write := if Sequence.AnyFailed(c.cats) then Sequence.FailNow else Sequence.Pass;
    var step := Decide(|w.versions| - 1, write, false);
    assert Sequence.AllDone(c.cats) && Sequence.Decides(n, c, write);
    trace := After(settled, step);
    StepUpToDate(n, settled, step);
    Unfold(n, settled, step);
    Sequence.FinalizesIff(n, c);
  }

  ghost predicate HaveEnded(outcomes: seq<bool>, cats: seq<Sequence.Category>) {
    && |cats| == |outcomes|
    && forall k :: 0 <= k < |outcomes| ==>
         cats[k].status == if outcomes[k] then Sequence.Succeeded else Sequence.Failed
  }

  /**
    Whatever the outcomes of its Workflows, a Certification reaches them: there is a run, with every read
    up to date, that ends with each category's own outcome, as Succeeded if and only if all of them
    succeeded and as Failed if and only if one did not.
  */
  lemma {:induction false} EveryOutcomeIsReached(outcomes: seq<bool>) returns (trace: Trace<Step>)
    requires outcomes != []
    ensures UpToDate(|outcomes|, trace)
    ensures var c := Last(Run(|outcomes|, trace).versions);
      && HaveEnded(outcomes, c.cats)
      && (c.phase == Sequence.Passed <==> forall k :: 0 <= k < |outcomes| ==> outcomes[k])
      && (c.phase == Sequence.Rejected <==> exists k :: 0 <= k < |outcomes| && !outcomes[k])
  {
    hide Run, UpToDate;
    var n := |outcomes|;
    var running := ReachStage(outcomes, n - 1);
    var settled := WorkflowEnds(outcomes, n - 1, running);
    trace := Finalize(outcomes, settled);
  }
}
