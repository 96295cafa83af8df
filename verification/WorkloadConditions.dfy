/**
  Exactly when the workload protocol of a Job keeps to its own workloads and to one restart per
  workload (pkg/controller/job_controller.go).
*/
module WorkloadConditions {
  import opened Prelude
  import opened StatusWrites
  import opened WorkloadProtocol

  // ---- Own workloads only ----

  /** The state of the workload a decision was read from. */
  function SeenBy(intent: Intent): Option<nat> {
    match intent
    case Succeed(seen) => Some(seen)
    case Fail(WorkloadFailed(seen)) => Some(seen)
    case _ => None
  }

  function SeenOf(phase: Phase): Option<nat> {
    match phase
    case Succeeded(seen) => Some(seen)
    case Failed(WorkloadFailed(seen)) => Some(seen)
    case _ => None
  }

  ghost predicate OwnSlot(w: World, k: nat) {
    k < |w.slots| && w.slots[k].Some? && w.slots[k].value.owner == ThisJob
  }

  /** Every verdict, decided or written, was read from an own workload, and every delete hit one. */
  ghost predicate OwnOnly(w: World) {
    && (w.control.Writing? && SeenBy(w.control.intent).Some? ==> OwnSlot(w, SeenBy(w.control.intent).value))
    && (forall i :: 0 <= i < |w.versions| && SeenOf(w.versions[i].phase).Some? ==>
          OwnSlot(w, SeenOf(w.versions[i].phase).value))
    && (forall k :: 0 <= k < |w.deletes| ==> Owned(w, w.deletes[k].uid, ThisJob))
  }

  /** The owner check of createWorkloadFromSpec, at the two places that do not make it. */
  ghost predicate Checked(maxRestarts: nat, w: World, step: Step)
    requires |w.slots| > 0 && |w.versions| > 0
  {
    var c := w.control;
    match step
    case Observe(cached, stalled, checkpoint) =>
      c.Observing? && c.view < |w.versions| && cached < |w.slots| ==>
        var next := AfterObserve(maxRestarts, w.versions[c.view], c.view, cached, w.slots[cached], stalled, checkpoint);
        next.Writing? && SeenBy(next.intent).Some? ==> OwnSlot(w, cached)
    case Delete(cached, fails, _) =>
      c.Deleting? && c.view < |w.versions| && cached < |w.slots| && w.slots[cached].Some? && !fails && Slot(w).Some? ==>
        Slot(w).value.owner == ThisJob
    case _ => true
  }

  lemma NextRemembers(maxRestarts: nat, w: World, step: Step)
    requires Inv(maxRestarts, w)
    ensures var n := Next(maxRestarts, w, step);
      && w.slots <= n.slots && w.versions <= n.versions && |n.versions| <= |w.versions| + 1
      && forall u :: u in w.owners ==> u in n.owners && n.owners[u] == w.owners[u]
  {
    hide ControlSound, Sound;
  }

  lemma DeleteOwnIff(maxRestarts: nat, w: World, step: Step)
    requires Inv(maxRestarts, w) && OwnOnly(w) && step.Delete?
    ensures OwnOnly(Next(maxRestarts, w, step)) <==> Checked(maxRestarts, w, step)
  {
    hide ControlSound, Sound;
    var n := Next(maxRestarts, w, step);
    if n.deletes != w.deletes {
      var uid := Slot(w).value.uid;
      assert n.deletes[|w.deletes|].uid == uid;
      assert Owned(w, uid, Slot(w).value.owner);
    }
  }

  lemma WriteKeepsOwn(maxRestarts: nat, w: World, step: Step)
    requires Inv(maxRestarts, w) && OwnOnly(w) && (step.Write? || step.WorkflowTimesOut?)
    ensures OwnOnly(Next(maxRestarts, w, step))
  {
    hide ControlSound, Sound, DoDelete;
  }

  lemma OthersKeepOwn(maxRestarts: nat, w: World, step: Step)
    requires Inv(maxRestarts, w) && OwnOnly(w)
    requires !step.Delete? && !step.Write? && !step.WorkflowTimesOut? && !step.Observe?
    ensures OwnOnly(Next(maxRestarts, w, step))
  {
    NextRemembers(maxRestarts, w, step);
    hide ControlSound, Sound, DoDelete, DoWrite;
  }

  lemma StepOwnIff(maxRestarts: nat, w: World, step: Step)
    requires Inv(maxRestarts, w) && OwnOnly(w)
    ensures OwnOnly(Next(maxRestarts, w, step)) <==> Checked(maxRestarts, w, step)
  {
    if step.Delete? {
      DeleteOwnIff(maxRestarts, w, step);
    } else if step.Write? || step.WorkflowTimesOut? {
      WriteKeepsOwn(maxRestarts, w, step);
    } else if step.Observe? {
      hide ControlSound, Sound, DoDelete, DoWrite;
    } else {
      OthersKeepOwn(maxRestarts, w, step);
    }
  }

  ghost predicate OwnThroughout(maxRestarts: nat, trace: Trace<Step>) {
    OwnOnly(Run(maxRestarts, trace)) && (trace.After? ==> OwnThroughout(maxRestarts, trace.before))
  }

  ghost predicate CheckedThroughout(maxRestarts: nat, trace: Trace<Step>) {
    trace.After? ==>
      CheckedThroughout(maxRestarts, trace.before) && Checked(maxRestarts, Run(maxRestarts, trace.before), trace.step)
  }

  /**
    A Job's verdicts come from, and its deletes hit, workloads of its own throughout a run if and only
    if each read a verdict was decided from found an own workload and each delete found an own holder.
  */
  lemma {:induction false} OwnThroughoutIff(maxRestarts: nat, trace: Trace<Step>)
    ensures OwnThroughout(maxRestarts, trace) <==> CheckedThroughout(maxRestarts, trace)
  {
    hide Next, Checked, OwnOnly;
    match trace
    case Start => InitialOwnOnly();
    case After(before, step) =>
      OwnThroughoutIff(maxRestarts, before);
      if CheckedThroughout(maxRestarts, before) {
        RunKeepsInv(maxRestarts, before);
        OwnAtEnd(maxRestarts, before);
        StepOwnIff(maxRestarts, Run(maxRestarts, before), step);
      }
  }

  lemma OwnAtEnd(maxRestarts: nat, trace: Trace<Step>)
    requires OwnThroughout(maxRestarts, trace)
    ensures OwnOnly(Run(maxRestarts, trace))
  {
  }

  lemma InitialOwnOnly()
    ensures OwnOnly(Initial)
  {
  }

  /** What that says of the stored verdicts: success and failure were both read from an own workload. */
  lemma OwnVerdicts(maxRestarts: nat, trace: Trace<Step>, i: nat)
    requires CheckedThroughout(maxRestarts, trace) && i < |Run(maxRestarts, trace).versions|
    ensures var w := Run(maxRestarts, trace);
      var phase := w.versions[i].phase;
      && (phase.Succeeded? ==> OwnSlot(w, phase.seen))
      && (phase.Failed? && phase.cause.WorkloadFailed? ==> OwnSlot(w, phase.cause.seen))
  {
    OwnThroughoutIff(maxRestarts, trace);
    OwnAtEnd(maxRestarts, trace);
    hide Run, OwnSlot;
    assert SeenOf(Run(maxRestarts, trace).versions[i].phase).Some? ==>
      OwnSlot(Run(maxRestarts, trace), SeenOf(Run(maxRestarts, trace).versions[i].phase).value);
  }

  predicate NoStrangers(trace: Trace<Step>) {
    trace.After? ==> NoStrangers(trace.before) && !trace.step.StrangerCreates?
  }

  /** While nobody else takes the name, all there is is the Job's own. */
  lemma {:induction false} NoStrangersMeansOwn(maxRestarts: nat, trace: Trace<Step>)
    requires NoStrangers(trace)
    ensures forall u :: u in Run(maxRestarts, trace).owners ==> Run(maxRestarts, trace).owners[u] == ThisJob
    ensures OwnThroughout(maxRestarts, trace)
  {
    if trace.After? {
      NoStrangersMeansOwn(maxRestarts, trace.before);
      RunKeepsInv(maxRestarts, trace.before);
      var w := Run(maxRestarts, trace.before);
      OwnersStayOurs(maxRestarts, w, trace.step);
      hide Next, Inv;
      OwnThroughoutIff(maxRestarts, trace.before);
      OwnThroughoutIff(maxRestarts, trace);
    } else {
      InitialOwnOnly();
    }
  }

  lemma OwnersStayOurs(maxRestarts: nat, w: World, step: Step)
    requires Inv(maxRestarts, w) && !step.StrangerCreates?
    requires forall u :: u in w.owners ==> w.owners[u] == ThisJob
    ensures var n := Next(maxRestarts, w, step); forall u :: u in n.owners ==> n.owners[u] == ThisJob
    ensures Checked(maxRestarts, w, step)
  {
    hide ControlSound, Sound;
  }

  // ---- One restart per workload ----

  /** The workloads references were recorded for, one for each time the reference was set. */
  function Settings(versions: seq<JobStatus>, recordedFor: map<nat, nat>): seq<nat> {
    if |versions| < 2 then []
    else
      var i := |versions| - 1;
      var before := Settings(versions[..i], recordedFor);
      if versions[i].ref && !versions[i - 1].ref && i in recordedFor then before + [recordedFor[i]] else before
  }

  /** Those whose reference has been given up since. */
  function GivenUp(w: World): seq<nat>
    requires |w.versions| > 0
  {
    var all := Settings(w.versions, w.recordedFor);
    if Last(w.versions).ref && all != [] then all[..|all| - 1] else all
  }

  ghost predicate Distinct(s: seq<nat>) { forall i, j :: 0 <= i < j < |s| ==> s[i] != s[j] }

  lemma {:induction false} SettingsFrame(versions: seq<JobStatus>, a: map<nat, nat>, b: map<nat, nat>)
    requires forall i :: 0 <= i < |versions| ==> (i in a <==> i in b) && (i in a ==> a[i] == b[i])
    ensures Settings(versions, a) == Settings(versions, b)
  {
    if |versions| >= 2 {
      SettingsFrame(versions[..|versions| - 1], a, b);
    }
  }

  /** No reference is about to be recorded, or has been recorded, for a workload given up before. */
  ghost predicate Clean(w: World)
    requires |w.versions| > 0
  {
    && Distinct(Settings(w.versions, w.recordedFor))
    && (w.control.Writing? && w.control.intent.RecordRef? ==> w.control.intent.uid !in GivenUp(w))
  }

  /** createWorkloadFromSpec finds a workload of its own under the name, and it is one given up before. */
  predicate Readopts(w: World, step: Step)
    requires |w.versions| > 0 && |w.slots| > 0
  {
    && step.CheckHolder? && !step.fails && w.control.CheckingHolder? && w.control.view < |w.versions|
    && Slot(w).Some? && Slot(w).value.owner == ThisJob && Slot(w).value.uid in GivenUp(w)
  }

  /** Every time the reference was set, a workload of the Job's own was recorded. */
  lemma {:induction false} SettingsOwned(maxRestarts: nat, w: World, n: nat, uid: nat)
    requires Inv(maxRestarts, w) && n <= |w.versions| && uid in Settings(w.versions[..n], w.recordedFor)
    ensures Owned(w, uid, ThisJob) && uid < |w.owners|
  {
    if n >= 2 {
      assert w.versions[..n][..n - 1] == w.versions[..n - 1];
      assert Sound(maxRestarts, w, n - 1);
      if uid in Settings(w.versions[..n - 1], w.recordedFor) {
        SettingsOwned(maxRestarts, w, n - 1, uid);
      }
    }
  }

  lemma GivenUpOwned(maxRestarts: nat, w: World, uid: nat)
    requires Inv(maxRestarts, w) && uid in GivenUp(w)
    ensures Owned(w, uid, ThisJob) && uid < |w.owners|
  {
    assert w.versions[..|w.versions|] == w.versions;
    SettingsOwned(maxRestarts, w, |w.versions|, uid);
  }

  /** A version is added, and what it recorded, if anything, under its own number. */
  lemma SettingsSnoc(w: World, s: JobStatus, recordedFor: map<nat, nat>)
    requires |w.versions| > 0
    requires forall i :: 0 <= i < |w.versions| ==> (i in recordedFor <==> i in w.recordedFor)
    requires forall i :: 0 <= i < |w.versions| && i in recordedFor ==> recordedFor[i] == w.recordedFor[i]
    ensures var all, n := Settings(w.versions, w.recordedFor), |w.versions|;
      Settings(w.versions + [s], recordedFor) ==
        if s.ref && !Last(w.versions).ref && n in recordedFor then all + [recordedFor[n]] else all
  {
    SettingsFrame(w.versions, w.recordedFor, recordedFor);
    assert (w.versions + [s])[..|w.versions|] == w.versions;
  }

  /** What a write adds; only the recording of a reference sets it. */
  lemma WriteShape(maxRestarts: nat, w: World, step: Step)
    requires Inv(maxRestarts, w) && (step.Write? || step.WorkflowTimesOut?)
    ensures var n := Next(maxRestarts, w, step);
      && (n.versions == w.versions ==> n.recordedFor == w.recordedFor && (n.control == Idle || n.control == w.control))
      && (n.versions != w.versions ==>
            && n.versions == w.versions + [Last(n.versions)] && |w.versions| !in w.recordedFor
            && if step.Write? && w.control.Writing? && w.control.intent.RecordRef? then
                 n.recordedFor == w.recordedFor[|w.versions| := w.control.intent.uid] && n.control == Idle
               else
                 && n.recordedFor == w.recordedFor && (n.control == Idle || n.control == w.control)
                 && (Last(n.versions).ref ==> Last(w.versions).ref)
                 && (step.WorkflowTimesOut? ==> Last(n.versions).ref == Last(w.versions).ref)
                 && (step.Write? ==> n.control == Idle))
  {
    hide Sound;
  }

  lemma WriteKeepsClean(maxRestarts: nat, w: World, step: Step)
    requires Inv(maxRestarts, w) && Clean(w) && (step.Write? || step.WorkflowTimesOut?)
    ensures Clean(Next(maxRestarts, w, step))
  {
    WriteShape(maxRestarts, w, step);
    var n := Next(maxRestarts, w, step);
    hide Next, Inv;
    if n.versions != w.versions {
      SettingsSnoc(w, Last(n.versions), n.recordedFor);
    }
    hide Settings;
  }

  lemma CreateKeepsClean(maxRestarts: nat, w: World, step: Step)
    requires Inv(maxRestarts, w) && Clean(w) && step.Create?
    ensures Clean(Next(maxRestarts, w, step))
  {
    if |w.owners| in GivenUp(w) {
      GivenUpOwned(maxRestarts, w, |w.owners|);
    }
    hide Settings, Grounded, ControlSound;
  }

  lemma StepCleanIff(maxRestarts: nat, w: World, step: Step)
    requires Inv(maxRestarts, w) && Clean(w)
    ensures Clean(Next(maxRestarts, w, step)) <==> !Readopts(w, step)
  {
    if step.Write? || step.WorkflowTimesOut? {
      WriteKeepsClean(maxRestarts, w, step);
    } else if step.Create? {
      CreateKeepsClean(maxRestarts, w, step);
    } else {
      hide Settings, Grounded, ControlSound, DoWrite;
    }
  }

  ghost predicate CleanThroughout(maxRestarts: nat, trace: Trace<Step>) {
    Clean(Run(maxRestarts, trace)) && (trace.After? ==> CleanThroughout(maxRestarts, trace.before))
  }

  predicate NeverReadopts(maxRestarts: nat, trace: Trace<Step>) {
    trace.After? ==>
      NeverReadopts(maxRestarts, trace.before) && !Readopts(Run(maxRestarts, trace.before), trace.step)
  }

  /**
    Through a run, references are decided and recorded for pairwise distinct workloads if and only if
    no create adopted a workload whose reference had been given up.
  */
  lemma {:induction false} CleanThroughoutIff(maxRestarts: nat, trace: Trace<Step>)
    ensures CleanThroughout(maxRestarts, trace) <==> NeverReadopts(maxRestarts, trace)
  {
    hide Next, Readopts, Clean;
    match trace
    case Start => InitialClean();
    case After(before, step) =>
      CleanThroughoutIff(maxRestarts, before);
      if NeverReadopts(maxRestarts, before) {
        RunKeepsInv(maxRestarts, before);
        CleanAtEnd(maxRestarts, before);
        StepCleanIff(maxRestarts, Run(maxRestarts, before), step);
      }
  }

  lemma InitialClean()
    ensures Clean(Initial)
  {
  }

  lemma CleanAtEnd(maxRestarts: nat, trace: Trace<Step>)
    requires CleanThroughout(maxRestarts, trace)
    ensures Clean(Run(maxRestarts, trace))
  {
  }

  /** And the condition bites: the adoption, once written, records the same workload again. */
  lemma ReadoptionRepeats(maxRestarts: nat, w: World, step: Step)
    requires Inv(maxRestarts, w) && Readopts(w, step) && !Last(w.versions).ref && !Terminal(Last(w.versions))
    ensures var n := Next(maxRestarts, Next(maxRestarts, w, step), Write(false));
      |n.versions| > 0 && !Distinct(Settings(n.versions, n.recordedFor))
  {
    var n1 := Next(maxRestarts, w, step);
    var n := Next(maxRestarts, n1, Write(false));
    SettingsSnoc(n1, Last(n.versions), n.recordedFor);
    hide Settings, Sound;
    var all := Settings(w.versions, w.recordedFor);
    var k :| 0 <= k < |all| && all[k] == Slot(w).value.uid;
    var more := Settings(n.versions, n.recordedFor);
    assert more[k] == more[|all|];
  }

  // ---- What that means for the count ----

  function OwnUids(w: World): set<nat> { set u | u in w.owners && w.owners[u] == ThisJob }

  /** Every time the reference was set it was given up since, but for the one that is held. */
  lemma {:induction false} ClearingsAreSettings(maxRestarts: nat, w: World, n: nat)
    requires Inv(maxRestarts, w) && 0 < n <= |w.versions| && !w.versions[0].ref
    ensures Clearings(w.versions[..n]) + (if w.versions[n - 1].ref then 1 else 0) ==
      |Settings(w.versions[..n], w.recordedFor)|
  {
    if n >= 2 {
      ClearingsAreSettings(maxRestarts, w, n - 1);
      assert w.versions[..n][..n - 1] == w.versions[..n - 1];
      assert Sound(maxRestarts, w, n - 1);
    }
  }

  lemma {:induction false} DistinctFit(s: seq<nat>, within: set<nat>)
    requires Distinct(s) && forall k :: 0 <= k < |s| ==> s[k] in within
    ensures |s| <= |within|
  {
    if s != [] {
      DistinctFit(s[..|s| - 1], within - {Last(s)});
    }
  }

  /** In a run that never readopts, each restart used up a workload of its own. */
  lemma RestartsWithinWorkloads(maxRestarts: nat, trace: Trace<Step>)
    requires NeverReadopts(maxRestarts, trace)
    ensures var w := Run(maxRestarts, trace);
      Last(w.versions).restarts + (if Last(w.versions).ref then 1 else 0) <= |OwnUids(w)|
  {
    CleanThroughoutIff(maxRestarts, trace);
    CleanAtEnd(maxRestarts, trace);
    RunKeepsInv(maxRestarts, trace);
    ProtocolSafety(maxRestarts, trace);
    hide Run, Clearings;
    var w := Run(maxRestarts, trace);
    var n := |w.versions|;
    assert w.versions[..n] == w.versions;
    ClearingsAreSettings(maxRestarts, w, n);
    var all := Settings(w.versions, w.recordedFor);
    forall k | 0 <= k < |all| ensures all[k] in OwnUids(w) {
      SettingsOwned(maxRestarts, w, n, all[k]);
    }
    hide Settings, Inv;
    DistinctFit(Settings(w.versions, w.recordedFor), OwnUids(w));
  }

  // ---- Runs ----

  /** The cached read misses the workload, so the delete of the restart is skipped. */
  lemma DeleteSkipped() returns (trace: Trace<Step>)
    ensures Run(2, trace) == World(
      [JobStatus(false, 0, Waiting), JobStatus(true, 0, InProgress(Plain)),
       JobStatus(false, 1, InProgress(Restarting(1)))],
      [None, Some(Workload(0, ThisJob, Queued, false)), Some(Workload(0, ThisJob, Broken, false))],
      map[0 := ThisJob], Idle, map[1 := 0], [])
  {
    hide Run;
    trace := DecideRestart(2);
    trace := Then(2, trace, Delete(0, false, false));
    trace := Then(2, trace, Write(false));
  }

  lemma BrokenReadopted() returns (trace: Trace<Step>)
    ensures Run(2, trace) == World(
      [JobStatus(false, 0, Waiting), JobStatus(true, 0, InProgress(Plain)),
       JobStatus(false, 1, InProgress(Restarting(1))),
       JobStatus(true, 1, InProgress(Plain))],
      [None, Some(Workload(0, ThisJob, Queued, false)), Some(Workload(0, ThisJob, Broken, false))],
      map[0 := ThisJob], Idle, map[1 := 0, 3 := 0], [])
  {
    hide Run;
    trace := DeleteSkipped();
    trace := Then(2, trace, Reconcile(2));
    trace := Then(2, trace, Create(false));
    trace := Then(2, trace, CheckHolder(false));
    trace := Then(2, trace, Write(false));
  }

  lemma SecondRestartDecided() returns (trace: Trace<Step>)
    ensures Run(2, trace) == World(
      [JobStatus(false, 0, Waiting), JobStatus(true, 0, InProgress(Plain)),
       JobStatus(false, 1, InProgress(Restarting(1))),
       JobStatus(true, 1, InProgress(Plain))],
      [None, Some(Workload(0, ThisJob, Queued, false)), Some(Workload(0, ThisJob, Broken, false))],
      map[0 := ThisJob], Deleting(3, Some(2)), map[1 := 0, 3 := 0], [])
  {
    hide Run;
    trace := BrokenReadopted();
    trace := Then(2, trace, Reconcile(3));
    trace := Then(2, trace, Observe(2, false, true));
  }

  /** Readopting needs no terminating workload: after a skipped delete the broken one is adopted as it is. */
  lemma SkippedDeleteSpendsTwoRestarts() returns (trace: Trace<Step>)
    ensures var w := Run(2, trace);
      && Last(w.versions).restarts == 2 && |w.owners| == 1
      && forall k :: 0 <= k < |w.slots| && w.slots[k].Some? ==> !w.slots[k].value.terminating
  {
    hide Run;
    trace := SecondRestartDecided();
    trace := Then(2, trace, Delete(2, false, false));
    trace := Then(2, trace, Write(false));
  }
}
