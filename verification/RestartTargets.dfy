/**
  Which workload the delete of a restart hits, and when the restart is written
  (restartFromCheckpoint in pkg/controller/job_controller.go).
*/
module RestartTargets {
  import opened Prelude
  import opened StatusWrites
  import opened WorkloadProtocol
  import opened WorkloadConditions

  // ---- The delete hits the workload the restart was decided on ----

  /** The state of the workload a restart was decided on shows this workload. */
  ghost predicate Saw(w: World, seen: Option<nat>, uid: nat) {
    seen.Some? && seen.value < |w.slots| && w.slots[seen.value].Some? && w.slots[seen.value].value.uid == uid
  }

  ghost predicate OnTarget(w: World) {
    forall k :: 0 <= k < |w.deletes| ==> Saw(w, w.deletes[k].seen, w.deletes[k].uid)
  }

  /** The step is a delete that reaches a holder of the name. */
  predicate Deletes(w: World, step: Step)
    requires |w.slots| > 0
  {
    && step.Delete? && !step.fails && step.cached < |w.slots| && w.slots[step.cached].Some? && Slot(w).Some?
    && w.control.Deleting? && w.control.view < |w.versions|
  }

  /** The UID precondition that restartFromCheckpoint does not put on its delete. */
  ghost predicate HitsTarget(w: World, step: Step)
    requires |w.slots| > 0
  {
    Deletes(w, step) ==> Saw(w, w.control.seen, Slot(w).value.uid)
  }

  /** A step deletes the holder, if anything, and only as the delete of a restart. */
  lemma DeletesOf(maxRestarts: nat, w: World, step: Step)
    requires |w.versions| > 0 && |w.slots| > 0
    ensures var n := Next(maxRestarts, w, step);
      && w.slots <= n.slots
      && n.deletes == if Deletes(w, step) then w.deletes + [Hit(w.control.seen, Slot(w).value.uid)] else w.deletes
  {
    if !step.Write? {
      hide DoWrite;
    }
  }

  lemma StepTargetIff(maxRestarts: nat, w: World, step: Step)
    requires Inv(maxRestarts, w) && OnTarget(w)
    ensures OnTarget(Next(maxRestarts, w, step)) <==> HitsTarget(w, step)
  {
    var n := Next(maxRestarts, w, step);
    DeletesOf(maxRestarts, w, step);
    hide Next, Grounded;
    if !HitsTarget(w, step) {
      assert !Saw(n, n.deletes[|w.deletes|].seen, n.deletes[|w.deletes|].uid);
    }
  }

  ghost predicate OnTargetThroughout(maxRestarts: nat, trace: Trace<Step>) {
    OnTarget(Run(maxRestarts, trace)) && (trace.After? ==> OnTargetThroughout(maxRestarts, trace.before))
  }

  ghost predicate HitsTargetThroughout(maxRestarts: nat, trace: Trace<Step>) {
    trace.After? ==>
      HitsTargetThroughout(maxRestarts, trace.before) && HitsTarget(Run(maxRestarts, trace.before), trace.step)
  }

  /**
    Through a run every delete hits the workload its restart was decided on if and only if, at each
    delete, the holder of the name has the UID that the deciding read returned. A restart decided on
    a missing workload has no such UID: it must find the name empty still.
  */
  lemma {:induction false} OnTargetThroughoutIff(maxRestarts: nat, trace: Trace<Step>)
    ensures OnTargetThroughout(maxRestarts, trace) <==> HitsTargetThroughout(maxRestarts, trace)
  {
    hide Next, HitsTarget, Inv;
    if trace.After? {
      OnTargetThroughoutIff(maxRestarts, trace.before);
      if OnTargetThroughout(maxRestarts, trace.before) {
        RunKeepsInv(maxRestarts, trace.before);
        StepTargetIff(maxRestarts, Run(maxRestarts, trace.before), trace.step);
      }
    }
  }

  /** What every delete was decided on had failed, or had started and stalled. */
  ghost predicate DecidedOnEnded(w: World) {
    forall k :: 0 <= k < |w.deletes| && w.deletes[k].seen.Some? ==> SeenEnded(w, w.deletes[k].seen.value)
  }

  lemma {:induction false} RestartsAreDecidedOnEnded(maxRestarts: nat, trace: Trace<Step>)
    ensures DecidedOnEnded(Run(maxRestarts, trace))
  {
    if trace.After? {
      RestartsAreDecidedOnEnded(maxRestarts, trace.before);
      RunKeepsInv(maxRestarts, trace.before);
      DeletesOf(maxRestarts, Run(maxRestarts, trace.before), trace.step);
      hide Grounded, Next;
    }
  }

  /** So in such a run no healthy workload is ever deleted. */
  lemma OnTargetDeletesEnded(maxRestarts: nat, trace: Trace<Step>, k: nat)
    requires HitsTargetThroughout(maxRestarts, trace) && k < |Run(maxRestarts, trace).deletes|
    ensures var w := Run(maxRestarts, trace);
      exists i: nat :: SeenEnded(w, i) && w.slots[i].value.uid == w.deletes[k].uid
  {
    OnTargetThroughoutIff(maxRestarts, trace);
    RestartsAreDecidedOnEnded(maxRestarts, trace);
    hide Run;
    var w := Run(maxRestarts, trace);
    assert Saw(w, w.deletes[k].seen, w.deletes[k].uid);
    assert SeenEnded(w, w.deletes[k].seen.value);
  }

  // ---- A case that can be seen to be one ----

  /** A cached read that is behind, but not behind a replacement of the workload. */
  ghost predicate ReadsHolder(w: World, step: Step)
    requires |w.slots| > 0
  {
    step.Observe? && step.cached < |w.slots| && w.slots[step.cached].Some? && Slot(w).Some? ==>
      w.slots[step.cached].value.uid == Slot(w).value.uid
  }

  ghost predicate ReadsHolderThroughout(maxRestarts: nat, trace: Trace<Step>) {
    trace.After? ==>
      ReadsHolderThroughout(maxRestarts, trace.before) && ReadsHolder(Run(maxRestarts, trace.before), trace.step)
  }

  ghost predicate Aimed(w: World)
    requires |w.slots| > 0
  {
    w.control.Deleting? && Slot(w).Some? ==> Saw(w, w.control.seen, Slot(w).value.uid)
  }

  lemma NextKeepsAimed(maxRestarts: nat, w: World, step: Step)
    requires |w.versions| > 0 && |w.slots| > 0
    requires Aimed(w) && !step.StrangerCreates? && ReadsHolder(w, step)
    ensures Aimed(Next(maxRestarts, w, step)) && HitsTarget(w, step)
  {
    if !step.Write? {
      hide DoWrite;
    }
  }

  /**
    Nobody else takes the name and no read shows a workload that has been replaced: then every delete
    hits the workload its restart was decided on. Between a decision and its delete the Job makes no
    workload, so there is nothing more to ask of the delete's own reads.
  */
  lemma {:induction false} CurrentReadsHitTarget(maxRestarts: nat, trace: Trace<Step>)
    requires NoStrangers(trace) && ReadsHolderThroughout(maxRestarts, trace)
    ensures HitsTargetThroughout(maxRestarts, trace) && Aimed(Run(maxRestarts, trace))
  {
    if trace.After? {
      CurrentReadsHitTarget(maxRestarts, trace.before);
      NextKeepsAimed(maxRestarts, Run(maxRestarts, trace.before), trace.step);
      hide Next;
    }
  }

  // ---- When a restart is written ----

  /**
    The reference is cleared and the restart counted, both or neither, if and only if the copy is
    the stored version and its condition does not already name this restart. A conflict drops the two
    edits, for they were made outside the callback, and leaves the text of the condition behind.
  */
  lemma RestartCommitsIff(maxRestarts: nat, w: World)
    requires Inv(maxRestarts, w) && w.control.Writing? && w.control.intent.Restart?
    ensures var n, stored := Next(maxRestarts, w, Write(false)), Last(w.versions);
      && (|n.versions| > |w.versions| && Last(n.versions).restarts == stored.restarts + 1 <==>
            && w.control.copy.version == |w.versions| - 1
            && stored.phase != InProgress(Restarting(w.control.intent.count)))
      && (Last(n.versions).restarts == stored.restarts + 1 ==> stored.ref && !Last(n.versions).ref)
      && (Last(n.versions).restarts != stored.restarts + 1 ==>
            Last(n.versions).restarts == stored.restarts && Last(n.versions).ref == stored.ref)
  {
    hide Grounded;
  }

  /** The text of a restart without its edits, and no workload. */
  ghost predicate Stuck(maxRestarts: nat, w: World) {
    && |w.versions| > 0 && |w.slots| > 0 && Slot(w).None?
    && var s, last := Last(w.versions), |w.versions| - 1;
    && s.ref && s.restarts < maxRestarts && s.phase == InProgress(Restarting(s.restarts + 1))
    && (match w.control
        case Idle => true
        case Observing(view) => view == last
        case Confirming(view) => view == last
        case Deleting(view, _) => view == last
        case Writing(copy, intent) => copy == Copy(last, RestartEdit(s)) && intent == Restart(s.restarts + 1)
        case _ => false)
  }

  /** Reads are up to date, the checkpoint stays, and neither a stranger nor the timeout steps in. */
  predicate Quiet(w: World, step: Step) {
    match step
    case Reconcile(view) => view + 1 >= |w.versions|
    case Observe(cached, _, checkpoint) => checkpoint && cached + 1 >= |w.slots|
    case Confirm(_, checkpoint) => checkpoint
    case WorkflowTimesOut => false
    case StrangerCreates => false
    case _ => true
  }

  predicate QuietRun(maxRestarts: nat, trace: Trace<Step>, more: seq<Step>)
    decreases |more|
  {
    more != [] ==>
      Quiet(Run(maxRestarts, trace), more[0]) && QuietRun(maxRestarts, After(trace, more[0]), more[1..])
  }

  lemma StuckStep(maxRestarts: nat, w: World, step: Step)
    requires Stuck(maxRestarts, w) && Quiet(w, step)
    ensures var n := Next(maxRestarts, w, step); Stuck(maxRestarts, n) && n.versions == w.versions
  {
  }

  /** Then nothing is ever written again, however often the Job is reconciled. */
  lemma {:induction false} StuckStays(maxRestarts: nat, trace: Trace<Step>, more: seq<Step>)
    requires Stuck(maxRestarts, Run(maxRestarts, trace)) && QuietRun(maxRestarts, trace, more)
    ensures Run(maxRestarts, Extend(trace, more)).versions == Run(maxRestarts, trace).versions
    decreases |more|
  {
    hide Next;
    if more != [] {
      StuckStep(maxRestarts, Run(maxRestarts, trace), more[0]);
      StuckStays(maxRestarts, After(trace, more[0]), more[1..]);
    }
  }

  // ---- Runs ----

  /** A condition is written, and then the workload fails. */
  lemma Reported() returns (trace: Trace<Step>)
    ensures Run(2, trace) == World(
      [JobStatus(false, 0, Waiting), JobStatus(true, 0, InProgress(Plain)), JobStatus(true, 0, InProgress(Plain))],
      [None, Some(Workload(0, ThisJob, Queued, false))], map[0 := ThisJob], Idle, map[1 := 0], [])
  {
    hide Run;
    trace := Launch(2);
    trace := Then(2, trace, Reconcile(1));
    trace := Then(2, trace, Observe(1, false, true));
    trace := Then(2, trace, Write(false));
  }

  lemma StaleRestartDecided() returns (trace: Trace<Step>)
    ensures Run(2, trace) == World(
      [JobStatus(false, 0, Waiting), JobStatus(true, 0, InProgress(Plain)), JobStatus(true, 0, InProgress(Plain))],
      [None, Some(Workload(0, ThisJob, Queued, false)), Some(Workload(0, ThisJob, Broken, false))],
      map[0 := ThisJob], Deleting(1, Some(2)), map[1 := 0], [])
  {
    hide Run;
    trace := Reported();
    trace := Then(2, trace, WorkloadMoves(Broken));
    trace := Then(2, trace, Reconcile(1));
    trace := Then(2, trace, Observe(2, false, true));
  }

  /**
    A restart decided one version behind meets a conflict: the workload is deleted, the reference
    stays, and `StuckStays` applies.
  */
  lemma ConflictStrandsRestart() returns (trace: Trace<Step>)
    ensures Stuck(2, Run(2, trace)) && Run(2, trace).deletes == [Hit(Some(2), 0)]
  {
    hide Run;
    trace := StaleRestartDecided();
    trace := Then(2, trace, Delete(2, false, false));
    trace := Then(2, trace, Write(false));
  }

  /** The restart goes as it should, and a replacement is created. */
  lemma RestartedOnce() returns (trace: Trace<Step>)
    ensures Run(2, trace) == World(
      [JobStatus(false, 0, Waiting), JobStatus(true, 0, InProgress(Plain)),
       JobStatus(false, 1, InProgress(Restarting(1)))],
      [None, Some(Workload(0, ThisJob, Queued, false)), Some(Workload(0, ThisJob, Broken, false)), None],
      map[0 := ThisJob], Idle, map[1 := 0], [Hit(Some(2), 0)])
  {
    hide Run;
    trace := DecideRestart(2);
    trace := Then(2, trace, Delete(2, false, false));
    trace := Then(2, trace, Write(false));
  }

  lemma Replaced() returns (trace: Trace<Step>)
    ensures var w := Run(2, trace);
      && w.control == Idle && |w.versions| == 4 && w.versions[1] == JobStatus(true, 0, InProgress(Plain))
      && w.deletes == [Hit(Some(2), 0)]
      && w.slots == [None, Some(Workload(0, ThisJob, Queued, false)), Some(Workload(0, ThisJob, Broken, false)), None,
                     Some(Workload(1, ThisJob, Queued, false))]
  {
    hide Run;
    trace := RestartedOnce();
    trace := Then(2, trace, Reconcile(2));
    trace := Then(2, trace, Create(false));
    trace := Then(2, trace, Write(false));
  }

  /**
    The delete of a restart names no UID. A reconcile from before the restart was committed finds the
    old failure again and deletes the replacement, which never failed.
  */
  lemma RestartMayDeleteReplacement() returns (trace: Trace<Step>)
    ensures var w := Run(2, trace);
      && |w.deletes| == 2 && w.deletes[1].uid == 1
      && forall k :: 0 <= k < |w.slots| && w.slots[k].Some? && w.slots[k].value.uid == 1 ==>
           w.slots[k].value.progress == Queued
  {
    hide Run;
    trace := Replaced();
    trace := Then(2, trace, Crash);
    trace := Then(2, trace, Reconcile(1));
    trace := Then(2, trace, Observe(2, false, true));
    trace := Then(2, trace, Delete(4, false, false));
  }

  lemma BrokenVanishes() returns (trace: Trace<Step>)
    ensures Run(2, trace) == World(
      [JobStatus(false, 0, Waiting), JobStatus(true, 0, InProgress(Plain))],
      [None, Some(Workload(0, ThisJob, Queued, false)), Some(Workload(0, ThisJob, Broken, false)), None],
      map[0 := ThisJob], Creating(0), map[1 := 0], [])
  {
    hide Run;
    trace := Launch(2);
    trace := Then(2, trace, WorkloadMoves(Broken));
    trace := Then(2, trace, SlotEmptied);
    trace := Then(2, trace, Reconcile(0));
  }

  /** The first create's record is read late, and the second create's is lost. */
  lemma RecordLost() returns (trace: Trace<Step>)
    ensures Run(2, trace) == World(
      [JobStatus(false, 0, Waiting), JobStatus(true, 0, InProgress(Plain))],
      [None, Some(Workload(0, ThisJob, Queued, false)), Some(Workload(0, ThisJob, Broken, false)), None,
       Some(Workload(1, ThisJob, Queued, false))],
      map[0 := ThisJob, 1 := ThisJob], Idle, map[1 := 0], [])
  {
    hide Run;
    trace := BrokenVanishes();
    trace := Then(2, trace, Create(false));
    trace := Then(2, trace, Write(true));
  }

  /** It takes no committed restart and no read that goes back in time. */
  lemma FirstRestartMayDeleteReplacement() returns (trace: Trace<Step>)
    ensures var w := Run(2, trace);
      && w.deletes == [Hit(Some(2), 1)] && |w.versions| == 2 && Last(w.versions).restarts == 0
      && forall k :: 0 <= k < |w.slots| && w.slots[k].Some? && w.slots[k].value.uid == 1 ==>
           w.slots[k].value.progress == Queued
  {
    hide Run;
    trace := RecordLost();
    trace := Then(2, trace, Reconcile(1));
    trace := Then(2, trace, Observe(2, false, true));
    trace := Then(2, trace, Delete(2, false, false));
  }
}
