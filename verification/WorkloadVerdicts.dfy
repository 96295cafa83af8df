/**
  What each read of a reconcile decides about its Job: success, failure, restart or nothing
  (updateStatusFromWorkload, handleWorkloadNotFound and createWorkloadFromSpec in
  pkg/controller/job_controller.go).

  Each theorem is about a reachable world, a read, and the write that follows it, and is stated on
  what was read and what is stored.
*/
module WorkloadVerdicts {
  import opened Prelude
  import opened StatusWrites
  import opened WorkloadProtocol

  /** The status stored after this step and the write it decides on. */
  function StoredAfter(maxRestarts: nat, trace: Trace<Step>, step: Step): JobStatus {
    Last(Run(maxRestarts, After(After(trace, step), Write(false))).versions)
  }

  function DecidedAfter(maxRestarts: nat, trace: Trace<Step>, step: Step): Control {
    Run(maxRestarts, After(trace, step)).control
  }

  /** The workload that was read has failed, or it started and makes no progress. */
  predicate HasEnded(slot: Option<Workload>, stalled: bool) {
    slot.Some? && (slot.value.progress == Broken || (slot.value.progress == Started && stalled))
  }

  lemma TwoSteps(maxRestarts: nat, trace: Trace<Step>, step: Step)
    ensures Run(maxRestarts, After(After(trace, step), Write(false))) ==
      Next(maxRestarts, Next(maxRestarts, Run(maxRestarts, trace), step), Write(false))
    ensures Run(maxRestarts, After(trace, step)) == Next(maxRestarts, Run(maxRestarts, trace), step)
  {
  }

  /** A write of a condition changes the phase of the stored status and nothing else. */
  lemma WriteStores(maxRestarts: nat, w: World)
    requires Inv(maxRestarts, w) && w.control.Writing? && !Terminal(Last(w.versions))
    requires !w.control.intent.Restart? && !w.control.intent.RecordRef?
    ensures var n, stored := Next(maxRestarts, w, Write(false)), Last(w.versions);
      n.versions == w.versions + [match w.control.intent
        case Succeed(seen) => stored.(phase := Phase.Succeeded(seen))
        case Fail(cause) => stored.(phase := Phase.Failed(cause))
        case _ => stored.(phase := InProgress(Plain))]
  {
    hide Grounded;
  }

  /** No write is decided on, so none is made. */
  lemma NothingToWrite(maxRestarts: nat, w: World)
    requires |w.versions| > 0 && |w.slots| > 0 && !w.control.Writing?
    ensures Next(maxRestarts, w, Write(false)) == w
  {
  }

  /**
    A read of the workload fails the Job if and only if it shows a workload that has ended and no
    restart is left or allowed; it succeeds the Job if and only if it shows a finished one; it decides
    on a restart if and only if it shows one that has ended and a restart is left and allowed; and a
    missing workload is confirmed first. Everything else leaves the Job in progress, with its reference.
  */
  lemma ObserveDecides(maxRestarts: nat, trace: Trace<Step>, cached: nat, stalled: bool, checkpoint: bool)
    requires var w := Run(maxRestarts, trace);
      w.control.Observing? && cached < |w.slots| && !Terminal(Last(w.versions))
    ensures var w, step := Run(maxRestarts, trace), Observe(cached, stalled, checkpoint);
      var view, slot, job := w.control.view, w.slots[cached], Last(w.versions);
      var decided, stored := DecidedAfter(maxRestarts, trace, step), StoredAfter(maxRestarts, trace, step);
      && view < |w.versions|
      && var left := w.versions[view].restarts < maxRestarts && checkpoint;
      && (stored.phase == Phase.Failed(WorkloadFailed(cached)) <==> HasEnded(slot, stalled) && !left)
      && (stored.phase == Phase.Succeeded(cached) <==> slot.Some? && slot.value.progress == Finished)
      && (decided == Deleting(view, Some(cached)) <==> HasEnded(slot, stalled) && left)
      && (decided == Confirming(view) <==> slot.None?)
      && stored.ref == job.ref && stored.restarts == job.restarts
      && (Terminal(stored) ==> slot.Some? && (slot.value.progress == Finished || (HasEnded(slot, stalled) && !left)))
      && (!Terminal(stored) && slot.Some? && !HasEnded(slot, stalled) ==> stored.phase == InProgress(Plain))
  {
    hide Run, Grounded, DoWrite, DoDelete, DoCreate;
    RunKeepsInv(maxRestarts, trace);
    TwoSteps(maxRestarts, trace, Observe(cached, stalled, checkpoint));
    var w := Run(maxRestarts, trace);
    NextKeepsInv(maxRestarts, w, Observe(cached, stalled, checkpoint));
    var n := Next(maxRestarts, w, Observe(cached, stalled, checkpoint));
    if n.control.Writing? {
      WriteStores(maxRestarts, n);
    } else {
      NothingToWrite(maxRestarts, n);
    }
  }

  /** A live read of a missing workload fails the Job, or decides on a restart, if and only if it finds none. */
  lemma ConfirmDecides(maxRestarts: nat, trace: Trace<Step>, fails: bool, checkpoint: bool)
    requires var w := Run(maxRestarts, trace); w.control.Confirming? && !Terminal(Last(w.versions))
    ensures var w, step := Run(maxRestarts, trace), Confirm(fails, checkpoint);
      var view, job := w.control.view, Last(w.versions);
      var decided, stored := DecidedAfter(maxRestarts, trace, step), StoredAfter(maxRestarts, trace, step);
      && view < |w.versions|
      && var left := w.versions[view].restarts < maxRestarts && checkpoint;
      && var missing := !fails && Slot(w).None?;
      && (stored.phase == Phase.Failed(WorkloadDeleted) <==> missing && !left)
      && (decided == Deleting(view, None) <==> missing && left)
      && (!missing || left ==> stored == job)
      && stored.ref == job.ref && stored.restarts == job.restarts
  {
    hide Run, Grounded, DoWrite, DoDelete, DoCreate;
    RunKeepsInv(maxRestarts, trace);
    TwoSteps(maxRestarts, trace, Confirm(fails, checkpoint));
    var w := Run(maxRestarts, trace);
    NextKeepsInv(maxRestarts, w, Confirm(fails, checkpoint));
    var n := Next(maxRestarts, w, Confirm(fails, checkpoint));
    if n.control.Writing? {
      WriteStores(maxRestarts, n);
    } else {
      NothingToWrite(maxRestarts, n);
    }
  }

  /**
    A create that finds its name taken adopts the holder if and only if that is the Job's own, fails the
    Job if and only if it is a stranger's that is not on its way out, and otherwise leaves the Job alone.
  */
  lemma HolderDecides(maxRestarts: nat, trace: Trace<Step>, fails: bool)
    requires var w := Run(maxRestarts, trace); w.control.CheckingHolder? && !Terminal(Last(w.versions))
    ensures var w, step := Run(maxRestarts, trace), CheckHolder(fails);
      var n := Run(maxRestarts, After(After(trace, step), Write(false)));
      var stored, job, seen := Last(n.versions), Last(w.versions), !fails && Slot(w).Some?;
      && (|n.versions| > |w.versions| && stored.phase == InProgress(Plain) <==>
            seen && Slot(w).value.owner == ThisJob)
      && (seen && Slot(w).value.owner == ThisJob ==>
            stored.ref && |w.versions| in n.recordedFor && n.recordedFor[|w.versions|] == Slot(w).value.uid)
      && (stored.phase.Failed? <==> seen && Slot(w).value.owner == Stranger && !Slot(w).value.terminating)
      && (stored.phase.Failed? ==> stored.phase.cause == NameHeldBy(Slot(w).value.uid))
      && (|n.versions| == |w.versions| <==>
            !seen || (Slot(w).value.owner == Stranger && Slot(w).value.terminating))
      && n.slots == w.slots && stored.restarts == job.restarts
  {
    RunKeepsInv(maxRestarts, trace);
    TwoSteps(maxRestarts, trace, CheckHolder(fails));
    hide Run, Grounded;
  }

  /** A create that is not refused makes a workload under a free name and records it; a taken name is looked at. */
  lemma CreateDecides(maxRestarts: nat, trace: Trace<Step>, refused: bool)
    requires var w := Run(maxRestarts, trace); w.control.Creating? && !Terminal(Last(w.versions))
    ensures var w, step := Run(maxRestarts, trace), Create(refused);
      var n := Run(maxRestarts, After(After(trace, step), Write(false)));
      var stored, free, uid := Last(n.versions), Slot(w).None?, |w.owners|;
      && (|n.versions| > |w.versions| <==> !refused && free)
      && (DecidedAfter(maxRestarts, trace, step) == CheckingHolder(w.control.view) <==> !refused && !free)
      && (!refused && free ==>
            && stored == JobStatus(true, Last(w.versions).restarts, InProgress(Plain))
            && n.recordedFor == w.recordedFor[|w.versions| := uid] && n.owners == w.owners[uid := ThisJob]
            && n.slots == w.slots + [Some(Workload(uid, ThisJob, Queued, false))])
      && (refused || !free ==> n.slots == w.slots && n.owners == w.owners)
  {
    RunKeepsInv(maxRestarts, trace);
    TwoSteps(maxRestarts, trace, Create(refused));
    hide Run, Grounded;
  }

  /**
    The delete of a restart removes the holder, or marks it, if and only if its cached read finds a
    workload and the call does not fail; a failed call leaves everything as it is, and otherwise the
    restart goes on to its write.
  */
  lemma DeleteDecides(maxRestarts: nat, trace: Trace<Step>, cached: nat, fails: bool, lingers: bool)
    requires var w := Run(maxRestarts, trace); w.control.Deleting? && cached < |w.slots|
    ensures var w := Run(maxRestarts, trace);
      var n := Run(maxRestarts, After(trace, Delete(cached, fails, lingers)));
      var view, found := w.control.view, w.slots[cached].Some?;
      && view < |w.versions|
      && var job := w.versions[view];
      && (n.control == Idle <==> found && fails)
      && (n.control != Idle ==>
            n.control == Writing(Copy(view, JobStatus(false, job.restarts + 1, job.phase)), Restart(job.restarts + 1)))
      && (found && !fails && Slot(w).Some? ==>
            n.slots == w.slots + [if lingers then Some(Slot(w).value.(terminating := true)) else None])
      && (!found || fails || Slot(w).None? ==> n.slots == w.slots)
      && n.versions == w.versions
  {
    RunKeepsInv(maxRestarts, trace);
    TwoSteps(maxRestarts, trace, Delete(cached, fails, lingers));
    hide Run, Grounded;
  }

  /** A reconcile of a version that is not terminal looks at the workload it has a reference to, or creates one. */
  lemma ReconcileDecides(maxRestarts: nat, trace: Trace<Step>, view: nat)
    requires var w := Run(maxRestarts, trace); w.control == Idle && view < |w.versions|
    ensures var w := Run(maxRestarts, trace);
      var control := DecidedAfter(maxRestarts, trace, Reconcile(view));
      && (control == Idle <==> Terminal(w.versions[view]))
      && (control == Observing(view) <==> !Terminal(w.versions[view]) && w.versions[view].ref)
      && (control == Creating(view) <==> !Terminal(w.versions[view]) && !w.versions[view].ref)
  {
    TwoSteps(maxRestarts, trace, Reconcile(view));
    hide Run;
  }

  /** The Workflow's timeout fails a Job that has not ended, and leaves one that has. */
  lemma TimeoutDecides(maxRestarts: nat, trace: Trace<Step>)
    ensures var w, n := Run(maxRestarts, trace), Run(maxRestarts, After(trace, WorkflowTimesOut));
      && (Terminal(Last(w.versions)) ==> n == w)
      && (!Terminal(Last(w.versions)) ==>
            n == w.(versions := w.versions + [Last(w.versions).(phase := Phase.Failed(JobTimedOut))]))
  {
  }
}
