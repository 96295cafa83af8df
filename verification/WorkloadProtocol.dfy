/**
  How a Job creates, records, adopts, observes and restarts its workload
  (pkg/controller/job_controller.go).

  Each API call of a reconcile is a step of its own, so anything may happen between two calls:
  the workload is deleted, a stranger takes its name, a status write is lost, the Workflow
  times the Job out, the controller crashes. A reconcile may start from any earlier version of
  the Job, and a cached read may return anything the name ever held.
*/
module WorkloadProtocol {
  import opened Prelude
  import opened StatusWrites

  datatype Owner = ThisJob | Stranger

  datatype Progress = Queued | Started | Broken | Finished

  datatype Workload = Workload(uid: nat, owner: Owner, progress: Progress, terminating: bool)

  datatype Cause = NameHeldBy(uid: nat) | WorkloadFailed(seen: nat) | WorkloadDeleted | JobTimedOut

  /** `seen` says which version of the workload a verdict was read from. */
  datatype Phase = Waiting | InProgress(note: Note) | Succeeded(seen: nat) | Failed(cause: Cause)

  /** The text of the InProgress condition: a restart names its number. */
  datatype Note = Plain | Restarting(count: nat)

  datatype JobStatus = JobStatus(ref: bool, restarts: nat, phase: Phase)

  predicate Terminal(s: JobStatus) { s.phase.Succeeded? || s.phase.Failed? }

  /** The status write a reconcile has decided on. */
  datatype Intent =
    | RecordRef(uid: nat)  // the workload whose ownership this reconcile established
    | Restart(count: nat)  // the number in the condition's text
    | Succeed(seen: nat)
    | Fail(cause: Cause)
    | Report               // a condition only

  /** Where the reconcile in flight stands. */
  datatype Control =
    | Idle
    | Creating(view: nat)
    | CheckingHolder(view: nat)
    | Observing(view: nat)
    | Confirming(view: nat)
    | Deleting(view: nat, seen: Option<nat>)  // the state of the workload the restart was decided on
    | Writing(copy: Copy<JobStatus>, intent: Intent)

  datatype World = World(
    versions: seq<JobStatus>,        // every version of the Job's status
    slots: seq<Option<Workload>>,    // every state of the workload's name; the last is current
    owners: map<nat, Owner>,         // the owner of every workload ever created
    control: Control,
    recordedFor: map<nat, nat>,      // version that recorded a reference -> workload it was recorded for
    deletes: seq<Hit>                // what this controller deleted
  )

  /** A delete: the state of the workload the restart was decided on, if any, and the workload it hit. */
  datatype Hit = Hit(seen: Option<nat>, uid: nat)

  const Initial := World([JobStatus(false, 0, Waiting)], [None], map[], Idle, map[], [])

  datatype Step =
    // the controller
    | Reconcile(view: nat)
    | Create(refused: bool)
    | CheckHolder(fails: bool)
    | Observe(cached: nat, stalled: bool, checkpoint: bool)
    | Confirm(fails: bool, checkpoint: bool)
    | Delete(cached: nat, fails: bool, lingers: bool)
    | Write(lost: bool)
    | Crash
    // everyone else
    | WorkflowTimesOut
    | SlotEmptied
    | SlotTerminates
    | StrangerCreates
    | WorkloadMoves(to: Progress)

  function Slot(w: World): Option<Workload>
    requires |w.slots| > 0
  {
    Last(w.slots)
  }

  function SetSlot(w: World, slot: Option<Workload>): World { w.(slots := w.slots + [slot]) }

  function Born(w: World, owner: Owner): World {
    var uid := |w.owners|;
    SetSlot(w, Some(Workload(uid, owner, Queued, false))).(owners := w.owners[uid := owner])
  }

  /** shouldRestart. */
  predicate ShouldRestart(maxRestarts: nat, job: JobStatus, checkpoint: bool) {
    job.restarts < maxRestarts && checkpoint
  }

  /** The callback of each write; setExclusiveStatusConditionUnless stops at a terminal Job. */
  function Mutate(intent: Intent, job: JobStatus): Option<JobStatus> {
    if Terminal(job) then None else
    match intent
    case RecordRef(_) => Some(job.(ref := true, phase := InProgress(Plain)))
    // The callback changes the condition only; the same text again changes nothing.
    case Restart(count) =>
      if job.phase == InProgress(Restarting(count)) then None else Some(job.(phase := InProgress(Restarting(count))))
    case Succeed(seen) => Some(job.(phase := Succeeded(seen)))
    case Fail(cause) => Some(job.(phase := Phase.Failed(cause)))
    case Report => Some(job.(phase := InProgress(Plain)))
  }

  /** The copy restartFromCheckpoint writes from: edited before the callback runs. */
  function RestartEdit(job: JobStatus): JobStatus { job.(ref := false, restarts := job.restarts + 1) }

  /** A workload that failed, stalled or vanished: restart if the budget allows, else fail. */
  function RestartOrFail(
    maxRestarts: nat, job: JobStatus, view: nat, seen: Option<nat>, checkpoint: bool, cause: Cause): Control
  {
    if ShouldRestart(maxRestarts, job, checkpoint) then Deleting(view, seen)
    else Writing(Copy(view, job), Fail(cause))
  }

  /** updateStatusFromWorkload, on what the cached read of the workload returned. */
  function AfterObserve(
    maxRestarts: nat, job: JobStatus, view: nat, cached: nat, slot: Option<Workload>, stalled: bool, checkpoint: bool)
    : Control
  {
    if slot.None? then Confirming(view)
    else if slot.value.progress == Broken || (slot.value.progress == Started && stalled) then
      RestartOrFail(maxRestarts, job, view, Some(cached), checkpoint, WorkloadFailed(cached))
    else if slot.value.progress == Finished then Writing(Copy(view, job), Succeed(cached))
    else Writing(Copy(view, job), Report)
  }

  /** The AlreadyExists branch of createWorkloadFromSpec, on what the live read returned. */
  function AfterCheck(job: JobStatus, view: nat, fails: bool, holder: Option<Workload>): Control {
    if fails || holder.None? then Idle
    else if holder.value.owner == ThisJob then Writing(Copy(view, job), RecordRef(holder.value.uid))
    else if holder.value.terminating then Idle
    else Writing(Copy(view, job), Fail(NameHeldBy(holder.value.uid)))
  }

  function DoCreate(w: World, view: nat, refused: bool): World
    requires view < |w.versions| && |w.slots| > 0
  {
    if refused then w.(control := Idle)
    else if Slot(w).Some? then w.(control := CheckingHolder(view))
    else Born(w, ThisJob).(control := Writing(Copy(view, w.versions[view]), RecordRef(|w.owners|)))
  }

  /** The delete of restartFromCheckpoint. It names the workload; it does not say which one. */
  function DoDelete(w: World, view: nat, seen: Option<nat>, cached: nat, fails: bool, lingers: bool): World
    requires view < |w.versions| && cached < |w.slots|
  {
    if w.slots[cached].Some? && fails then w.(control := Idle)
    else
      var edited := RestartEdit(w.versions[view]);
      var toWrite := w.(control := Writing(Copy(view, edited), Restart(edited.restarts)));
      if w.slots[cached].Some? && Slot(w).Some? then
        var victim := Slot(w).value;
        SetSlot(toWrite, if lingers then Some(victim.(terminating := true)) else None)
          .(deletes := w.deletes + [Hit(seen, victim.uid)])
      else toWrite
  }

  function DoWrite(w: World, copy: Copy<JobStatus>, intent: Intent): World
    requires |w.versions| > 0
  {
    var next := Mutate(intent, Base(w.versions, copy));
    if next.None? || Mutate(intent, copy.value).None? then w.(control := Idle)
    else
      w.(versions := w.versions + [next.value],
         recordedFor := if intent.RecordRef? then w.recordedFor[|w.versions| := intent.uid] else w.recordedFor,
         control := Idle)
  }

  function Next(maxRestarts: nat, w: World, step: Step): World
    requires |w.versions| > 0 && |w.slots| > 0
    ensures var n := Next(maxRestarts, w, step); w.versions <= n.versions && w.slots <= n.slots
  {
    var c := w.control;
    match step
    case Reconcile(view) =>
      if c != Idle || view >= |w.versions| || Terminal(w.versions[view]) then w
      else w.(control := if w.versions[view].ref then Observing(view) else Creating(view))
    case Create(refused) =>
      if !c.Creating? || c.view >= |w.versions| then w else DoCreate(w, c.view, refused)
    case CheckHolder(fails) =>
      if !c.CheckingHolder? || c.view >= |w.versions| then w
      else w.(control := AfterCheck(w.versions[c.view], c.view, fails, Slot(w)))
    case Observe(cached, stalled, checkpoint) =>
      if !c.Observing? || c.view >= |w.versions| || cached >= |w.slots| then w
      else
        w.(control :=
          AfterObserve(maxRestarts, w.versions[c.view], c.view, cached, w.slots[cached], stalled, checkpoint))
    case Confirm(fails, checkpoint) =>
      if !c.Confirming? || c.view >= |w.versions| then w
      else if fails || Slot(w).Some? then w.(control := Idle)
      else w.(control := RestartOrFail(maxRestarts, w.versions[c.view], c.view, None, checkpoint, WorkloadDeleted))
    case Delete(cached, fails, lingers) =>
      if !c.Deleting? || c.view >= |w.versions| || cached >= |w.slots| then w
      else DoDelete(w, c.view, c.seen, cached, fails, lingers)
    case Write(lost) =>
      if !c.Writing? then w else if lost then w.(control := Idle) else DoWrite(w, c.copy, c.intent)
    case Crash => w.(control := Idle)
    case WorkflowTimesOut =>
      if Terminal(Last(w.versions)) then w
      else w.(versions := w.versions + [Last(w.versions).(phase := Phase.Failed(JobTimedOut))])
    case SlotEmptied => SetSlot(w, None)
    case SlotTerminates => if Slot(w).None? then w else SetSlot(w, Some(Slot(w).value.(terminating := true)))
    case StrangerCreates => if Slot(w).Some? then w else Born(w, Stranger)
    case WorkloadMoves(to) => if Slot(w).None? then w else SetSlot(w, Some(Slot(w).value.(progress := to)))
  }

  function Run(maxRestarts: nat, trace: Trace<Step>): (w: World)
    ensures |w.versions| > 0 && |w.slots| > 0
    ensures w.versions[0] == Initial.versions[0]
  {
    match trace
    case Start => Initial
    case After(before, step) => Next(maxRestarts, Run(maxRestarts, before), step)
  }

  // ---- What every run keeps ----

  /** Two consecutive versions of the status. */
  ghost predicate Follows(before: JobStatus, after: JobStatus) {
    // A terminal status is the last one.
    && !Terminal(before)
    // The count goes up exactly when the reference is cleared, and by one.
    && (before.ref && !after.ref <==> after.restarts == before.restarts + 1)
    && (after.restarts == before.restarts || after.restarts == before.restarts + 1)
  }

  ghost predicate Owned(w: World, uid: nat, owner: Owner) { uid in w.owners && w.owners[uid] == owner }

  ghost predicate Sound(maxRestarts: nat, w: World, i: nat)
    requires i < |w.versions|
  {
    var job := w.versions[i];
    && job.restarts <= maxRestarts
    && (i > 0 ==> Follows(w.versions[i - 1], job))
    // A reference is recorded only for a workload this Job controls.
    && (i > 0 && job.ref && !w.versions[i - 1].ref ==> i in w.recordedFor && Owned(w, w.recordedFor[i], ThisJob))
    // The Job fails over its name only because of a stranger's workload.
    && (job.phase.Failed? && job.phase.cause.NameHeldBy? ==> Owned(w, job.phase.cause.uid, Stranger))
    // It succeeds only on a workload seen finished under its name.
    && (job.phase.Succeeded? ==> SeenFinished(w, job.phase.seen))
  }

  ghost predicate SeenFinished(w: World, seen: nat) {
    seen < |w.slots| && w.slots[seen].Some? && w.slots[seen].value.progress == Finished
  }

  /** A restart is decided on a workload that has failed, or has started and stalls. */
  ghost predicate SeenEnded(w: World, seen: nat) {
    && seen < |w.slots| && w.slots[seen].Some?
    && (w.slots[seen].value.progress == Broken || w.slots[seen].value.progress == Started)
  }

  ghost predicate ControlSound(maxRestarts: nat, w: World) {
    var c := w.control;
    match c
    case Idle => true
    case Creating(view) => view < |w.versions| && !Terminal(w.versions[view])
    case CheckingHolder(view) => view < |w.versions| && !Terminal(w.versions[view])
    case Observing(view) => view < |w.versions| && w.versions[view].ref && !Terminal(w.versions[view])
    case Confirming(view) => view < |w.versions| && w.versions[view].ref && !Terminal(w.versions[view])
    case Deleting(view, seen) =>
      && view < |w.versions| && w.versions[view].ref && !Terminal(w.versions[view])
      && w.versions[view].restarts < maxRestarts
      && (seen.Some? ==> SeenEnded(w, seen.value))
    case Writing(copy, intent) =>
      && copy.version < |w.versions| && !Terminal(copy.value)
      && (match intent
          case RecordRef(uid) => Owned(w, uid, ThisJob)
          case Restart(count) => count == copy.value.restarts
          case Succeed(seen) => SeenFinished(w, seen)
          case Fail(cause) => cause.NameHeldBy? ==> Owned(w, cause.uid, Stranger)
          case Report => true)
      && (if intent.Restart? then
            && w.versions[copy.version].ref
            && w.versions[copy.version].restarts < maxRestarts
            && copy.value == RestartEdit(w.versions[copy.version])
          else copy.value == w.versions[copy.version])
  }

  ghost predicate Grounded(maxRestarts: nat, w: World) {
    && |w.versions| > 0 && |w.slots| > 0
    && (forall u :: u in w.owners ==> u < |w.owners|)
    && (forall k :: 0 <= k < |w.slots| && w.slots[k].Some? ==> Owned(w, w.slots[k].value.uid, w.slots[k].value.owner))
    && (forall i: nat :: i < |w.versions| ==> Sound(maxRestarts, w, i))
    && (forall i :: i in w.recordedFor ==> i < |w.versions|)
  }

  ghost predicate Inv(maxRestarts: nat, w: World) { Grounded(maxRestarts, w) && ControlSound(maxRestarts, w) }

  /** What was sound stays sound: versions, workload states and owners are only ever added. */
  lemma StaysSound(maxRestarts: nat, w: World, n: World)
    requires Grounded(maxRestarts, w)
    requires w.versions <= n.versions && w.slots <= n.slots
    requires forall u :: u in w.owners ==> u in n.owners && n.owners[u] == w.owners[u]
    requires forall i :: i in w.recordedFor ==> i in n.recordedFor && n.recordedFor[i] == w.recordedFor[i]
    ensures forall i: nat :: i < |w.versions| ==> Sound(maxRestarts, n, i)
  {
    forall i: nat | i < |w.versions|
      ensures Sound(maxRestarts, n, i)
    {
      assert Sound(maxRestarts, w, i);
    }
  }

  lemma GroundedIgnoresControl(maxRestarts: nat, w: World, control: Control)
    requires Grounded(maxRestarts, w)
    ensures Grounded(maxRestarts, w.(control := control))
  {
    StaysSound(maxRestarts, w, w.(control := control));
  }

  lemma SetSlotKeepsGrounded(maxRestarts: nat, w: World, slot: Option<Workload>)
    requires Grounded(maxRestarts, w)
    requires slot.Some? ==> Owned(w, slot.value.uid, slot.value.owner)
    ensures Grounded(maxRestarts, SetSlot(w, slot))
  {
    StaysSound(maxRestarts, w, SetSlot(w, slot));
  }

  lemma BornKeepsGrounded(maxRestarts: nat, w: World, owner: Owner)
    requires Grounded(maxRestarts, w)
    ensures Grounded(maxRestarts, Born(w, owner)) && Owned(Born(w, owner), |w.owners|, owner)
    ensures forall u :: u in w.owners ==> u in Born(w, owner).owners && Born(w, owner).owners[u] == w.owners[u]
  {
    StaysSound(maxRestarts, w, Born(w, owner));
  }

  /** The version a write adds is sound. */
  lemma WrittenIsSound(maxRestarts: nat, w: World)
    requires Inv(maxRestarts, w) && w.control.Writing?
    ensures var n := DoWrite(w, w.control.copy, w.control.intent);
      |n.versions| > |w.versions| ==> Sound(maxRestarts, n, |w.versions|)
  {
    assert Sound(maxRestarts, w, |w.versions| - 1);
  }

  lemma WriteKeepsInv(maxRestarts: nat, w: World, lost: bool)
    requires Inv(maxRestarts, w) && w.control.Writing?
    ensures Inv(maxRestarts, Next(maxRestarts, w, Write(lost)))
  {
    var n := Next(maxRestarts, w, Write(lost));
    WrittenIsSound(maxRestarts, w);
    StaysSound(maxRestarts, w, n);
    hide Sound, Mutate, Base;
  }

  lemma TimeoutKeepsInv(maxRestarts: nat, w: World)
    requires Inv(maxRestarts, w)
    ensures Inv(maxRestarts, Next(maxRestarts, w, WorkflowTimesOut))
  {
    var n := Next(maxRestarts, w, WorkflowTimesOut);
    StaysSound(maxRestarts, w, n);
    assert Sound(maxRestarts, w, |w.versions| - 1);
    assert n.versions == w.versions || Sound(maxRestarts, n, |w.versions|);
  }

  /** A decision of the reconcile in flight moves only the control point. */
  lemma DecisionKeepsInv(maxRestarts: nat, w: World, step: Step)
    requires Inv(maxRestarts, w)
    requires step.Reconcile? || step.CheckHolder? || step.Observe? || step.Confirm? || step.Crash?
    ensures Inv(maxRestarts, Next(maxRestarts, w, step))
  {
    var n := Next(maxRestarts, w, step);
    GroundedIgnoresControl(maxRestarts, w, n.control);
    assert n == w.(control := n.control);
  }

  lemma CreateKeepsInv(maxRestarts: nat, w: World, refused: bool)
    requires Inv(maxRestarts, w)
    ensures Inv(maxRestarts, Next(maxRestarts, w, Create(refused)))
  {
    var n := Next(maxRestarts, w, Create(refused));
    if n.slots == w.slots {
      GroundedIgnoresControl(maxRestarts, w, n.control);
    } else {
      BornKeepsGrounded(maxRestarts, w, ThisJob);
      GroundedIgnoresControl(maxRestarts, Born(w, ThisJob), n.control);
    }
  }

  lemma DeleteKeepsInv(maxRestarts: nat, w: World, cached: nat, fails: bool, lingers: bool)
    requires Inv(maxRestarts, w)
    ensures Inv(maxRestarts, Next(maxRestarts, w, Delete(cached, fails, lingers)))
  {
    hide Sound;
    var n := Next(maxRestarts, w, Delete(cached, fails, lingers));
    if n.slots == w.slots {
      GroundedIgnoresControl(maxRestarts, w, n.control);
    } else {
      SetSlotKeepsGrounded(maxRestarts, w, Slot(n));
      StaysSound(maxRestarts, SetSlot(w, Slot(n)), n);
    }
  }

  /** What others do to the name leaves a reconcile in flight as it was. */
  lemma OthersKeepInv(maxRestarts: nat, w: World, step: Step)
    requires Inv(maxRestarts, w)
    requires step.SlotEmptied? || step.SlotTerminates? || step.StrangerCreates? || step.WorkloadMoves?
    ensures Inv(maxRestarts, Next(maxRestarts, w, step))
  {
    var n := Next(maxRestarts, w, step);
    if n != w {
      if step.StrangerCreates? {
        BornKeepsGrounded(maxRestarts, w, Stranger);
      } else {
        SetSlotKeepsGrounded(maxRestarts, w, Slot(n));
      }
    }
  }

  lemma NextKeepsInv(maxRestarts: nat, w: World, step: Step)
    requires Inv(maxRestarts, w)
    ensures Inv(maxRestarts, Next(maxRestarts, w, step))
  {
    match step
    case Write(lost) => if w.control.Writing? { WriteKeepsInv(maxRestarts, w, lost); }
    case WorkflowTimesOut => TimeoutKeepsInv(maxRestarts, w);
    case Create(refused) => CreateKeepsInv(maxRestarts, w, refused);
    case Delete(cached, fails, lingers) => DeleteKeepsInv(maxRestarts, w, cached, fails, lingers);
    case SlotEmptied => OthersKeepInv(maxRestarts, w, step);
    case SlotTerminates => OthersKeepInv(maxRestarts, w, step);
    case StrangerCreates => OthersKeepInv(maxRestarts, w, step);
    case WorkloadMoves(_) => OthersKeepInv(maxRestarts, w, step);
    case _ => DecisionKeepsInv(maxRestarts, w, step);
  }

  lemma {:induction false} RunKeepsInv(maxRestarts: nat, trace: Trace<Step>)
    ensures Inv(maxRestarts, Run(maxRestarts, trace))
  {
    if trace.After? {
      RunKeepsInv(maxRestarts, trace.before);
      NextKeepsInv(maxRestarts, Run(maxRestarts, trace.before), trace.step);
    }
  }

  /** How often a reference was cleared over a status history. */
  function Clearings(versions: seq<JobStatus>): nat {
    if |versions| < 2 then 0
    else
      Clearings(versions[..|versions| - 1]) +
      (if versions[|versions| - 2].ref && !Last(versions).ref then 1 else 0)
  }

  lemma {:induction false} RestartsCountClearings(versions: seq<JobStatus>)
    requires |versions| > 0 && versions[0].restarts == 0
    requires forall i :: 0 < i < |versions| ==> Follows(versions[i - 1], versions[i])
    ensures Last(versions).restarts == Clearings(versions)
    ensures forall i :: 0 <= i < |versions| ==> versions[i].restarts <= Last(versions).restarts
  {
    if |versions| > 1 {
      var init := versions[..|versions| - 1];
      RestartsCountClearings(init);
      assert Follows(versions[|versions| - 2], versions[|versions| - 1]);
      forall i | 0 <= i < |versions|
        ensures versions[i].restarts <= Last(versions).restarts
      {
        assert i < |init| ==> versions[i] == init[i];
      }
    }
  }

  /**
    Protocol safety, for every interleaving: the restart count never falls, never exceeds the
    maximum and is the number of times a reference was given up; a reference is recorded only
    for a workload this Job controls; a workload of its own under the name never fails the Job;
    and nothing is written after a terminal status.
  */
  lemma ProtocolSafety(maxRestarts: nat, trace: Trace<Step>)
    ensures var w := Run(maxRestarts, trace);
      && (forall i: nat :: i < |w.versions| ==> w.versions[i].restarts <= Last(w.versions).restarts <= maxRestarts)
      && Last(w.versions).restarts == Clearings(w.versions)
      && (forall i :: 0 < i < |w.versions| && w.versions[i].ref && !w.versions[i - 1].ref ==>
            i in w.recordedFor && Owned(w, w.recordedFor[i], ThisJob))
      && (Last(w.versions).phase.Failed? && Last(w.versions).phase.cause.NameHeldBy? ==>
            Owned(w, Last(w.versions).phase.cause.uid, Stranger))
      && (Last(w.versions).phase.Succeeded? ==> SeenFinished(w, Last(w.versions).phase.seen))
      && (forall i :: 0 <= i < |w.versions| - 1 ==> !Terminal(w.versions[i]))
  {
    RunKeepsInv(maxRestarts, trace);
    var w := Run(maxRestarts, trace);
    forall i | 0 < i < |w.versions|
      ensures Follows(w.versions[i - 1], w.versions[i])
    {
      assert Sound(maxRestarts, w, i);
    }
    RestartsCountClearings(w.versions);
    assert Sound(maxRestarts, w, |w.versions| - 1);
    forall i | 0 < i < |w.versions| && w.versions[i].ref && !w.versions[i - 1].ref
      ensures i in w.recordedFor && Owned(w, w.recordedFor[i], ThisJob)
    {
      assert Sound(maxRestarts, w, i);
    }
    forall i | 0 <= i < |w.versions| - 1
      ensures !Terminal(w.versions[i])
    {
      assert Follows(w.versions[i], w.versions[i + 1]);
    }
  }

  // ---- What the protocol does not keep ----

  lemma Then(maxRestarts: nat, trace: Trace<Step>, step: Step) returns (longer: Trace<Step>)
    ensures Run(maxRestarts, longer) == Next(maxRestarts, Run(maxRestarts, trace), step)
  {
    longer := After(trace, step);
  }

  /** The workload is created and its reference recorded. */
  lemma Launch(maxRestarts: nat) returns (trace: Trace<Step>)
    ensures Run(maxRestarts, trace) == World(
      [JobStatus(false, 0, Waiting), JobStatus(true, 0, InProgress(Plain))],
      [None, Some(Workload(0, ThisJob, Queued, false))], map[0 := ThisJob], Idle, map[1 := 0], [])
  {
    assert Run(maxRestarts, Start) == Initial;
    hide Run;
    trace := Then(maxRestarts, Start, Reconcile(0));
    trace := Then(maxRestarts, trace, Create(false));
    trace := Then(maxRestarts, trace, Write(false));
  }

  lemma StrangerFinishes(maxRestarts: nat) returns (trace: Trace<Step>)
    ensures var w := Run(maxRestarts, trace);
      && w.versions == [JobStatus(false, 0, Waiting), JobStatus(true, 0, InProgress(Plain))]
      && w.control == Idle
      && |w.slots| == 5 && w.slots[4] == Some(Workload(1, Stranger, Finished, false))
  {
    hide Run;
    trace := Launch(maxRestarts);
    trace := Then(maxRestarts, trace, SlotEmptied);
    trace := Then(maxRestarts, trace, StrangerCreates);
    trace := Then(maxRestarts, trace, WorkloadMoves(Finished));
  }

  /**
    A reference says which name, not which workload, and the reads that follow do not check the
    owner: once a stranger takes the name, the Job takes over the stranger's result.
  */
  lemma VerdictMayBeAStrangers(maxRestarts: nat) returns (trace: Trace<Step>)
    ensures var w := Run(maxRestarts, trace);
      && Last(w.versions).phase.Succeeded?
      && SeenFinished(w, Last(w.versions).phase.seen)
      && w.slots[Last(w.versions).phase.seen].value.owner == Stranger
  {
    hide Run;
    trace := StrangerFinishes(maxRestarts);
    trace := Then(maxRestarts, trace, Reconcile(1));
    trace := Then(maxRestarts, trace, Observe(4, false, false));
    trace := Then(maxRestarts, trace, Write(false));
  }

  /** The workload fails, and a reconcile decides to restart it. */
  lemma DecideRestart(maxRestarts: nat) returns (trace: Trace<Step>)
    requires maxRestarts > 0
    ensures Run(maxRestarts, trace) == World(
      [JobStatus(false, 0, Waiting), JobStatus(true, 0, InProgress(Plain))],
      [None, Some(Workload(0, ThisJob, Queued, false)), Some(Workload(0, ThisJob, Broken, false))],
      map[0 := ThisJob], Deleting(1, Some(2)), map[1 := 0], [])
  {
    hide Run;
    trace := Launch(maxRestarts);
    trace := Then(maxRestarts, trace, WorkloadMoves(Broken));
    trace := Then(maxRestarts, trace, Reconcile(1));
    trace := Then(maxRestarts, trace, Observe(2, false, true));
  }

  lemma StrangerTakesName() returns (trace: Trace<Step>)
    ensures var w := Run(1, trace);
      && w.control == Deleting(1, Some(2)) && |w.versions| == 2 && |w.slots| == 5
      && w.owners == map[0 := ThisJob, 1 := Stranger]
      && w.slots[4] == Some(Workload(1, Stranger, Queued, false)) && w.slots[2].Some? && w.deletes == []
  {
    hide Run;
    trace := DecideRestart(1);
    trace := Then(1, trace, SlotEmptied);
    trace := Then(1, trace, StrangerCreates);
  }

  /** Nor does the delete of a restart: it removes whatever holds the name. */
  lemma RestartMayDeleteAStrangers() returns (trace: Trace<Step>)
    ensures var w := Run(1, trace); exists k :: 0 <= k < |w.deletes| && Owned(w, w.deletes[k].uid, Stranger)
  {
    hide Run;
    trace := StrangerTakesName();
    trace := Then(1, trace, Delete(2, false, false));
    assert Run(1, trace).deletes[0].uid == 1 && Owned(Run(1, trace), 1, Stranger);
  }

  /** The restart is committed while the deleted workload lingers. */
  lemma RestartWhileLingering() returns (trace: Trace<Step>)
    ensures Run(2, trace) == World(
      [JobStatus(false, 0, Waiting), JobStatus(true, 0, InProgress(Plain)),
       JobStatus(false, 1, InProgress(Restarting(1)))],
      [None, Some(Workload(0, ThisJob, Queued, false)), Some(Workload(0, ThisJob, Broken, false)),
       Some(Workload(0, ThisJob, Broken, true))],
      map[0 := ThisJob], Idle, map[1 := 0], [Hit(Some(2), 0)])
  {
    hide Run;
    trace := DecideRestart(2);
    trace := Then(2, trace, Delete(2, false, true));
    trace := Then(2, trace, Write(false));
  }

  /** The Job adopts it again. */
  lemma AdoptLingering() returns (trace: Trace<Step>)
    ensures var w := Run(2, trace);
      && |w.versions| == 4 && Last(w.versions) == JobStatus(true, 1, InProgress(Plain))
      && |w.slots| == 4 && w.owners == map[0 := ThisJob] && w.control == Idle
  {
    hide Run;
    trace := RestartWhileLingering();
    trace := Then(2, trace, Reconcile(2));
    trace := Then(2, trace, Create(false));
    trace := Then(2, trace, CheckHolder(false));
    trace := Then(2, trace, Write(false));
  }

  /** When it has gone, the reconcile finds no workload and decides on another restart. */
  lemma LingeringVanishes() returns (trace: Trace<Step>)
    ensures var w := Run(2, trace);
      && |w.versions| == 4 && Last(w.versions) == JobStatus(true, 1, InProgress(Plain))
      && |w.slots| == 5 && Slot(w).None? && w.owners == map[0 := ThisJob] && w.control == Deleting(3, None)
  {
    hide Run;
    trace := AdoptLingering();
    trace := Then(2, trace, SlotEmptied);
    trace := Then(2, trace, Reconcile(3));
    trace := Then(2, trace, Observe(4, false, true));
    trace := Then(2, trace, Confirm(false, true));
  }

  /**
    The owner check comes before the check for a terminating holder, so a Job adopts its own
    workload, given up before, while that workload is on its way out; when it goes, a second restart
    is spent. One workload was ever created here, it failed once, and both restarts are gone.
  */
  lemma OneFailureMaySpendTwoRestarts() returns (trace: Trace<Step>)
    ensures var w := Run(2, trace); Last(w.versions).restarts == 2 && |w.owners| == 1
  {
    hide Run;
    trace := LingeringVanishes();
    trace := Then(2, trace, Delete(4, false, false));
    trace := Then(2, trace, Write(false));
  }
}
