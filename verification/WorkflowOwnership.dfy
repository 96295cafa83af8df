/**
  Which Workflows a Certification records and which its finalizer deletes
  (pkg/controller/certification_controller.go).

  Every call to the API server is a step of its own, so that other clients may create, delete and
  replace objects between any two calls. A Certification reconciles on one worker at a time; a
  restart of the controller abandons whatever it was doing.
*/
module WorkflowOwnership {
  import opened Prelude

  /** Who controls a Workflow: this Certification, or anyone else (a same-named one included). */
  datatype Owner = Mine | Foreign

  datatype Workflow = Workflow(uid: nat, owner: Owner, terminating: bool)

  /** Whom a Workflow was made for, and under which name. */
  datatype Origin = Origin(owner: Owner, name: nat)

  datatype Control =
    | Idle
    | Exists(name: nat)                                        // Create said AlreadyExists
    | MayRecord(name: nat, uid: nat)
    | Finalizing(version: nat, next: nat)                      // about to read that reference
    | Deleting(version: nat, next: nat, uid: nat)              // read it, and it is ours

  /**
    `holders` gives the Workflow under each name and `versions` the recorded names, the stored list
    last. `made` remembers every Workflow ever made, by its UID, and `deleted` every delete by us.
  */
  datatype World = World(
    holders: map<nat, Workflow>, versions: seq<seq<nat>>, control: Control,
    deletionAsked: bool, released: bool, collision: Option<nat>,
    nextUid: nat, made: map<nat, Origin>, deleted: set<nat>)

  const Initial := World(map[], [[]], Idle, false, false, None, 0, map[], {})

  datatype Step =
    // The environment
    | ForeignCreates(name: nat)
    | HolderRemoved(name: nat)
    | HolderTerminates(name: nat)
    | CertificationDeleted
    // The controller
    | Restarts
    | Create(name: nat)
    | ReadHolder
    | Record(lost: bool)
    | BeginFinalize(version: nat)
    | ReadNext
    | Delete(atOnce: bool)
    | Release

  function Add(w: World, name: nat, owner: Owner): World {
    w.(holders := w.holders[name := Workflow(w.nextUid, owner, false)], nextUid := w.nextUid + 1,
       made := w.made[w.nextUid := Origin(owner, name)])
  }

  function Terminate(w: World, name: nat): World
    requires name in w.holders
  {
    w.(holders := w.holders[name := w.holders[name].(terminating := true)])
  }

  /** The Create call of createWorkflowForCategory. */
  function DoCreate(w: World, name: nat): World {
    if name in w.holders then w.(control := Exists(name))
    else Add(w, name, Mine).(control := MayRecord(name, w.nextUid))
  }

  /** The live read after AlreadyExists. */
  function DoReadHolder(w: World, name: nat): World {
    if name !in w.holders then w.(control := Idle)
    else
      var holder := w.holders[name];
      if holder.owner == Mine then w.(control := MayRecord(name, holder.uid))
      else if holder.terminating then w.(control := Idle)
      else w.(control := Idle, collision := Some(holder.uid))
  }

  /** The status write that records the name in workflowRef. */
  function DoRecord(w: World, name: nat, lost: bool): World
    requires |w.versions| > 0
  {
    var names := Last(w.versions);
    if lost then w.(control := Idle)
    else w.(control := Idle, versions := w.versions + [if name in names then names else names + [name]])
  }

  /** handleDeletion reads the next recorded Workflow; one that is not ours is passed over. */
  function DoReadNext(w: World): World
    requires w.control.Finalizing? && w.control.version < |w.versions|
    requires w.control.next < |w.versions[w.control.version]|
  {
    var Finalizing(version, next) := w.control;
    var name := w.versions[version][next];
    if name in w.holders && w.holders[name].owner == Mine
    then w.(control := Deleting(version, next, w.holders[name].uid))
    else w.(control := Finalizing(version, next + 1))
  }

  /**
    The delete with its UID precondition. The object goes at once or, when something holds it, is
    marked as terminating. NotFound and Conflict are passed over.
  */
  function DoDelete(w: World, atOnce: bool): World
    requires w.control.Deleting? && w.control.version < |w.versions|
    requires w.control.next < |w.versions[w.control.version]|
  {
    var Deleting(version, next, uid) := w.control;
    var name, w1 := w.versions[version][next], w.(control := Finalizing(version, next + 1));
    if name !in w.holders || w.holders[name].uid != uid then w1
    else
      var w2 := w1.(deleted := w.deleted + {uid});
      if atOnce then w2.(holders := w.holders - {name}) else Terminate(w2, name)
  }

  function DoFinalize(w: World, step: Step): World
    requires |w.versions| > 0
  {
    match step
    case BeginFinalize(version) =>
      if w.deletionAsked && !w.released && w.control == Idle && version < |w.versions|
      then w.(control := Finalizing(version, 0)) else w
    case ReadNext =>
      if && w.control.Finalizing? && w.control.version < |w.versions|
         && w.control.next < |w.versions[w.control.version]|
      then DoReadNext(w) else w
    case Delete(atOnce) =>
      if && w.control.Deleting? && w.control.version < |w.versions|
         && w.control.next < |w.versions[w.control.version]|
      then DoDelete(w, atOnce) else w
    // The update that removes the finalizer carries the version that was read.
    case Release =>
      if && w.control.Finalizing? && w.control.version == |w.versions| - 1
         && w.control.next >= |w.versions[w.control.version]|
      then w.(control := Idle, released := true) else w
    case _ => w
  }

  function Next(w: World, step: Step): (n: World)
    requires |w.versions| > 0
    ensures w.versions <= n.versions
  {
    match step
    case ForeignCreates(name) => if name in w.holders then w else Add(w, name, Foreign)
    case HolderRemoved(name) => w.(holders := w.holders - {name})
    case HolderTerminates(name) => if name in w.holders then Terminate(w, name) else w
    case CertificationDeleted => w.(deletionAsked := true)
    case Restarts => w.(control := Idle)
    // A stale read may still miss the deletion; a released Certification is gone.
    case Create(name) => if w.control == Idle && !w.released then DoCreate(w, name) else w
    case ReadHolder => if w.control.Exists? then DoReadHolder(w, w.control.name) else w
    case Record(lost) => if w.control.MayRecord? then DoRecord(w, w.control.name, lost) else w
    case _ => DoFinalize(w, step)
  }

  function Run(trace: Trace<Step>): (w: World)
    ensures |w.versions| > 0
  {
    match trace
    case Start => Initial
    case After(before, step) => Next(Run(before), step)
  }

  // ---- Safety ----

  /** A Workflow that was made under this name, for this owner. */
  ghost predicate Made(w: World, uid: nat, name: nat, owner: Owner) {
    uid in w.made && w.made[uid] == Origin(owner, name)
  }

  ghost predicate SomeMine(w: World, name: nat) { exists uid :: Made(w, uid, name, Mine) }

  /** No live Workflow of ours holds the name. */
  predicate Cleared(w: World, name: nat) {
    name in w.holders && w.holders[name].owner == Mine ==> w.holders[name].terminating
  }

  ghost predicate RecordsInv(w: World) {
    && (forall uid :: uid in w.made ==> uid < w.nextUid)
    && (forall name :: name in w.holders ==> Made(w, w.holders[name].uid, name, w.holders[name].owner))
    && (forall i, k :: 0 <= i < |w.versions| && 0 <= k < |w.versions[i]| ==> SomeMine(w, w.versions[i][k]))
    && (forall uid :: uid in w.deleted ==> uid in w.made && w.made[uid].owner == Mine)
    && (w.collision.Some? ==> w.collision.value in w.made && w.made[w.collision.value].owner == Foreign)
    && (w.control.MayRecord? ==> Made(w, w.control.uid, w.control.name, Mine))
    && (w.control.Deleting? ==> w.control.uid in w.made && w.made[w.control.uid].owner == Mine)
  }

  ghost predicate FinalizerInv(w: World)
    requires |w.versions| > 0
  {
    && (w.control.Finalizing? || w.control.Deleting? ==>
          && !w.released && w.control.version < |w.versions|
          && w.control.next <= |w.versions[w.control.version]|
          && (forall k :: 0 <= k < w.control.next ==> Cleared(w, w.versions[w.control.version][k])))
    && (w.control.Deleting? ==>
          && w.control.next < |w.versions[w.control.version]|
          && var name := w.versions[w.control.version][w.control.next];
             name in w.holders && w.holders[name].owner == Mine ==> w.holders[name].uid == w.control.uid)
    && (w.released ==>
          w.control == Idle && forall k :: 0 <= k < |Last(w.versions)| ==> Cleared(w, Last(w.versions)[k]))
  }

  ghost predicate Inv(w: World) { |w.versions| > 0 && RecordsInv(w) && FinalizerInv(w) }

  /** Nothing that was made is forgotten. */
  ghost predicate Remembers(w: World, n: World) {
    forall uid :: uid in w.made ==> uid in n.made && n.made[uid] == w.made[uid]
  }

  lemma RecordedStayMade(w: World, n: World)
    requires RecordsInv(w) && Remembers(w, n)
    ensures forall i, k :: 0 <= i < |w.versions| && 0 <= k < |w.versions[i]| ==> SomeMine(n, w.versions[i][k])
  {
    forall i, k | 0 <= i < |w.versions| && 0 <= k < |w.versions[i]|
      ensures SomeMine(n, w.versions[i][k])
    {
      var uid :| Made(w, uid, w.versions[i][k], Mine);
      assert Made(n, uid, w.versions[i][k], Mine);
    }
  }

  lemma AddKeepsRecords(w: World, name: nat, owner: Owner)
    requires Inv(w) && name !in w.holders
    ensures RecordsInv(Add(w, name, owner))
    ensures Made(Add(w, name, owner), w.nextUid, name, owner)
  {
    hide SomeMine;
    RecordedStayMade(w, Add(w, name, owner));
  }

  lemma RecordKeepsInv(w: World, lost: bool)
    requires Inv(w) && w.control.MayRecord?
    ensures Inv(DoRecord(w, w.control.name, lost))
  {
    var n := DoRecord(w, w.control.name, lost);
    RecordedStayMade(w, n);
    assert SomeMine(n, w.control.name) by { assert Made(n, w.control.uid, w.control.name, Mine); }
    hide SomeMine;
    if !lost {
      forall i, k | 0 <= i < |n.versions| && 0 <= k < |n.versions[i]|
        ensures SomeMine(n, n.versions[i][k])
      {
        if i == |w.versions| && k < |Last(w.versions)| {
          assert n.versions[i][k] == w.versions[i - 1][k];
        }
      }
    }
  }

  lemma CreateKeepsInv(w: World, name: nat)
    requires Inv(w) && w.control == Idle && !w.released
    ensures Inv(DoCreate(w, name))
  {
    hide SomeMine;
    RecordedStayMade(w, DoCreate(w, name));
    if name !in w.holders {
      AddKeepsRecords(w, name, Mine);
    }
  }

  lemma ReadHolderKeepsInv(w: World)
    requires Inv(w) && w.control.Exists?
    ensures Inv(DoReadHolder(w, w.control.name))
  {
    RecordedStayMade(w, DoReadHolder(w, w.control.name));
    hide SomeMine;
  }

  lemma EnvironmentKeepsInv(w: World, step: Step)
    requires Inv(w) && (step.ForeignCreates? || step.HolderRemoved? || step.HolderTerminates?)
    ensures Inv(Next(w, step))
  {
    if step.ForeignCreates? {
      if step.name !in w.holders {
        AddKeepsRecords(w, step.name, Foreign);
      }
    } else {
      LossKeepsInv(w, step);
      hide Next, Inv;
    }
  }

  lemma LossKeepsInv(w: World, step: Step)
    requires Inv(w) && (step.HolderRemoved? || step.HolderTerminates?)
    ensures Inv(Next(w, step))
  {
    RecordedStayMade(w, Next(w, step));
    hide SomeMine;
  }

  lemma DeleteKeepsRecords(w: World, atOnce: bool)
    requires Inv(w) && w.control.Deleting?
    ensures RecordsInv(DoDelete(w, atOnce))
  {
    RecordedStayMade(w, DoDelete(w, atOnce));
    hide SomeMine, FinalizerInv;
  }

  lemma FinalizeKeepsRecords(w: World, step: Step)
    requires Inv(w) && (step.BeginFinalize? || step.ReadNext? || step.Delete? || step.Release?)
    ensures RecordsInv(DoFinalize(w, step))
  {
    if step.Delete? {
      if w.control.Deleting? {
        DeleteKeepsRecords(w, step.atOnce);
      }
    } else {
      RecordedStayMade(w, DoFinalize(w, step));
    }
    hide SomeMine, FinalizerInv, DoDelete;
  }

  lemma FinalizeKeepsFinalizer(w: World, step: Step)
    requires Inv(w) && (step.BeginFinalize? || step.ReadNext? || step.Delete? || step.Release?)
    ensures |DoFinalize(w, step).versions| > 0 && FinalizerInv(DoFinalize(w, step))
  {
    hide RecordsInv;
  }

  lemma NextKeepsInv(w: World, step: Step)
    requires Inv(w)
    ensures Inv(Next(w, step))
  {
    hide SomeMine, DoFinalize, DoCreate, DoRecord, DoReadHolder;
    match step
    case Create(name) => if w.control == Idle && !w.released { CreateKeepsInv(w, name); }
    case ReadHolder => if w.control.Exists? { ReadHolderKeepsInv(w); }
    case Record(lost) => if w.control.MayRecord? { RecordKeepsInv(w, lost); }
    case ForeignCreates(_) => EnvironmentKeepsInv(w, step);
    case HolderRemoved(_) => EnvironmentKeepsInv(w, step);
    case HolderTerminates(_) => EnvironmentKeepsInv(w, step);
    case CertificationDeleted => RecordedStayMade(w, Next(w, step));
    case Restarts => RecordedStayMade(w, Next(w, step));
    case _ => FinalizeKeepsRecords(w, step); FinalizeKeepsFinalizer(w, step);
  }

  lemma {:induction false} RunKeepsInv(trace: Trace<Step>)
    ensures Inv(Run(trace))
  {
    if trace.After? {
      RunKeepsInv(trace.before);
      hide Inv, Next;
      NextKeepsInv(Run(trace.before), trace.step);
    }
  }

  /**
    In every run: whatever the Certification deletes was its own, even if the name changed hands
    between the ownership check and the delete; every recorded name has been held by a Workflow of
    its own; and only a Workflow that was not its own fails it with a name collision.
  */
  lemma OwnershipIsSafe(trace: Trace<Step>)
    ensures var w := Run(trace);
      && (forall uid :: uid in w.deleted ==> uid in w.made && w.made[uid].owner == Mine)
      && (forall i, k :: 0 <= i < |w.versions| && 0 <= k < |w.versions[i]| ==> SomeMine(w, w.versions[i][k]))
      && (w.collision.Some? ==> w.collision.value in w.made && w.made[w.collision.value].owner == Foreign)
  {
    RunKeepsInv(trace);
  }

  /** Once the finalizer is gone no live Workflow of the Certification holds a recorded name. */
  lemma FinalizerClearsRecorded(trace: Trace<Step>, k: nat)
    requires Run(trace).released && k < |Last(Run(trace).versions)|
    ensures Cleared(Run(trace), Last(Run(trace).versions)[k])
  {
    RunKeepsInv(trace);
  }

  // ---- Exactly which names and which Workflows ----

  ghost predicate Recorded(versions: seq<seq<nat>>, name: nat) {
    exists i, k :: 0 <= i < |versions| && 0 <= k < |versions[i]| && versions[i][k] == name
  }

  /** While a name waits to be recorded nothing else of ours holds it; a delete is about a recorded name. */
  ghost predicate ControlNames(w: World) {
    && (w.control.MayRecord? && w.control.name in w.holders && w.holders[w.control.name].owner == Mine ==>
          w.holders[w.control.name].uid == w.control.uid)
    && (w.control.Deleting? ==>
          && w.control.version < |w.versions| && w.control.next < |w.versions[w.control.version]|
          && Made(w, w.control.uid, w.versions[w.control.version][w.control.next], Mine))
  }

  /** And what is deleted was recorded. */
  ghost predicate NamesInv(w: World) {
    && ControlNames(w)
    && (forall uid :: uid in w.deleted ==> uid in w.made && Recorded(w.versions, w.made[uid].name))
  }

  lemma RecordedStays(before: seq<seq<nat>>, after: seq<seq<nat>>, name: nat)
    requires before <= after && Recorded(before, name)
    ensures Recorded(after, name)
  {
    var i, k :| 0 <= i < |before| && 0 <= k < |before[i]| && before[i][k] == name;
    assert after[i][k] == name;
  }

  lemma DeletedStaysRecorded(w: World, n: World)
    requires NamesInv(w) && w.versions <= n.versions && Remembers(w, n)
    ensures forall uid :: uid in w.deleted ==> uid in n.made && Recorded(n.versions, n.made[uid].name)
  {
    forall uid | uid in w.deleted
      ensures uid in n.made && Recorded(n.versions, n.made[uid].name)
    {
      RecordedStays(w.versions, n.versions, w.made[uid].name);
    }
  }

  lemma NextRemembers(w: World, step: Step)
    requires Inv(w)
    ensures Remembers(w, Next(w, step))
  {
    hide FinalizerInv, SomeMine;
    if step.Create? || step.ForeignCreates? {
      hide DoFinalize, DoRecord, DoReadHolder;
    } else {
      OthersMakeNothing(w, step);
      hide Next;
    }
  }

  lemma OthersMakeNothing(w: World, step: Step)
    requires |w.versions| > 0 && !step.Create? && !step.ForeignCreates?
    ensures Next(w, step).made == w.made
  {
    FinalizeMakesNothing(w, step);
    hide DoFinalize, DoCreate, Add;
  }

  lemma FinalizeMakesNothing(w: World, step: Step)
    requires |w.versions| > 0
    ensures DoFinalize(w, step).made == w.made
  {
  }

  lemma NextKeepsNames(w: World, step: Step)
    requires Inv(w) && NamesInv(w)
    ensures NamesInv(Next(w, step))
  {
    hide SomeMine, Recorded, FinalizerInv;
    if step.Delete? {
      DeleteKeepsNames(w, step);
    } else {
      OthersKeepNames(w, step);
    }
  }

  lemma DeleteKeepsNames(w: World, step: Step)
    requires Inv(w) && NamesInv(w) && step.Delete?
    ensures NamesInv(Next(w, step))
  {
    hide SomeMine, Recorded, FinalizerInv;
    NextRemembers(w, step);
    DeletedStaysRecorded(w, Next(w, step));
    if w.control.Deleting? {
      Appears(w.versions, w.control.version, w.control.next);
    }
  }

  lemma OthersKeepNames(w: World, step: Step)
    requires Inv(w) && NamesInv(w) && !step.Delete?
    ensures NamesInv(Next(w, step))
  {
    hide Next, RecordsInv, FinalizerInv, ControlNames, Recorded;
    NextRemembers(w, step);
    DeletedStaysRecorded(w, Next(w, step));
    NothingMoreDeleted(w, step);
    if step.Create? || step.ReadHolder? || step.Record? {
      RecordingKeepsNames(w, step);
    } else {
      EnvironmentKeepsNames(w, step);
    }
  }

  lemma RecordingKeepsNames(w: World, step: Step)
    requires Inv(w) && ControlNames(w) && (step.Create? || step.ReadHolder? || step.Record?)
    ensures ControlNames(Next(w, step))
  {
    hide SomeMine, FinalizerInv, DoFinalize;
  }

  lemma EnvironmentKeepsNames(w: World, step: Step)
    requires Inv(w) && ControlNames(w)
    requires !step.Create? && !step.ReadHolder? && !step.Record? && !step.Delete?
    ensures ControlNames(Next(w, step))
  {
    hide SomeMine, FinalizerInv, DoDelete, DoCreate, DoReadHolder, DoRecord;
  }

  lemma NothingMoreDeleted(w: World, step: Step)
    requires |w.versions| > 0 && !step.Delete?
    ensures Next(w, step).deleted == w.deleted
  {
    hide DoDelete;
  }

  lemma Appears(versions: seq<seq<nat>>, i: nat, k: nat)
    requires i < |versions| && k < |versions[i]|
    ensures Recorded(versions, versions[i][k])
  {
  }

  lemma {:induction false} RunKeepsNames(trace: Trace<Step>)
    ensures NamesInv(Run(trace))
  {
    if trace.After? {
      RunKeepsInv(trace.before);
      RunKeepsNames(trace.before);
      hide Inv, NamesInv, Next;
      NextKeepsNames(Run(trace.before), trace.step);
    }
  }

  /** When a name is about to be recorded, its holder is ours exactly if it is still the one that was made or read. */
  lemma RecordedHolderIsOursIff(trace: Trace<Step>)
    requires Run(trace).control.MayRecord?
    ensures var w := Run(trace);
      w.control.name in w.holders ==>
        (w.holders[w.control.name].owner == Mine <==> w.holders[w.control.name].uid == w.control.uid)
  {
    RunKeepsInv(trace);
    RunKeepsNames(trace);
    hide Run, SomeMine, Recorded, FinalizerInv;
  }

  /** Only Workflows whose name was recorded are ever deleted. */
  lemma DeletesOnlyRecorded(trace: Trace<Step>, uid: nat)
    requires uid in Run(trace).deleted
    ensures var w := Run(trace); uid in w.made && Recorded(w.versions, w.made[uid].name)
  {
    RunKeepsNames(trace);
  }

  predicate Live(w: World, name: nat) {
    name in w.holders && w.holders[name].owner == Mine && !w.holders[name].terminating
  }

  /** The rest of handleDeletion's loop, with nobody else at work. */
  function Pass(w: World, atOnce: bool): World
    requires w.control.Finalizing? && w.control.version < |w.versions|
    decreases |w.versions[w.control.version]| - w.control.next
  {
    if w.control.next >= |w.versions[w.control.version]| then w
    else
      var w1 := DoReadNext(w);
      Pass(if w1.control.Deleting? then DoDelete(w1, atOnce) else w1, atOnce)
  }

  lemma OneName(w: World, atOnce: bool, name: nat)
    requires w.control.Finalizing? && w.control.version < |w.versions|
    requires w.control.next < |w.versions[w.control.version]|
    ensures var w1 := DoReadNext(w);
      var w2 := if w1.control.Deleting? then DoDelete(w1, atOnce) else w1;
      && w2.control == Finalizing(w.control.version, w.control.next + 1) && w2.versions == w.versions
      && (Live(w2, name) <==> Live(w, name) && name != w.versions[w.control.version][w.control.next])
  {
  }

  /** A live own Workflow outlives the loop if and only if its name is not on the list. */
  lemma {:induction false} SurvivesIff(w: World, atOnce: bool, name: nat)
    requires w.control.Finalizing? && w.control.version < |w.versions|
    requires w.control.next <= |w.versions[w.control.version]|
    ensures Live(Pass(w, atOnce), name) <==>
      Live(w, name) && name !in w.versions[w.control.version][w.control.next..]
    decreases |w.versions[w.control.version]| - w.control.next
  {
    var list, k := w.versions[w.control.version], w.control.next;
    if k < |list| {
      OneName(w, atOnce, name);
      var w1 := DoReadNext(w);
      SurvivesIff(if w1.control.Deleting? then DoDelete(w1, atOnce) else w1, atOnce, name);
      assert list[k..] == [list[k]] + list[k + 1..];
    }
  }

  // ---- What the protocol does not promise ----

  lemma Then(trace: Trace<Step>, step: Step) returns (longer: Trace<Step>)
    ensures Run(longer) == Next(Run(trace), step)
  {
    longer := After(trace, step);
  }

  /** A reference is a name: its holder may have been replaced before the name was recorded. */
  lemma RecordedNameMayBeForeign() returns (trace: Trace<Step>)
    ensures var w := Run(trace);
      && Last(w.versions) == [0] && 0 in w.holders && w.holders[0].owner == Foreign
  {
    assert Run(Start) == Initial;
    hide Run;
    trace := Then(Start, Create(0));
    trace := Then(trace, HolderRemoved(0));
    trace := Then(trace, ForeignCreates(0));
    trace := Then(trace, Record(false));
    assert [] + [0] == [0];
  }

  /** The write that should have recorded the name is lost, and the Certification is deleted. */
  lemma RecordLost() returns (trace: Trace<Step>)
    ensures Run(trace) == World(map[0 := Workflow(0, Mine, false)], [[]], Idle, true, false, None, 1,
      map[0 := Origin(Mine, 0)], {})
  {
    assert Run(Start) == Initial;
    hide Run;
    trace := Then(Start, Create(0));
    trace := Then(trace, Record(true));
    trace := Then(trace, CertificationDeleted);
  }

  /** A Workflow whose name was never recorded is left to the garbage collector. */
  lemma UnrecordedWorkflowSurvives() returns (trace: Trace<Step>)
    ensures var w := Run(trace);
      w.released && Last(w.versions) == [] && 0 in w.holders && w.holders[0] == Workflow(0, Mine, false)
  {
    hide Run;
    trace := RecordLost();
    trace := Then(trace, BeginFinalize(0));
    trace := Then(trace, Release);
  }
}
