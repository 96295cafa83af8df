/**
  Interruption accounting of a goodput measurement
  (pkg/controller/goodputmeasurement_controller.go).

  Two detectors watch for the same restart of a Job: one for the moment its workload reference is
  gone, one for a restart count ahead of the interruption count. Their evidence is split over the
  persisted status and in-memory state that a controller restart loses; status writes may be
  lost, and a reconcile may read any earlier version of the status. The Job is seen in the order
  it changed. Times are in seconds.
*/
module Interruptions {
  import opened Prelude

  /** A recorded interruption. `id` numbers the recordings; the source has no such field. */
  datatype Event = Event(id: nat, at: int)

  /** The reschedule and resume time one completed interruption added. */
  datatype Credit = Credit(id: nat, reschedule: int, resume: int)

  /** The status; `credits` and `startups` list what the two sums are made of. */
  datatype Status = Status(
    count: nat, pending: Option<Event>, start: Option<int>, appStart: Option<int>,
    reschedule: int, resume: int, credits: seq<Credit>, startups: seq<int>, complete: bool)

  datatype Memory = Memory(trainingStarted: bool, pending: Option<Event>, appStart: Option<int>)

  datatype JobPhase = Running | Succeeded | Failed

  datatype Job = Job(restarts: nat, ref: bool, phase: JobPhase)

  datatype World = World(versions: seq<Status>, memory: Option<Memory>, job: Job, nextId: nat)

  const Blank := Status(0, None, None, None, 0, 0, [], [], false)
  const Initial := World([Blank], None, Job(0, false, Running), 0)

  /** What a log read showed: the first training step and the application start, if any. */
  datatype Window = Window(first: Option<int>, appStart: Option<int>)

  datatype Step =
    | Sample(view: nat, podReady: bool, window: Option<Window>, interruptedAt: int, now: int, lost: bool)
    | Finish(view: nat, window: Option<Window>, interruptedAt: int, lost: bool)
    | ControllerRestarts
    | JobResetsStall(now: int)
    | JobRestarts
    | JobRecordsRef
    | JobEnds(failed: bool)

  // ---- The measurement's operations ----

  /** getOrCreateState, from the status. */
  function Recover(s: Status): Memory { Memory(s.start.Some?, s.pending, s.appStart) }

  /** recordInterruptionFromRestart. */
  function Record(s: Status, e: Event): (Memory, Status) {
    (Memory(false, Some(e), None), s.(count := s.count + 1, pending := Some(e)))
  }

  function AddStartup(s: Status, time: int): Status {
    if time > 0 then s.(resume := s.resume + time, startups := s.startups + [time]) else s
  }

  /** completeInterruption. */
  function Complete(s: Status, e: Event, first: int, windowStart: Option<int>, appStart: Option<int>): Status {
    var scheduled :=
      if windowStart.Some? then windowStart.value else if appStart.Some? then appStart.value else first;
    var c := Credit(e.id, Max(0, scheduled - e.at), Max(0, first - scheduled));
    s.(reschedule := s.reschedule + c.reschedule, resume := s.resume + c.resume, credits := s.credits + [c])
  }

  /** The application start: the first one seen while training has not started. */
  function AppStart(m: Memory, w: Window): Option<int> {
    if !m.trainingStarted && m.appStart.None? then w.appStart else m.appStart
  }

  function TrainingStart(m: Memory, s: Status, w: Window): Option<int> {
    if !m.trainingStarted && w.first.Some? && s.start.None? then w.first else s.start
  }

  /** A fresh start: the time from the application start to the first step. */
  function FreshStart(m: Memory, s: Status, w: Window): Status {
    var app := AppStart(m, w);
    if !m.trainingStarted && w.first.Some? && m.pending.None? && app.Some?
    then AddStartup(s, w.first.value - app.value) else s
  }

  /** Whether the window completes the pending interruption. */
  predicate Completes(m: Memory, w: Window) { m.pending.Some? && w.first.Some? }

  function Resumed(m: Memory, s: Status, w: Window): Status {
    if Completes(m, w) then Complete(s, m.pending.value, w.first.value, w.appStart, AppStart(m, w)) else s
  }

  /** A start-up time that a restart of the controller kept from being added. */
  function LateStart(m: Memory, s: Status, w: Window, trainingStart: Option<int>): Status {
    var app := AppStart(m, w);
    if && (m.trainingStarted || w.first.Some?) && s.resume == 0
       && (m.pending.None? || Completes(m, w)) && app.Some? && trainingStart.Some?
    then AddStartup(s, trainingStart.value - app.value) else s
  }

  /** The interruption part of mergeSampleWindow. */
  function Merge(m: Memory, s: Status, w: Window): (Memory, Status) {
    var t := LateStart(m, Resumed(m, FreshStart(m, s, w), w), w, TrainingStart(m, s, w));
    var pending := if Completes(m, w) then None else m.pending;
    (Memory(m.trainingStarted || w.first.Some?, pending, AppStart(m, w)),
     t.(pending := if pending.None? then None else s.pending, appStart := AppStart(m, w)))
  }

  /** The in-memory state and the status, edited in place by one reconcile. */
  class Tracker {
    var trainingStarted: bool
    var pending: Option<Event>
    var appStart: Option<int>
    var status: Status

    function Value(): (Memory, Status)
      reads this
    {
      (Memory(trainingStarted, pending, appStart), status)
    }

    constructor (s: Status)
      ensures Value() == (Recover(s), s)
    {
      trainingStarted, pending, appStart, status := s.start.Some?, s.pending, s.appStart, s;
    }

    method RecordInterruption(e: Event)
      modifies this
      ensures Value() == Record(old(status), e)
    {
      pending := Some(e);
      trainingStarted := false;
      appStart := None;
      status := status.(pending := Some(e));
      status := status.(count := status.count + 1);
    }

    method CompleteInterruption(first: int, windowStart: Option<int>)
      requires pending.Some?
      modifies this`pending, this`status
      ensures pending == None
      ensures status == Complete(old(status), old(pending.value), first, windowStart, appStart)
    {
      var scheduled := first;
      if windowStart.Some? {
        scheduled := windowStart.value;
      } else if appStart.Some? {
        scheduled := appStart.value;
      }
      var c := Credit(pending.value.id, Max(0, scheduled - pending.value.at), Max(0, first - scheduled));
      status := status.(reschedule := status.reschedule + c.reschedule);
      status := status.(resume := status.resume + c.resume);
      status := status.(credits := status.credits + [c]);
      pending := None;
    }

    /** Its first half: the application start, and the start of training. */
    method NoteStart(w: Window) returns (trainingStart: Option<int>)
      modifies this
      ensures appStart == AppStart(old(Value().0), w) && pending == old(pending)
      ensures trainingStarted == (old(trainingStarted) || w.first.Some?)
      ensures trainingStart == TrainingStart(old(Value().0), old(status), w)
      ensures status == FreshStart(old(Value().0), old(status), w)
    {
      if !trainingStarted && appStart.None? {
        appStart := w.appStart;
      }
      trainingStart := status.start;
      if !trainingStarted && w.first.Some? {
        trainingStarted := true;
        if trainingStart.None? {
          trainingStart := w.first;
        }
        if pending.None? && appStart.Some? {
          status := AddStartup(status, w.first.value - appStart.value);
        }
      }
    }

    method MergeSampleWindow(w: Window)
      modifies this
      ensures Value() == Merge(old(Value().0), old(status), w)
    {
      hide AppStart, TrainingStart;
      var trainingStart := NoteStart(w);
      if pending.Some? && w.first.Some? {
        CompleteInterruption(w.first.value, w.appStart);
      }
      if trainingStarted && status.resume == 0 && pending.None? && appStart.Some? && trainingStart.Some? {
        status := AddStartup(status, trainingStart.value - appStart.value);
      }
      if pending.None? {
        status := status.(pending := None);
      }
      status := status.(appStart := appStart);
    }
  }

  function MemoryOr(w: World, s: Status): Memory { if w.memory.Some? then w.memory.value else Recover(s) }

  /** Status().Update: takes effect only if nobody wrote since the version it was read at. */
  function Update(w: World, view: nat, s: Status, lost: bool): World {
    if lost || view != |w.versions| - 1 then w else w.(versions := w.versions + [s])
  }

  /** Which detector fires, if any. */
  predicate Detects(job: Job, m: Memory, s: Status) {
    m.trainingStarted && m.pending.None? && (!job.ref || job.restarts > s.count)
  }

  /** handleRunning. */
  function DoSample(w: World, view: nat, podReady: bool, window: Option<Window>, at: int, now: int, lost: bool): World
    requires view < |w.versions|
  {
    var s, m := w.versions[view], MemoryOr(w, w.versions[view]);
    var detected := (!w.job.ref || podReady) && Detects(w.job, m, s);
    var (m1, s1) := if detected then Record(s, Event(w.nextId, at)) else (m, s);
    var w1 := w.(memory := Some(m1), nextId := if detected then w.nextId + 1 else w.nextId);
    if !w.job.ref then (if detected then Update(w1, view, s1, lost) else w1)
    else if !podReady || window.None? then w1
    else
      var (m2, s2) := Merge(m1, s1, window.value);
      Update(w1.(memory := Some(m2)), view, s2.(start := if s.start.None? then Some(now) else s.start), lost)
  }

  /** collectFinalSample, then handleSucceeded or handleFailed up to setComplete. */
  function Final(w: World, s: Status, window: Option<Window>, at: int): (Option<Memory>, Status, nat) {
    var (m1, s1) :=
      if w.job.ref && window.Some? then
        var (m, merged) := Merge(MemoryOr(w, s), s, window.value);
        (Some(m), merged.(start := if s.start.None? then window.value.first else s.start))
      else (w.memory, s);
    if w.job.phase == Failed then
      var e := Event(w.nextId, at);
      (Some(Memory(false, Some(e), None)),
       s1.(count := s1.count + 1, pending := Some(e), appStart := None, complete := true), w.nextId + 1)
    else (m1, s1.(complete := true), w.nextId)
  }

  /** setComplete re-applies the computed status after a conflict, unless the stored one is complete. */
  function DoFinish(w: World, view: nat, window: Option<Window>, at: int, lost: bool): World
    requires view < |w.versions|
  {
    var (m, s, id) := Final(w, w.versions[view], window, at);
    var w1 := w.(memory := m, nextId := id);
    if lost || Last(w.versions).complete then w1 else w1.(versions := w.versions + [s])
  }

  function Next(w: World, step: Step): (n: World)
    requires |w.versions| > 0
    ensures w.versions <= n.versions
  {
    match step
    case Sample(view, podReady, window, at, now, lost) =>
      if view >= |w.versions| || w.versions[view].complete || w.job.phase != Running then w
      else DoSample(w, view, podReady, window, at, now, lost)
    case Finish(view, window, at, lost) =>
      if view >= |w.versions| || w.versions[view].complete || w.job.phase == Running then w
      else DoFinish(w, view, window, at, lost)
    case ControllerRestarts => w.(memory := None)
    // Only a Job that has recorded a reference restarts its workload.
    case JobResetsStall(now) =>
      if !w.job.ref && w.job.restarts == 0 then w
      else w.(versions := w.versions + [Last(w.versions).(start := Some(now), appStart := None)])
    case JobRestarts =>
      if w.job.phase != Running || !w.job.ref then w else w.(job := Job(w.job.restarts + 1, false, Running))
    case JobRecordsRef => if w.job.phase != Running then w else w.(job := w.job.(ref := true))
    case JobEnds(failed) =>
      if w.job.phase != Running then w else w.(job := w.job.(phase := if failed then Failed else Succeeded))
  }

  function Run(trace: Trace<Step>): (w: World)
    ensures |w.versions| > 0
  {
    match trace
    case Start => Initial
    case After(before, step) => Next(Run(before), step)
  }

  // ---- The count ----

  ghost predicate CountHolds(w: World, s: Status) {
    s.count <= w.job.restarts + if s.complete then 1 else 0
  }

  /** While the reference is gone, the interruption is either not yet counted, or counted and pending. */
  ghost predicate GapHolds(w: World)
    requires |w.versions| > 0
  {
    var s := Last(w.versions);
    !w.job.ref && !s.complete ==>
      if w.job.restarts == 0 then
        && (forall i :: 0 <= i < |w.versions| ==> w.versions[i].start.None?)
        && (w.memory.Some? ==> !w.memory.value.trainingStarted)
      else
        || s.count < w.job.restarts
        || (s.pending.Some? && (w.memory.None? || w.memory.value.pending.Some? || !w.memory.value.trainingStarted))
  }

  ghost predicate CountInv(w: World) {
    && |w.versions| > 0
    && (forall i :: 0 <= i < |w.versions| ==> CountHolds(w, w.versions[i]))
    && GapHolds(w)
    && (w.job.phase == Running ==> !Last(w.versions).complete)
  }

  lemma SampleKeepsCount(w: World, step: Step)
    requires CountInv(w) && step.Sample?
    ensures CountInv(Next(w, step))
  {
  }

  lemma NextKeepsCount(w: World, step: Step)
    requires CountInv(w)
    ensures CountInv(Next(w, step))
  {
    if step.Sample? {
      SampleKeepsCount(w, step);
    }
  }

  lemma {:induction false} RunKeepsCount(trace: Trace<Step>)
    ensures CountInv(Run(trace))
  {
    if trace.After? {
      RunKeepsCount(trace.before);
      NextKeepsCount(Run(trace.before), trace.step);
    }
  }

  /**
    In every run, and whatever version each reconcile read: no stored interruption count exceeds
    the Job's restarts while the measurement is in progress, nor by more than one once complete.
  */
  lemma CountBounded(trace: Trace<Step>, i: nat)
    requires i < |Run(trace).versions|
    ensures var w := Run(trace);
      w.versions[i].count <= w.job.restarts + if w.versions[i].complete then 1 else 0
  {
    RunKeepsCount(trace);
    assert CountHolds(Run(trace), Run(trace).versions[i]);
  }

  // ---- First terminal write wins ----

  /** All but the two times the Job controller resets. */
  function Frozen(s: Status): Status { s.(start := None, appStart := None) }

  /** Once a stored status is complete no step changes what it measured. */
  lemma NextKeepsComplete(w: World, step: Step)
    requires CountInv(w) && Last(w.versions).complete
    ensures Frozen(Last(Next(w, step).versions)) == Frozen(Last(w.versions))
    ensures !step.JobResetsStall? ==> Next(w, step).versions == w.versions
  {
  }

  lemma {:induction false} CompleteIsFinal(trace: Trace<Step>, more: seq<Step>)
    requires Last(Run(trace).versions).complete
    ensures Frozen(Last(Run(Extend(trace, more)).versions)) == Frozen(Last(Run(trace).versions))
    decreases |more|
  {
    if more != [] {
      RunKeepsCount(trace);
      NextKeepsComplete(Run(trace), more[0]);
      CompleteIsFinal(After(trace, more[0]), more[1..]);
    }
  }

  // ---- Each interruption is credited at most once ----

  ghost predicate HasId(credits: seq<Credit>, id: nat) { exists i :: 0 <= i < |credits| && credits[i].id == id }

  ghost predicate DistinctIds(credits: seq<Credit>) {
    forall i, j :: 0 <= i < j < |credits| ==> credits[i].id != credits[j].id
  }

  function SumReschedule(credits: seq<Credit>): int {
    if credits == [] then 0 else SumReschedule(credits[..|credits| - 1]) + Last(credits).reschedule
  }

  function SumResume(credits: seq<Credit>): int {
    if credits == [] then 0 else SumResume(credits[..|credits| - 1]) + Last(credits).resume
  }

  function Sum(s: seq<int>): int { if s == [] then 0 else Sum(s[..|s| - 1]) + Last(s) }

  /** The two sums are made of the listed credits and start-up times, none of them negative. */
  ghost predicate Adds(s: Status) {
    && s.reschedule == SumReschedule(s.credits)
    && s.resume == SumResume(s.credits) + Sum(s.startups)
    && (forall i :: 0 <= i < |s.credits| ==> s.credits[i].reschedule >= 0 && s.credits[i].resume >= 0)
    && (forall i :: 0 <= i < |s.startups| ==> s.startups[i] > 0)
  }

  ghost predicate Sound(s: Status) { Adds(s) && DistinctIds(s.credits) }

  lemma AddStartupSound(s: Status, time: int)
    requires Sound(s)
    ensures Sound(AddStartup(s, time))
  {
    var t := AddStartup(s, time);
    if time > 0 {
      assert t.startups[..|s.startups|] == s.startups;
      hide SumReschedule, SumResume;
      assert Adds(t);
    }
  }

  lemma CompleteSound(s: Status, e: Event, first: int, windowStart: Option<int>, appStart: Option<int>)
    requires Sound(s) && !HasId(s.credits, e.id)
    ensures Sound(Complete(s, e, first, windowStart, appStart))
  {
    var t := Complete(s, e, first, windowStart, appStart);
    var c := Last(t.credits);
    assert t.credits == s.credits + [c] && t.credits[..|s.credits|] == s.credits;
    assert Adds(t);
    forall i, j | 0 <= i < j < |t.credits|
      ensures t.credits[i].id != t.credits[j].id
    {
      assert s.credits[i] == t.credits[i];
    }
  }

  /** Neither the pending event nor the start times are part of what was added. */
  lemma SoundFrame(s: Status, t: Status)
    requires Sound(s)
    requires (t.reschedule, t.resume, t.credits, t.startups) == (s.reschedule, s.resume, s.credits, s.startups)
    ensures Sound(t)
  {
  }

  /** A merge credits the pending event, at most, and then clears it. */
  lemma MergeCredits(m: Memory, s: Status, w: Window)
    ensures var (n, t) := Merge(m, s, w);
      && (t.pending.None? || t.pending == s.pending)
      && if Completes(m, w) then
           && |t.credits| == |s.credits| + 1 && t.credits[..|s.credits|] == s.credits
           && t.credits[|s.credits|].id == m.pending.value.id
           && n.pending.None? && t.pending.None?
         else t.credits == s.credits && n.pending == m.pending
  {
  }

  lemma MergeSound(m: Memory, s: Status, w: Window)
    requires Sound(s) && (m.pending.Some? ==> !HasId(s.credits, m.pending.value.id))
    ensures Sound(Merge(m, s, w).1)
  {
    hide Sound, Complete, AddStartup, HasId;
    var app, begun := AppStart(m, w), TrainingStart(m, s, w);
    var s1 := FreshStart(m, s, w);
    if s1 != s { AddStartupSound(s, w.first.value - app.value); }
    assert s1.credits == s.credits by { FreshStartCredits(m, s, w); }
    var s2 := Resumed(m, s1, w);
    if Completes(m, w) { CompleteSound(s1, m.pending.value, w.first.value, w.appStart, app); }
    var s3 := LateStart(m, s2, w, begun);
    if s3 != s2 { AddStartupSound(s2, begun.value - app.value); }
    SoundFrame(s3, Merge(m, s, w).1);
  }

  lemma FreshStartCredits(m: Memory, s: Status, w: Window)
    ensures FreshStart(m, s, w).credits == s.credits
  {
  }

  /** The event was recorded and has not been credited. */
  ghost predicate Open(credits: seq<Credit>, e: Option<Event>, nextId: nat) {
    e.Some? ==> e.value.id < nextId && !HasId(credits, e.value.id)
  }

  /** Memory is recovered from a version whose pending interruption the stored version has not credited. */
  ghost predicate RecoversOpen(w: World, step: Step)
    requires |w.versions| > 0
  {
    (step.Sample? || step.Finish?) && w.memory.None? && step.view < |w.versions| ==>
      Open(Last(w.versions).credits, w.versions[step.view].pending, w.nextId)
  }

  ghost predicate OpenInv(w: World)
    requires |w.versions| > 0
  {
    var last := Last(w.versions);
    && (forall i :: 0 <= i < |w.versions| ==>
          !w.versions[i].complete && w.versions[i].credits <= last.credits)
    && (forall i :: 0 <= i < |last.credits| ==> last.credits[i].id < w.nextId)
    && Open(last.credits, last.pending, w.nextId)
    && (w.memory.Some? ==> Open(last.credits, w.memory.value.pending, w.nextId))
  }

  ghost predicate CreditInv(w: World) {
    && |w.versions| > 0
    && (forall i :: 0 <= i < |w.versions| ==> Sound(w.versions[i]))
    && (!Last(w.versions).complete ==> OpenInv(w))
  }

  /** A write of a later status keeps the invariant; so does one that is lost. */
  lemma UpdateKeepsCredit(w: World, view: nat, s: Status, lost: bool)
    requires CreditInv(w) && !Last(w.versions).complete && view < |w.versions|
    requires view == |w.versions| - 1 ==>
      && Sound(s) && !s.complete && Last(w.versions).credits <= s.credits
      && (forall i :: 0 <= i < |s.credits| ==> s.credits[i].id < w.nextId)
      && Open(s.credits, s.pending, w.nextId)
      && (w.memory.Some? ==> Open(s.credits, w.memory.value.pending, w.nextId))
    ensures CreditInv(Update(w, view, s, lost))
  {
  }

  /** What a merge does to the credits and the pending events. */
  lemma MergeOpen(m: Memory, s: Status, w: Window, nextId: nat)
    requires Sound(s) && Open(s.credits, m.pending, nextId) && Open(s.credits, s.pending, nextId)
    requires forall i :: 0 <= i < |s.credits| ==> s.credits[i].id < nextId
    ensures var (n, t) := Merge(m, s, w);
      && Sound(t) && s.credits <= t.credits && t.complete == s.complete
      && (forall i :: 0 <= i < |t.credits| ==> t.credits[i].id < nextId)
      && Open(t.credits, n.pending, nextId) && Open(t.credits, t.pending, nextId)
  {
    MergeSound(m, s, w);
    MergeCredits(m, s, w);
    MergeKeepsComplete(m, s, w);
    hide Merge, Sound;
  }

  lemma MergeKeepsComplete(m: Memory, s: Status, w: Window)
    ensures Merge(m, s, w).1.complete == s.complete
  {
  }

  /** Recording an interruption, with a number not used before. */
  lemma RecordOpen(w: World, m: Memory, s: Status, at: int)
    requires Sound(s) && forall i :: 0 <= i < |s.credits| ==> s.credits[i].id < w.nextId
    ensures var (n, t) := Record(s, Event(w.nextId, at));
      && Sound(t) && t.credits == s.credits && t.complete == s.complete
      && Open(t.credits, n.pending, w.nextId + 1) && Open(t.credits, t.pending, w.nextId + 1)
  {
  }

  lemma RecordMemory(s: Status, t: Status, e: Event)
    ensures Record(s, e).0 == Record(t, e).0
  {
  }

  lemma DetectKeepsCredit(w: World, m: Memory, nextId: nat)
    requires CreditInv(w) && !Last(w.versions).complete && nextId >= w.nextId
    requires Open(Last(w.versions).credits, m.pending, nextId)
    ensures CreditInv(w.(memory := Some(m), nextId := nextId))
  {
  }

  lemma SampleKeepsCredit(w: World, step: Step)
    requires CreditInv(w) && RecoversOpen(w, step) && step.Sample?
    requires step.view < |w.versions| && !w.versions[step.view].complete && w.job.phase == Running
    ensures CreditInv(DoSample(w, step.view, step.podReady, step.window, step.interruptedAt, step.now, step.lost))
  {
    hide Sound, Merge, Record, Update;
    var view := step.view;
    var s, m := w.versions[view], MemoryOr(w, w.versions[view]);
    var last := Last(w.versions);
    if last.complete {
      assert view != |w.versions| - 1;
      CompleteIgnoresSample(w, step);
      return;
    }
    var detected := (!w.job.ref || step.podReady) && Detects(w.job, m, s);
    RecordOpen(w, m, last, step.interruptedAt);
    var e := Event(w.nextId, step.interruptedAt);
    RecordMemory(s, last, e);
    var (m1, s1) := if detected then Record(s, e) else (m, s);
    var nextId := if detected then w.nextId + 1 else w.nextId;
    DetectKeepsCredit(w, m1, nextId);
    var w1 := w.(memory := Some(m1), nextId := nextId);
    if !w.job.ref {
      if detected { UpdateKeepsCredit(w1, view, s1, step.lost); }
    } else if step.podReady && step.window.Some? {
      MergeCredits(m1, s1, step.window.value);
      var (m2, s2) := Merge(m1, s1, step.window.value);
      var t := s2.(start := if s.start.None? then Some(step.now) else s.start);
      DetectKeepsCredit(w, m2, nextId);
      if view == |w.versions| - 1 {
        MergeOpen(m1, s1, step.window.value, nextId);
        SoundFrame(s2, t);
      }
      UpdateKeepsCredit(w1.(memory := Some(m2)), view, t, step.lost);
    }
  }

  lemma CompleteIgnoresSample(w: World, step: Step)
    requires |w.versions| > 0 && step.Sample? && step.view < |w.versions| - 1
    ensures
      DoSample(w, step.view, step.podReady, step.window, step.interruptedAt, step.now, step.lost).versions == w.versions
  {
  }

  lemma FinishKeepsCredit(w: World, step: Step)
    requires CreditInv(w) && RecoversOpen(w, step) && step.Finish?
    requires step.view < |w.versions| && !w.versions[step.view].complete
    ensures CreditInv(DoFinish(w, step.view, step.window, step.interruptedAt, step.lost))
  {
    hide Sound, Merge;
    var s, last := w.versions[step.view], Last(w.versions);
    if !last.complete {
      var m := MemoryOr(w, s);
      OlderStaysOpen(s.credits, last.credits, m.pending, w.nextId);
      if w.job.ref && step.window.Some? {
        MergeSound(m, s, step.window.value);
        MergeCredits(m, s, step.window.value);
      }
      var (n, t, nextId) := Final(w, s, step.window, step.interruptedAt);
      FinalSound(w, s, step.window, step.interruptedAt);
      if !step.lost {
        assert Last(w.versions + [t]) == t;
      }
    }
  }

  lemma OlderStaysOpen(older: seq<Credit>, newer: seq<Credit>, e: Option<Event>, nextId: nat)
    requires older <= newer && Open(newer, e, nextId)
    ensures Open(older, e, nextId)
  {
  }

  lemma FinalSound(w: World, s: Status, window: Option<Window>, at: int)
    requires Sound(s)
    requires w.job.ref && window.Some? ==> Sound(Merge(MemoryOr(w, s), s, window.value).1)
    ensures Sound(Final(w, s, window, at).1) && Final(w, s, window, at).1.complete
  {
  }

  lemma NextKeepsCredit(w: World, step: Step)
    requires CreditInv(w) && RecoversOpen(w, step)
    ensures CreditInv(Next(w, step))
  {
    hide Sound, DoSample, DoFinish, HasId;
    match step
    case Sample(view, podReady, window, at, now, lost) =>
      if view < |w.versions| && !w.versions[view].complete && w.job.phase == Running { SampleKeepsCredit(w, step); }
    case Finish(view, window, at, lost) =>
      if view < |w.versions| && !w.versions[view].complete { FinishKeepsCredit(w, step); }
    case JobResetsStall(now) => SoundFrame(Last(w.versions), Last(w.versions).(start := Some(now), appStart := None));
    case _ =>
  }

  ghost predicate RecoversThroughout(trace: Trace<Step>) {
    trace.After? ==> RecoversThroughout(trace.before) && RecoversOpen(Run(trace.before), trace.step)
  }

  lemma BlankSound()
    ensures Sound(Blank)
  {
  }

  lemma InitialCredit()
    ensures CreditInv(Initial)
  {
    hide Sound, HasId, SumReschedule, SumResume, Sum;
    BlankSound();
    assert Initial.versions == [Blank];
  }

  lemma {:induction false} RunKeepsCredit(trace: Trace<Step>)
    requires RecoversThroughout(trace)
    ensures CreditInv(Run(trace))
  {
    hide CreditInv, RecoversOpen, Next;
    InitialCredit();
    if trace.After? {
      RunKeepsCredit(trace.before);
      NextKeepsCredit(Run(trace.before), trace.step);
    }
  }

  /**
    Lost writes, conflicts and controller restarts never credit an interruption twice: in every
    stored status the credits carry distinct interruptions and the two sums are exactly the credits
    and the start-up times, none of which is negative.
  */
  lemma CreditedAtMostOnce(trace: Trace<Step>, i: nat)
    requires RecoversThroughout(trace) && i < |Run(trace).versions|
    ensures var s := Run(trace).versions[i];
      && DistinctIds(s.credits)
      && s.reschedule == SumReschedule(s.credits)
      && s.resume == SumResume(s.credits) + Sum(s.startups)
      && (forall k :: 0 <= k < |s.credits| ==> s.credits[k].reschedule >= 0 && s.credits[k].resume >= 0)
      && (forall k :: 0 <= k < |s.startups| ==> s.startups[k] > 0)
  {
    hide Run, Next;
    RunKeepsCredit(trace);
    assert Sound(Run(trace).versions[i]);
  }

  /** The workload runs again and a window with a first step is merged into the stored version. */
  function Resume(w: World, first: int): World
    requires |w.versions| > 0
  {
    Next(Next(w, JobRecordsRef), Sample(|w.versions| - 1, true, Some(Window(Some(first), None)), 0, 0, false))
  }

  /** The condition on recovery is needed: what violates it is credited a second time by the next window. */
  lemma RecoveryIsExact(w: World, view: nat, first: int)
    requires CreditInv(w) && !Last(w.versions).complete && w.job.phase == Running && view < |w.versions|
    requires w.versions[view].pending.Some? ==> w.versions[view].pending.value.id < w.nextId
    ensures var recovered := w.(memory := Some(Recover(w.versions[view])));
      Open(Last(w.versions).credits, w.versions[view].pending, w.nextId) <==>
      DistinctIds(Last(Resume(recovered, first).versions).credits)
  {
    hide Sound;
    var last, pending := Last(w.versions), w.versions[view].pending;
    var recovered := w.(memory := Some(Recover(w.versions[view])));
    if Open(last.credits, pending, w.nextId) {
      var n := Next(recovered, JobRecordsRef);
      assert CreditInv(n);
      NextKeepsCredit(n, Sample(|w.versions| - 1, true, Some(Window(Some(first), None)), 0, 0, false));
      assert CreditInv(Resume(recovered, first));
      SoundIsDistinct(Last(Resume(recovered, first).versions));
    } else {
      var m := Recover(w.versions[view]);
      MergeCredits(m, last, Window(Some(first), None));
      var credits := Last(Resume(recovered, first).versions).credits;
      var i :| 0 <= i < |last.credits| && last.credits[i].id == pending.value.id;
      assert credits[i] == last.credits[i];
      assert credits[|last.credits|].id == pending.value.id;
    }
  }

  lemma SoundIsDistinct(s: Status)
    requires Sound(s)
    ensures DistinctIds(s.credits)
  {
  }

  // ---- Runs that break the rules ----

  lemma Then(trace: Trace<Step>, step: Step) returns (longer: Trace<Step>)
    ensures longer == After(trace, step) && Run(longer) == Next(Run(trace), step)
  {
    longer := After(trace, step);
  }

  const Training := Status(0, None, Some(10), Some(0), 0, 10, [], [10], false)

  /** Training has been sampled once. */
  lemma Sampled() returns (trace: Trace<Step>)
    ensures Run(trace) == World([Blank, Training], Some(Memory(true, None, Some(0))), Job(0, true, Running), 0)
  {
    assert Run(Start) == Initial;
    hide Run;
    trace := Then(Start, JobRecordsRef);
    assert Run(trace) == Initial.(job := Job(0, true, Running));
    trace := Then(trace, Sample(0, true, Some(Window(Some(10), Some(0))), 0, 10, false));
    assert Last(Run(trace).versions) == Training by { assert [] + [10] == [10]; }
  }

  /** Then the Job restarts its workload. */
  lemma Interrupted() returns (trace: Trace<Step>)
    ensures Run(trace) == World([Blank, Training], Some(Memory(true, None, Some(0))), Job(1, false, Running), 0)
  {
    hide Run;
    trace := Sampled();
    trace := Then(trace, JobRestarts);
  }

  /** The interruption is recorded and credited, each with a write that lands. */
  lemma Recovered() returns (trace: Trace<Step>)
    ensures Run(trace) == World(
      [Blank, Training, Training.(count := 1, pending := Some(Event(0, 20))),
       Status(1, None, Some(10), Some(25), 5, 15, [Credit(0, 5, 5)], [10], false)],
      Some(Memory(true, None, Some(25))), Job(1, true, Running), 1)
  {
    hide Run;
    trace := Interrupted();
    trace := Then(trace, Sample(1, false, None, 20, 20, false));
    assert Run(trace) == World(
      [Blank, Training, Training.(count := 1, pending := Some(Event(0, 20)))],
      Some(Memory(false, Some(Event(0, 20)), None)), Job(1, false, Running), 1);
    trace := Then(trace, JobRecordsRef);
    trace := Then(trace, Sample(2, true, Some(Window(Some(30), Some(25))), 0, 30, false));
    assert Last(Run(trace).versions).credits == [Credit(0, 5, 5)];
  }

  /** A restarted controller that reads a version from before the credit gives it again. */
  lemma StaleRecoveryCreditsTwice() returns (trace: Trace<Step>)
    ensures Last(Run(trace).versions).credits == [Credit(0, 5, 5), Credit(0, 0, 40)]
  {
    hide Run;
    trace := Recovered();
    trace := Then(trace, ControllerRestarts);
    trace := Then(trace, Sample(2, true, Some(Window(None, None)), 0, 31, false));
    assert Run(trace).memory == Some(Memory(true, Some(Event(0, 20)), Some(0)));
    assert |Run(trace).versions| == 4;
    trace := Then(trace, Sample(3, true, Some(Window(Some(40), None)), 0, 40, false));
    assert Last(Run(trace).versions).credits == [Credit(0, 5, 5)] + [Credit(0, 0, 40)];
  }

  /** The interruption is found, kept in memory alone, and credited. */
  lemma CreditedFromMemory() returns (trace: Trace<Step>)
    ensures Run(trace) == World(
      [Blank, Training, Status(0, None, Some(10), Some(25), 5, 15, [Credit(0, 5, 5)], [10], false)],
      Some(Memory(true, None, Some(25))), Job(1, true, Running), 1)
  {
    hide Run;
    trace := Interrupted();
    trace := Then(trace, JobRecordsRef);
    trace := Then(trace, Sample(1, true, None, 20, 20, false));
    trace := Then(trace, Sample(1, true, Some(Window(Some(30), Some(25))), 0, 30, false));
    assert Last(Run(trace).versions).credits == [Credit(0, 5, 5)];
  }

  /**
    Without any stale read, one restart may be charged as two interruptions. An interruption found
    just before a failed log read is kept in memory only; once it is credited its count is lost, and
    the restart count still being ahead makes the next sample record the same restart again.
  */
  lemma OneRestartCreditedTwice() returns (trace: Trace<Step>)
    ensures var w := Run(trace);
      && Last(w.versions).credits == [Credit(0, 5, 5), Credit(1, 0, 15)]
      && Last(w.versions).count == 1 && w.job.restarts == 1
  {
    hide Run;
    trace := CreditedFromMemory();
    trace := Then(trace, Sample(2, true, Some(Window(Some(40), Some(25))), 35, 40, false));
  }
}
