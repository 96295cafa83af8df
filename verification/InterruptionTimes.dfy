/**
  What the reschedule and resume time of each credited interruption measure
  (completeInterruption, pkg/controller/goodputmeasurement_controller.go).
*/
module InterruptionTimes {
  import opened Prelude
  import opened Interruptions

  /**
    The two times of an interruption at `at` whose first step came at `first`: up to the start of the
    application and from there on; without a known start, all of it is reschedule time.
  */
  predicate Timed(c: Credit, at: int, first: int, start: Option<int>) {
    match start
    case Some(a) => c.reschedule == Max(0, a - at) && c.resume == Max(0, first - a)
    case None => c.reschedule == Max(0, first - at) && c.resume == 0
  }

  /** The application start a window shows, or else the one in memory. */
  function StartSeen(w: Window, memory: Option<int>): Option<int> { if w.appStart.Some? then w.appStart else memory }

  /** The credit a merge adds. */
  lemma MergeTimes(m: Memory, s: Status, w: Window)
    requires m.pending.Some? && w.first.Some?
    ensures var credits := Merge(m, s, w).1.credits;
      && |credits| == |s.credits| + 1 && credits[..|s.credits|] == s.credits
      && Last(credits).id == m.pending.value.id
      && Timed(Last(credits), m.pending.value.at, w.first.value, StartSeen(w, m.appStart))
  {
  }

  /** The application start after a merge: once training has started, what memory holds stays. */
  function StartKept(m: Memory, w: Window): Option<int> {
    if m.trainingStarted || m.appStart.Some? then m.appStart else w.appStart
  }

  /** The resume time the merge credits for an interruption. */
  function CreditedResume(m: Memory, s: Status, w: Window): int {
    if m.pending.Some? && w.first.Some? then Last(Merge(m, s, w).1.credits).resume else 0
  }

  /** The merge sees training start, with no interruption pending, after a known application start. */
  predicate StartsFresh(m: Memory, w: Window) {
    && !m.trainingStarted && w.first.Some? && m.pending.None?
    && StartKept(m, w).Some? && w.first.value > StartKept(m, w).value
  }

  /** Training has started and nothing is pending any more, but no resume time was ever added. */
  predicate StartsLate(m: Memory, s: Status, w: Window) {
    && (m.trainingStarted || w.first.Some?) && (m.pending.None? || w.first.Some?)
    && s.resume + CreditedResume(m, s, w) == 0 && StartKept(m, w).Some?
    && (s.start.Some? || (!m.trainingStarted && w.first.Some?))
    && (if s.start.Some? then s.start else w.first).value > StartKept(m, w).value
  }

  /**
    The start-up time a merge adds to the resume time, besides a credit: from the application start to the
    first step when training is seen to start, else to the start of training if nothing was added so far.
  */
  lemma MergeStartups(m: Memory, s: Status, w: Window)
    requires s.resume >= 0
    ensures var t, start := Merge(m, s, w).1, StartKept(m, w);
      && t.appStart == start && t.start == s.start
      && t.startups == s.startups + (
           if StartsFresh(m, w) then [w.first.value - start.value]
           else if StartsLate(m, s, w) then [(if s.start.Some? then s.start else w.first).value - start.value]
           else [])
      && t.resume - s.resume == CreditedResume(m, s, w) + (
           if StartsFresh(m, w) then w.first.value - start.value
           else if StartsLate(m, s, w) then (if s.start.Some? then s.start else w.first).value - start.value
           else 0)
  {
  }

  // ---- Over runs ----

  function WindowOf(step: Step): Option<Window> {
    match step
    case Sample(_, _, window, _, _, _) => window
    case Finish(_, window, _, _) => window
    case _ => None
  }

  function TimeOf(step: Step): Option<int> {
    match step
    case Sample(_, _, _, at, _, _) => Some(at)
    case Finish(_, _, at, _) => Some(at)
    case _ => None
  }

  /** A step of the run found this interruption, at the time it was told. */
  ghost predicate Found(trace: Trace<Step>, e: Event) {
    trace.After? &&
    (Found(trace.before, e) ||
     (Run(trace.before).nextId == e.id < Run(trace).nextId && TimeOf(trace.step) == Some(e.at)))
  }

  /** A window of the run showed this application start. */
  ghost predicate Shown(trace: Trace<Step>, start: int) {
    trace.After? &&
    (Shown(trace.before, start) || (WindowOf(trace.step).Some? && WindowOf(trace.step).value.appStart == Some(start)))
  }

  ghost predicate KnownStart(trace: Trace<Step>, start: Option<int>) { start.Some? ==> Shown(trace, start.value) }

  ghost predicate KnownEvent(trace: Trace<Step>, e: Option<Event>) { e.Some? ==> Found(trace, e.value) }

  /** What a step credits: an interruption that was found, timed by its window or by a start shown before. */
  ghost predicate CreditedBy(trace: Trace<Step>, c: Credit)
    requires trace.After?
  {
    WindowOf(trace.step).Some? && WindowOf(trace.step).value.first.Some? &&
    exists e, memory ::
      && Found(trace, e) && e.id == c.id && KnownStart(trace.before, memory)
      && Timed(c, e.at, WindowOf(trace.step).value.first.value, StartSeen(WindowOf(trace.step).value, memory))
  }

  ghost predicate Credited(trace: Trace<Step>, c: Credit) {
    trace.After? && (Credited(trace.before, c) || CreditedBy(trace, c))
  }

  ghost predicate StatusKnown(trace: Trace<Step>, s: Status) {
    && KnownEvent(trace, s.pending) && KnownStart(trace, s.appStart)
    && forall k :: 0 <= k < |s.credits| ==> Credited(trace, s.credits[k])
  }

  ghost predicate MemoryKnown(trace: Trace<Step>, m: Memory) {
    KnownEvent(trace, m.pending) && KnownStart(trace, m.appStart)
  }

  lemma {:induction false} StillKnown(trace: Trace<Step>, step: Step)
    ensures forall e :: Found(trace, e) ==> Found(After(trace, step), e)
    ensures forall a :: Shown(trace, a) ==> Shown(After(trace, step), a)
    ensures forall c :: Credited(trace, c) ==> Credited(After(trace, step), c)
  {
    hide Run, CreditedBy;
  }

  lemma StatusStillKnown(trace: Trace<Step>, step: Step, s: Status)
    requires StatusKnown(trace, s)
    ensures StatusKnown(After(trace, step), s)
  {
    StillKnown(trace, step);
    hide Found, Shown, Credited;
  }

  lemma MemoryStillKnown(trace: Trace<Step>, step: Step, m: Memory)
    requires MemoryKnown(trace, m)
    ensures MemoryKnown(After(trace, step), m)
  {
    StillKnown(trace, step);
    hide Found, Shown;
  }

  /** A merge in this step, from memory that may hold the interruption the step has just found. */
  lemma MergeKnown(trace: Trace<Step>, m: Memory, s: Status, w: Window)
    requires trace.After? && WindowOf(trace.step) == Some(w)
    requires KnownEvent(trace, m.pending) && KnownStart(trace.before, m.appStart) && StatusKnown(trace, s)
    ensures var (n, t) := Merge(m, s, w); MemoryKnown(trace, n) && StatusKnown(trace, t)
  {
    StillKnown(trace.before, trace.step);
    StartKnown(trace, m, w);
    MergeCredits(m, s, w);
    MergeFields(m, s, w);
    var (n, t) := Merge(m, s, w);
    if Completes(m, w) {
      MergeTimes(m, s, w);
      var c := Last(t.credits);
      hide Merge, Found, Shown, Timed;
      assert CreditedBy(trace, c);
      assert Credited(trace, c);
      forall k | 0 <= k < |t.credits| ensures Credited(trace, t.credits[k]) {
        assert k < |s.credits| ==> t.credits[k] == s.credits[k];
      }
    }
    hide Merge, Found, Shown, Credited;
  }

  lemma StartKnown(trace: Trace<Step>, m: Memory, w: Window)
    requires trace.After? && WindowOf(trace.step) == Some(w) && KnownStart(trace.before, m.appStart)
    ensures KnownStart(trace, AppStart(m, w))
  {
  }

  lemma MergeFields(m: Memory, s: Status, w: Window)
    ensures var (n, t) := Merge(m, s, w);
      n.appStart == AppStart(m, w) && t.appStart == AppStart(m, w)
  {
  }

  ghost predicate Known(trace: Trace<Step>, w: World) {
    && (forall i :: 0 <= i < |w.versions| ==> StatusKnown(trace, w.versions[i]))
    && (w.memory.Some? ==> MemoryKnown(trace, w.memory.value))
  }

  /** The memory a reconcile works with. */
  lemma MemoryOrKnown(trace: Trace<Step>, w: World, view: nat)
    requires Known(trace, w) && view < |w.versions|
    ensures MemoryKnown(trace, MemoryOr(w, w.versions[view]))
  {
    assert StatusKnown(trace, w.versions[view]);
    hide Found, Shown, Credited;
  }

  lemma FoundNow(trace: Trace<Step>, at: int)
    requires trace.After? && TimeOf(trace.step) == Some(at) && Run(trace).nextId > Run(trace.before).nextId
    ensures Found(trace, Event(Run(trace.before).nextId, at))
  {
  }

  lemma StoredKnown(trace: Trace<Step>, w: World, n: World)
    requires trace.After? && Known(trace.before, w)
    requires n.versions == w.versions || (|n.versions| > 0 && n.versions == w.versions + [Last(n.versions)])
    requires n.versions != w.versions ==> StatusKnown(trace, Last(n.versions))
    requires n.memory.Some? ==> MemoryKnown(trace, n.memory.value)
    ensures Known(trace, n)
  {
    hide StatusKnown, MemoryKnown;
    forall i | 0 <= i < |n.versions| ensures StatusKnown(trace, n.versions[i]) {
      if i < |w.versions| {
        StatusStillKnown(trace.before, trace.step, w.versions[i]);
        assert n.versions[i] == w.versions[i];
      }
    }
  }

  lemma RecordKnown(trace: Trace<Step>, s: Status, e: Event)
    requires StatusKnown(trace, s) && Found(trace, e)
    ensures var (m, t) := Record(s, e); MemoryKnown(trace, m) && StatusKnown(trace, t)
  {
    hide Found, Shown, Credited;
  }

  /** The fields that say nothing of an interruption are free. */
  lemma OthersAreFree(trace: Trace<Step>, s: Status, t: Status)
    requires StatusKnown(trace, s) && t.credits == s.credits
    requires t.pending == s.pending && (t.appStart == s.appStart || t.appStart.None?)
    ensures StatusKnown(trace, t)
  {
    hide Found, Shown, Credited;
  }

  /** A window that is read in this step, merged into a version. */
  lemma WindowKnown(trace: Trace<Step>, m: Memory, s: Status, w: Window)
    requires trace.After? && WindowOf(trace.step) == Some(w)
    requires MemoryKnown(trace, m) && KnownStart(trace.before, m.appStart) && StatusKnown(trace, s)
    ensures var (n, t) := Merge(m, s, w); MemoryKnown(trace, n) && StatusKnown(trace, t)
  {
    hide Merge, StatusKnown, KnownStart, KnownEvent;
    MergeKnown(trace, m, s, w);
  }

  /** What a sample works with: memory and the version it read, with the interruption it finds. */
  lemma SampleStart(trace: Trace<Step>, w: World, m: Memory, s: Status, detected: bool)
    requires trace.After? && trace.step.Sample? && w == Run(trace.before)
    requires MemoryKnown(trace.before, m) && StatusKnown(trace.before, s)
    requires detected ==> Run(trace).nextId > w.nextId
    ensures var (m1, s1) := if detected then Record(s, Event(w.nextId, trace.step.interruptedAt)) else (m, s);
      MemoryKnown(trace, m1) && KnownStart(trace.before, m1.appStart) && StatusKnown(trace, s1)
  {
    StatusStillKnown(trace.before, trace.step, s);
    MemoryStillKnown(trace.before, trace.step, m);
    if detected {
      FoundNow(trace, trace.step.interruptedAt);
      RecordKnown(trace, s, Event(w.nextId, trace.step.interruptedAt));
    }
    hide Found, Shown, Credited, Run;
  }

  lemma SampleKnown(trace: Trace<Step>)
    requires trace.After? && trace.step.Sample? && Known(trace.before, Run(trace.before))
    requires Run(trace).nextId >= Run(trace.before).nextId
    ensures Known(trace, Run(trace))
  {
    hide StatusKnown, MemoryKnown, KnownStart, Merge, Record, Detects;
    var w, step, n := Run(trace.before), trace.step, Run(trace);
    var view := step.view;
    if view >= |w.versions| || w.versions[view].complete || w.job.phase != Running {
      IdleKnown(trace);
      return;
    }
    var s, m := w.versions[view], MemoryOr(w, w.versions[view]);
    MemoryOrKnown(trace.before, w, view);
    var detected := (!w.job.ref || step.podReady) && Detects(w.job, m, s);
    SampleStart(trace, w, m, s, detected);
    var (m1, s1) := if detected then Record(s, Event(w.nextId, step.interruptedAt)) else (m, s);
    if w.job.ref && step.podReady && step.window.Some? {
      WindowKnown(trace, m1, s1, step.window.value);
      var (m2, s2) := Merge(m1, s1, step.window.value);
      OthersAreFree(trace, s2, s2.(start := if s.start.None? then Some(step.now) else s.start));
    }
    hide Known;
    StoredKnown(trace, w, n);
  }

  /** A step that leaves versions and memory as they are, or forgets memory. */
  lemma IdleKnown(trace: Trace<Step>)
    requires trace.After? && Known(trace.before, Run(trace.before))
    requires Run(trace).versions == Run(trace.before).versions
    requires Run(trace).memory == Run(trace.before).memory || Run(trace).memory.None?
    ensures Known(trace, Run(trace))
  {
    var w := Run(trace.before);
    if w.memory.Some? {
      MemoryStillKnown(trace.before, trace.step, w.memory.value);
    }
    hide Run, StatusKnown, MemoryKnown;
    StoredKnown(trace, w, Run(trace));
  }

  lemma FinishKnown(trace: Trace<Step>)
    requires trace.After? && trace.step.Finish? && Known(trace.before, Run(trace.before))
    ensures Known(trace, Run(trace))
  {
    hide StatusKnown, MemoryKnown, KnownStart, Merge;
    var w, step, n := Run(trace.before), trace.step, Run(trace);
    var view := step.view;
    if view >= |w.versions| || w.versions[view].complete || w.job.phase == Running {
      IdleKnown(trace);
      return;
    }
    var s, m := w.versions[view], MemoryOr(w, w.versions[view]);
    MemoryOrKnown(trace.before, w, view);
    SampleOrFinishStart(trace, w, m, s);
    if w.memory.Some? {
      MemoryStillKnown(trace.before, step, w.memory.value);
    }
    if w.job.ref && step.window.Some? {
      WindowKnown(trace, m, s, step.window.value);
    }
    FinalKnown(trace, w, s);
    hide Known;
    StoredKnown(trace, w, n);
  }

  lemma SampleOrFinishStart(trace: Trace<Step>, w: World, m: Memory, s: Status)
    requires trace.After? && w == Run(trace.before) && MemoryKnown(trace.before, m) && StatusKnown(trace.before, s)
    ensures MemoryKnown(trace, m) && KnownStart(trace.before, m.appStart) && StatusKnown(trace, s)
  {
    StatusStillKnown(trace.before, trace.step, s);
    MemoryStillKnown(trace.before, trace.step, m);
    hide Found, Shown, Credited, Run;
  }

  /** The terminal write, and the memory a failed Job's last interruption leaves. */
  lemma FinalKnown(trace: Trace<Step>, w: World, s: Status)
    requires trace.After? && trace.step.Finish? && w == Run(trace.before)
    requires Run(trace).nextId == Final(w, s, trace.step.window, trace.step.interruptedAt).2
    requires StatusKnown(trace, s) && (w.memory.Some? ==> MemoryKnown(trace, w.memory.value))
    requires w.job.ref && trace.step.window.Some? ==>
      var (m, t) := Merge(MemoryOr(w, s), s, trace.step.window.value); MemoryKnown(trace, m) && StatusKnown(trace, t)
    ensures var (m, t, _) := Final(w, s, trace.step.window, trace.step.interruptedAt);
      StatusKnown(trace, t) && (m.Some? ==> MemoryKnown(trace, m.value))
  {
    if w.job.phase == Failed {
      FoundNow(trace, trace.step.interruptedAt);
    }
    hide Merge, Found, Shown, Credited, Run;
  }

  lemma OtherKnown(trace: Trace<Step>)
    requires trace.After? && !trace.step.Sample? && !trace.step.Finish? && Known(trace.before, Run(trace.before))
    ensures Known(trace, Run(trace))
  {
    hide StatusKnown, MemoryKnown;
    var w, n := Run(trace.before), Run(trace);
    if trace.step.JobResetsStall? && n.versions != w.versions {
      StatusStillKnown(trace.before, trace.step, Last(w.versions));
      OthersAreFree(trace, Last(w.versions), Last(n.versions));
      if w.memory.Some? {
        MemoryStillKnown(trace.before, trace.step, w.memory.value);
      }
      StoredKnown(trace, w, n);
    } else {
      IdleKnown(trace);
    }
  }

  lemma IdsGrow(w: World, step: Step)
    requires |w.versions| > 0
    ensures Next(w, step).nextId >= w.nextId
  {
  }

  lemma {:induction false} RunIsKnown(trace: Trace<Step>)
    ensures Known(trace, Run(trace))
  {
    hide Known;
    match trace
    case Start => StartIsKnown();
    case After(before, step) =>
      RunIsKnown(before);
      IdsGrow(Run(before), step);
      if step.Sample? {
        SampleKnown(trace);
      } else if step.Finish? {
        FinishKnown(trace);
      } else {
        OtherKnown(trace);
      }
  }

  lemma StartIsKnown()
    ensures Known(Start, Initial)
  {
  }

  /**
    In every run, every credit of every version: an interruption that was found at some time and the
    first step of a window that was read later give its two times, with the application start of that
    window, or else one shown before, or else none known.
  */
  lemma EveryCreditIsTimed(trace: Trace<Step>, i: nat, k: nat)
    requires i < |Run(trace).versions| && k < |Run(trace).versions[i].credits|
    ensures Credited(trace, Run(trace).versions[i].credits[k])
  {
    RunIsKnown(trace);
    hide Run, Credited;
    assert StatusKnown(trace, Run(trace).versions[i]);
  }

  // ---- The terminal write ----

  /**
    What the terminal write of a Job that has ended stores: the last window merged in, if the workload
    still has a reference and its log could be read; the start of training, if it was not known; and one
    more interruption, pending for good, if the Job failed.
  */
  lemma FinalWrites(w: World, s: Status, window: Option<Window>, at: int)
    requires w.job.phase != Running
    ensures var (_, t, _) := Final(w, s, window, at);
      var read, failed := w.job.ref && window.Some?, w.job.phase == Failed;
      var merged := if read then Merge(MemoryOr(w, s), s, window.value).1 else s;
      && t.complete && t.count == s.count + (if failed then 1 else 0)
      && t.start == (if read && s.start.None? then window.value.first else s.start)
      && t.pending == (if failed then Some(Event(w.nextId, at)) else merged.pending)
      && t.appStart == (if failed then None else merged.appStart)
      && (t.credits, t.startups, t.reschedule, t.resume) ==
           (merged.credits, merged.startups, merged.reschedule, merged.resume)
  {
  }

  /** A Job that fails while it trains is charged one interruption beyond its restarts. */
  lemma FailureIsCounted() returns (trace: Trace<Step>)
    ensures var s := Last(Run(trace).versions);
      s.complete && s.count == 1 && Run(trace).job == Job(0, true, Failed) && s.pending == Some(Event(0, 50))
  {
    hide Run;
    trace := Sampled();
    trace := Then(trace, JobEnds(true));
    trace := Then(trace, Finish(1, None, 50, false));
  }

  /** A Job that succeeds is charged none. */
  lemma SuccessIsNotCounted() returns (trace: Trace<Step>)
    ensures var s := Last(Run(trace).versions);
      s.complete && s.count == 0 && Run(trace).job == Job(0, true, Succeeded) && s.pending == None
  {
    hide Run;
    trace := Sampled();
    trace := Then(trace, JobEnds(false));
    trace := Then(trace, Finish(1, None, 50, false));
  }
}
