/**
  When each restart of a Job is charged as one interruption
  (pkg/controller/goodputmeasurement_controller.go).
*/
module InterruptionCharges {
  import opened Prelude
  import opened Interruptions

  // ---- The interruptions there are ----

  function IdOf(e: Option<Event>): set<nat> { if e.Some? then {e.value.id} else {} }

  function CreditIds(credits: seq<Credit>): set<nat> {
    if credits == [] then {} else CreditIds(credits[..|credits| - 1]) + {Last(credits).id}
  }

  function StatusIds(s: Status): set<nat> { CreditIds(s.credits) + IdOf(s.pending) }

  function StoredIds(versions: seq<Status>): set<nat> {
    if versions == [] then {} else StoredIds(versions[..|versions| - 1]) + StatusIds(Last(versions))
  }

  function MemoryIds(memory: Option<Memory>): set<nat> { if memory.Some? then IdOf(memory.value.pending) else {} }

  /** Every interruption that was ever stored, or is pending in memory. */
  function Charged(w: World): set<nat> { StoredIds(w.versions) + MemoryIds(w.memory) }

  predicate Samples(w: World, step: Step) {
    step.Sample? && step.view < |w.versions| && !w.versions[step.view].complete && w.job.phase == Running
  }

  predicate Finishes(w: World, step: Step) {
    step.Finish? && step.view < |w.versions| && !w.versions[step.view].complete && w.job.phase != Running
  }

  /** A sample whose detector fires. */
  predicate Finds(w: World, step: Step) {
    && Samples(w, step) && (!w.job.ref || step.podReady)
    && Detects(w.job, MemoryOr(w, w.versions[step.view]), w.versions[step.view])
  }

  /**
    An interruption is found and stays in memory alone: its write is lost or stale, or there is none for
    want of a log read, and no first step completes it in the same pass. A failed Job's last one stays
    if the terminal write is lost.
  */
  predicate InMemoryOnly(w: World, step: Step)
    requires |w.versions| > 0
  {
    match step
    case Sample(view, _, window, _, _, lost) =>
      var fails := lost || view != |w.versions| - 1;
      Finds(w, step) && if !w.job.ref then fails else window.None? || (fails && window.value.first.None?)
    case Finish(_, _, _, lost) => Finishes(w, step) && w.job.phase == Failed && (lost || Last(w.versions).complete)
    case _ => false
  }

  /** That is what the step leaves behind. */
  lemma InMemoryOnlyIff(w: World, step: Step)
    requires |w.versions| > 0
    ensures var n := Next(w, step);
      InMemoryOnly(w, step) <==> n.nextId > w.nextId && n.versions == w.versions && MemoryIds(n.memory) != {}
  {
  }

  ghost predicate Numbered(w: World) { forall id :: id in Charged(w) ==> id < w.nextId }

  // ---- What a reconcile does to them ----

  lemma {:induction false} VersionIds(versions: seq<Status>, i: nat)
    requires i < |versions|
    ensures StatusIds(versions[i]) <= StoredIds(versions)
  {
    if i < |versions| - 1 {
      VersionIds(versions[..|versions| - 1], i);
    }
  }

  lemma StoredSnoc(versions: seq<Status>, s: Status)
    ensures StoredIds(versions + [s]) == StoredIds(versions) + StatusIds(s)
  {
    assert (versions + [s])[..|versions|] == versions;
  }

  lemma MergeIds(m: Memory, s: Status, w: Window)
    ensures var (n, t) := Merge(m, s, w);
      && StatusIds(t) <= StatusIds(s) + IdOf(m.pending) && IdOf(n.pending) <= IdOf(m.pending)
      && CreditIds(t.credits) <= CreditIds(s.credits) + IdOf(m.pending)
      && t.count == s.count && t.complete == s.complete
  {
    MergeCredits(m, s, w);
    MergeKeepsCount(m, s, w);
    hide Merge;
  }

  lemma MergeKeepsCount(m: Memory, s: Status, w: Window)
    ensures Merge(m, s, w).1.count == s.count && Merge(m, s, w).1.complete == s.complete
  {
  }

  lemma MemoryOrIds(w: World, view: nat)
    requires view < |w.versions|
    ensures IdOf(MemoryOr(w, w.versions[view]).pending) <= Charged(w)
  {
    VersionIds(w.versions, view);
  }

  /** What a sample keeps in memory, and the status `t` it writes if the write lands. */
  lemma SampleShape(w: World, step: Step) returns (t: Status)
    requires |w.versions| > 0 && Samples(w, step)
    ensures var n, s := Next(w, step), w.versions[step.view];
      var found := if n.nextId > w.nextId then {w.nextId} else {};
      var before := if n.nextId > w.nextId then {} else IdOf(MemoryOr(w, s).pending);
      && w.nextId <= n.nextId <= w.nextId + 1
      && (n.versions == w.versions || (n.versions == w.versions + [t] && step.view == |w.versions| - 1))
      && t.count == s.count + n.nextId - w.nextId
      && StatusIds(t) <= StatusIds(s) + before + found
      && MemoryIds(n.memory) <= before + found
      && (n.nextId > w.nextId ==> MemoryIds(w.memory) == {})
  {
    var s, m := w.versions[step.view], MemoryOr(w, w.versions[step.view]);
    var detected := (!w.job.ref || step.podReady) && Detects(w.job, m, s);
    var (m1, s1) := if detected then Record(s, Event(w.nextId, step.interruptedAt)) else (m, s);
    t := s1;
    if w.job.ref && step.podReady && step.window.Some? {
      MergeIds(m1, s1, step.window.value);
      var (m2, s2) := Merge(m1, s1, step.window.value);
      t := s2.(start := if s.start.None? then Some(step.now) else s.start);
    }
    hide Merge, CreditIds;
  }

  /** A sample adds at most the interruption it records, and counts it in the version it writes. */
  lemma SampleIds(w: World, step: Step)
    requires |w.versions| > 0 && step.Sample? && !Last(w.versions).complete
    ensures var n := Next(w, step);
      && w.nextId <= n.nextId <= w.nextId + 1
      && Charged(n) <= Charged(w) + (if n.nextId > w.nextId then {w.nextId} else {})
      && (n.versions == w.versions || (n.versions == w.versions + [Last(n.versions)]
            && Last(n.versions).count == Last(w.versions).count + n.nextId - w.nextId))
      && (InMemoryOnly(w, step) ==>
            n.versions == w.versions && Charged(n) == StoredIds(w.versions) + {w.nextId} == Charged(w) + {w.nextId})
      && (n.nextId > w.nextId && n.versions == w.versions && !InMemoryOnly(w, step) ==> Charged(n) <= Charged(w))
  {
    InMemoryOnlyIff(w, step);
    hide InMemoryOnly;
    if Samples(w, step) {
      var t := SampleShape(w, step);
      MemoryOrIds(w, step.view);
      VersionIds(w.versions, step.view);
      StoredSnoc(w.versions, t);
      hide Next, StatusIds, StoredIds, MemoryOr;
    }
  }

  lemma {:induction false} SubsetCard(a: set<nat>, b: set<nat>)
    requires a <= b
    ensures |a| <= |b|
  {
    if a != {} {
      var x :| x in a;
      SubsetCard(a - {x}, b - {x});
    }
  }

  /** The terminal write credits only interruptions there were; a lost one may leave its own in memory. */
  lemma FinishIds(w: World, step: Step)
    requires |w.versions| > 0 && step.Finish? && !Last(w.versions).complete
    ensures var n := Next(w, step);
      && w.nextId <= n.nextId <= w.nextId + 1
      && Charged(n) <= Charged(w) + (if n.nextId > w.nextId then {w.nextId} else {})
      && (InMemoryOnly(w, step) ==> n.versions == w.versions && Charged(n) == StoredIds(w.versions) + {w.nextId})
      && (n.versions == w.versions && !InMemoryOnly(w, step) ==> Charged(n) <= Charged(w))
      && (n.versions != w.versions ==>
            && n.versions == w.versions + [Last(n.versions)] && Last(n.versions).complete
            && CreditIds(Last(n.versions).credits) <= Charged(w))
  {
    var view := step.view;
    if Finishes(w, step) {
      MemoryOrIds(w, view);
      VersionIds(w.versions, view);
      if step.window.Some? {
        MergeIds(MemoryOr(w, w.versions[view]), w.versions[view], step.window.value);
      }
      StoredSnoc(w.versions, Last(Next(w, step).versions));
      hide Merge, CreditIds, StoredIds;
    }
  }

  lemma OtherIds(w: World, step: Step)
    requires |w.versions| > 0 && !step.Sample? && !step.Finish?
    ensures var n := Next(w, step);
      && n.nextId == w.nextId && Charged(n) <= Charged(w)
      && (n.versions == w.versions || (n.versions == w.versions + [Last(n.versions)]
            && Last(n.versions).credits == Last(w.versions).credits && Last(n.versions).count == Last(w.versions).count
            && Last(n.versions).complete == Last(w.versions).complete))
      && n.job.restarts >= w.job.restarts
  {
    hide CreditIds, StoredIds;
    VersionIds(w.versions, |w.versions| - 1);
    StoredSnoc(w.versions, Last(Next(w, step).versions));
  }

  /** A complete status is written no more; a reconcile may still fill its memory. */
  lemma CompleteIds(w: World, step: Step)
    requires CountInv(w) && Last(w.versions).complete && (step.Sample? || step.Finish?)
    ensures Next(w, step).versions == w.versions && Next(w, step).job == w.job
  {
  }

  lemma {:induction false} DistinctCredits(credits: seq<Credit>)
    requires DistinctIds(credits)
    ensures |CreditIds(credits)| == |credits|
    ensures forall id :: id in CreditIds(credits) ==> HasId(credits, id)
  {
    if credits != [] {
      var init := credits[..|credits| - 1];
      DistinctCredits(init);
      forall id | id in CreditIds(credits) ensures HasId(credits, id) {
        if id in CreditIds(init) {
          var i :| 0 <= i < |init| && init[i].id == id;
          assert credits[i].id == id;
        } else {
          assert credits[|credits| - 1].id == id;
        }
      }
    }
  }

  // ---- Exactly when the count covers the interruptions there are ----

  /** A measurement in progress counts at least the interruptions there are. */
  ghost predicate Covered(w: World) {
    |w.versions| > 0 && (!Last(w.versions).complete ==> |Charged(w)| <= Last(w.versions).count)
  }

  ghost predicate NumberedInv(w: World) { |w.versions| > 0 && (!Last(w.versions).complete ==> Numbered(w)) }

  /** An interruption that stays in memory alone finds room: the count is ahead of the stored ones. */
  predicate HasRoom(w: World, step: Step)
    requires |w.versions| > 0
  {
    Last(w.versions).complete || (InMemoryOnly(w, step) ==> |StoredIds(w.versions)| < Last(w.versions).count)
  }

  lemma NextKeepsNumbered(w: World, step: Step)
    requires CountInv(w) && NumberedInv(w)
    ensures NumberedInv(Next(w, step))
  {
    hide Next, InMemoryOnly, Charged, CountInv, StoredIds;
    if Last(w.versions).complete {
      CompleteStays(w, step);
    } else if step.Sample? {
      SampleIds(w, step);
    } else if step.Finish? {
      FinishIds(w, step);
    } else {
      OtherIds(w, step);
    }
  }

  lemma StoredNumbered(w: World)
    requires Numbered(w)
    ensures w.nextId !in StoredIds(w.versions) && w.nextId !in Charged(w)
  {
  }

  lemma SampleCoveredIff(w: World, step: Step)
    requires |w.versions| > 0 && Numbered(w) && Covered(w) && !Last(w.versions).complete && step.Sample?
    requires !Last(Next(w, step).versions).complete
    ensures Covered(Next(w, step)) <==> HasRoom(w, step)
  {
    hide Next, InMemoryOnly, Charged, Numbered, StoredIds;
    SampleIds(w, step);
    StoredNumbered(w);
    var n := Next(w, step);
    var more := Charged(w) + {w.nextId};
    assert |more| == |Charged(w)| + 1;
    assert |StoredIds(w.versions) + {w.nextId}| == |StoredIds(w.versions)| + 1;
    SubsetCard(Charged(n), if n.nextId > w.nextId then more else Charged(w));
    if n.nextId > w.nextId && n.versions == w.versions && !InMemoryOnly(w, step) {
      SubsetCard(Charged(n), Charged(w));
    }
  }

  lemma FinishCoveredIff(w: World, step: Step)
    requires |w.versions| > 0 && Numbered(w) && Covered(w) && !Last(w.versions).complete && step.Finish?
    ensures Covered(Next(w, step)) <==> HasRoom(w, step)
  {
    hide Next, InMemoryOnly, Charged, Numbered, StoredIds;
    FinishIds(w, step);
    StoredNumbered(w);
    var n := Next(w, step);
    assert |StoredIds(w.versions) + {w.nextId}| == |StoredIds(w.versions)| + 1;
    if n.versions == w.versions && !InMemoryOnly(w, step) {
      SubsetCard(Charged(n), Charged(w));
    }
  }

  /** A step keeps the count above the interruptions there are exactly if one that stays in memory finds room. */
  lemma StepCoveredIff(w: World, step: Step)
    requires CountInv(w) && NumberedInv(w) && Covered(w)
    ensures Covered(Next(w, step)) <==> HasRoom(w, step)
  {
    hide Next, Charged, CountInv, Numbered;
    if Last(w.versions).complete {
      CompleteStays(w, step);
    } else if step.Sample? {
      SampleStaysOpen(w, step);
      SampleCoveredIff(w, step);
    } else if step.Finish? {
      FinishCoveredIff(w, step);
    } else {
      OtherIds(w, step);
      SubsetCard(Charged(Next(w, step)), Charged(w));
    }
  }

  ghost predicate CoveredThroughout(trace: Trace<Step>) {
    Covered(Run(trace)) && (trace.After? ==> CoveredThroughout(trace.before))
  }

  predicate RoomThroughout(trace: Trace<Step>) {
    trace.After? ==> RoomThroughout(trace.before) && HasRoom(Run(trace.before), trace.step)
  }

  lemma {:induction false} RunKeepsNumbered(trace: Trace<Step>)
    ensures NumberedInv(Run(trace))
  {
    InitialCharge();
    hide NumberedInv, CountInv, Next;
    if trace.After? {
      RunKeepsNumbered(trace.before);
      RunKeepsCount(trace.before);
      NextKeepsNumbered(Run(trace.before), trace.step);
    }
  }

  /**
    Through a run of a measurement in progress, the count covers every interruption that is stored or
    pending if and only if each one that stayed in memory alone found room.
  */
  lemma {:induction false} CoveredThroughoutIff(trace: Trace<Step>)
    ensures CoveredThroughout(trace) <==> RoomThroughout(trace)
  {
    InitialCharge();
    hide Covered, HasRoom, Next, CountInv, NumberedInv;
    if trace.After? {
      CoveredThroughoutIff(trace.before);
      if CoveredThroughout(trace.before) {
        RunKeepsNumbered(trace.before);
        RunKeepsCount(trace.before);
        StepCoveredIff(Run(trace.before), trace.step);
      }
    }
  }

  // ---- Over runs ----

  ghost predicate ChargeInv(w: World) {
    && NumberedInv(w) && Covered(w)
    && (forall i :: 0 <= i < |w.versions| ==> |w.versions[i].credits| <= w.job.restarts)
  }

  lemma LastCount(w: World)
    requires CountInv(w)
    ensures !Last(w.versions).complete ==> Last(w.versions).count <= w.job.restarts
  {
    assert CountHolds(w, w.versions[|w.versions| - 1]);
  }

  lemma ReconcileKeepsJob(w: World, step: Step)
    requires |w.versions| > 0 && (step.Sample? || step.Finish?)
    ensures Next(w, step).job == w.job
  {
  }

  lemma SampleStaysOpen(w: World, step: Step)
    requires CountInv(w) && step.Sample? && !Last(w.versions).complete
    ensures !Last(Next(w, step).versions).complete
  {
  }

  /** The credits of the version a step adds are within the restarts. */
  lemma AddedWithinRestarts(w: World, step: Step)
    requires ChargeInv(w) && CountInv(w) && HasRoom(w, step) && |Next(w, step).versions| > |w.versions|
    requires DistinctIds(Last(Next(w, step).versions).credits) && CountInv(Next(w, step))
    ensures |Last(Next(w, step).versions).credits| <= Next(w, step).job.restarts
  {
    hide Next, CountInv, CreditIds, InMemoryOnly, DistinctIds;
    var n := Next(w, step);
    var t := Last(n.versions);
    DistinctCredits(t.credits);
    LastCount(w);
    LastCount(n);
    if Last(w.versions).complete || (!step.Sample? && !step.Finish?) {
      AddedByOthers(w, step);
    } else if step.Finish? {
      ReconcileKeepsJob(w, step);
      FinishIds(w, step);
      SubsetCard(CreditIds(t.credits), Charged(w));
    } else {
      StepCoveredIff(w, step);
      SampleStaysOpen(w, step);
      VersionIds(n.versions, |n.versions| - 1);
      SubsetCard(CreditIds(t.credits), Charged(n));
    }
  }

  lemma AddedByOthers(w: World, step: Step)
    requires ChargeInv(w) && CountInv(w) && |Next(w, step).versions| > |w.versions|
    requires Last(w.versions).complete || (!step.Sample? && !step.Finish?)
    ensures |Last(Next(w, step).versions).credits| <= Next(w, step).job.restarts
  {
    if step.Sample? || step.Finish? {
      CompleteIds(w, step);
    } else {
      OtherIds(w, step);
      assert |w.versions[|w.versions| - 1].credits| <= w.job.restarts;
    }
  }

  lemma LastDistinct(w: World)
    requires CreditInv(w)
    ensures DistinctIds(Last(w.versions).credits)
  {
    SoundIsDistinct(w.versions[|w.versions| - 1]);
  }

  lemma NextKeepsCharge(w: World, step: Step)
    requires ChargeInv(w) && CountInv(w) && HasRoom(w, step)
    requires CountInv(Next(w, step)) && CreditInv(Next(w, step))
    ensures ChargeInv(Next(w, step))
  {
    hide Next, Numbered, Charged, CreditInv, CountInv, HasRoom, DistinctIds;
    var n := Next(w, step);
    RestartsGrow(w, step);
    LastDistinct(n);
    if |n.versions| > |w.versions| {
      AddedWithinRestarts(w, step);
    }
    StepCoveredIff(w, step);
    NextKeepsNumbered(w, step);
    forall i | 0 <= i < |n.versions| ensures |n.versions[i].credits| <= n.job.restarts {
      if i < |w.versions| {
        assert n.versions[i] == w.versions[i];
      }
    }
  }

  lemma RestartsGrow(w: World, step: Step)
    requires |w.versions| > 0
    ensures Next(w, step).job.restarts >= w.job.restarts && w.versions <= Next(w, step).versions
    ensures |Next(w, step).versions| <= |w.versions| + 1
  {
  }

  lemma CompleteStays(w: World, step: Step)
    requires CountInv(w) && Last(w.versions).complete
    ensures Last(Next(w, step).versions).complete
  {
    NextKeepsComplete(w, step);
    hide Next;
  }

  lemma InitialCharge()
    ensures ChargeInv(Initial)
  {
    assert Initial.versions == [Blank];
    assert [Blank][..0] == [];
    assert StoredIds([Blank]) == {};
  }

  lemma {:induction false} RunKeepsCharge(trace: Trace<Step>)
    requires RecoversThroughout(trace) && RoomThroughout(trace)
    ensures ChargeInv(Run(trace))
  {
    RunKeepsCount(trace);
    RunKeepsCredit(trace);
    InitialCharge();
    hide ChargeInv, CountInv, CreditInv, Next, HasRoom, RecoversOpen;
    if trace.After? {
      RunKeepsCharge(trace.before);
      RunKeepsCount(trace.before);
      NextKeepsCharge(Run(trace.before), trace.step);
    }
  }

  /**
    If no interruption stays in memory alone without room, as when each one found is stored or dropped,
    and memory is recovered from a version that has not been overtaken, no restart is charged twice: no
    stored status has more credits than the Job has restarted its workload.
  */
  lemma ChargedOncePerRestart(trace: Trace<Step>, i: nat)
    requires RecoversThroughout(trace) && RoomThroughout(trace) && i < |Run(trace).versions|
    ensures |Run(trace).versions[i].credits| <= Run(trace).job.restarts
  {
    RunKeepsCharge(trace);
  }

  // ---- And it takes no failed log read to break the condition ----

  /** The write that records the interruption is lost; every log read succeeds. */
  lemma LostRecordCreditsTwice() returns (trace: Trace<Step>)
    ensures var w := Run(trace); |Last(w.versions).credits| == 2 && w.job.restarts == 1
  {
    hide Run;
    trace := Interrupted();
    trace := Then(trace, Sample(1, false, None, 20, 20, true));
    trace := Then(trace, JobRecordsRef);
    trace := Then(trace, Sample(1, true, Some(Window(Some(30), Some(25))), 0, 30, false));
    trace := Then(trace, Sample(2, true, Some(Window(Some(40), Some(25))), 35, 40, false));
  }
}
