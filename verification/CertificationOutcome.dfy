/**
  What the categories of a Certification are decided from: cached and live reads of their Workflows
  (checkActiveWorkflow and recoverIfWorkflowStillRunning, pkg/controller/certification_controller.go).

  A Workflow may end, restart, or be deleted at any time, and a read may return any state it ever
  had. Every run here is a run of `CertificationSequence`, whose results carry over.
*/
module CertificationOutcome {
  import opened Prelude
  import Sequence = CertificationSequence

  /** What a read of a Workflow shows. */
  datatype Flow = Absent | Going | Ended(passed: bool)

  /** Every version of the status, and every state of each category's Workflow. */
  datatype World = World(versions: seq<Sequence.Cert>, flows: seq<seq<Flow>>)

  datatype Step =
    // checkActiveWorkflow: what the cached read and, after a miss, the live read return
    | Check(view: nat, cached: nat, live: nat, lost: bool)
    // recoverIfWorkflowStillRunning: one cached read for each category
    | Recover(view: nat, shown: seq<nat>, lost: bool)
    // every other reconcile
    | Decide(view: nat, write: Sequence.Write, lost: bool)
    | ControllerRestarts
    | FlowMoves(i: nat, to: Flow)

  function Initial(n: nat): World { World([Sequence.Created], seq(n, _ => [Absent])) }

  /** The state a read returns; nothing is known of a Workflow that never had it. */
  function ReadAt(w: World, i: nat, at: nat): Option<Flow> {
    if i < |w.flows| && at < |w.flows[i]| then Some(w.flows[i][at]) else None
  }

  /** The first category that has not ended, or the number of categories. */
  function Active(cats: seq<Sequence.Category>): (i: nat)
    ensures i <= |cats| && forall k :: 0 <= k < i ==> Sequence.Done(cats[k])
    ensures i < |cats| ==> !Sequence.Done(cats[i])
  {
    if cats == [] || !Sequence.Done(cats[0]) then 0 else 1 + Active(cats[1..])
  }

  /** checkActiveWorkflow. Only a miss that a live read confirms ends the category without a Workflow. */
  function Checked(w: World, c: Sequence.Cert, cached: nat, live: nat): Option<Sequence.Write> {
    var i := Active(c.cats);
    if Sequence.Terminal(c) || i == |c.cats| || c.cats[i].status != Sequence.InProgress || c.cats[i].ref.None? then None
    else
      var flow := c.cats[i].ref.value;
      match ReadAt(w, flow, cached)
      case None => None
      case Some(Absent) =>
        if ReadAt(w, flow, live) == Some(Absent) then Some(Sequence.Settle(i, false)) else None
      case Some(Ended(passed)) => Some(Sequence.Settle(i, passed))
      case Some(Going) => Some(Sequence.Progress)
  }

  /** The search of recoverIfWorkflowStillRunning for a failed category whose Workflow runs again. */
  function Recoverable(w: World, cats: seq<Sequence.Category>, shown: seq<nat>, k: nat): (i: nat)
    ensures k <= i <= Max(k, |cats|)
    ensures i < |cats| ==> cats[i].status == Sequence.Failed && cats[i].ref.Some?
    decreases |cats| - k
  {
    if k >= |cats| then k
    else if cats[k].status == Sequence.Failed && cats[k].ref.Some? && k < |shown| &&
            ReadAt(w, cats[k].ref.value, shown[k]) == Some(Going) then k
    else Recoverable(w, cats, shown, k + 1)
  }

  /** A failed category whose Workflow was read as running. */
  predicate RunsAgain(w: World, cats: seq<Sequence.Category>, shown: seq<nat>, k: nat) {
    && k < |cats| && cats[k].status == Sequence.Failed && cats[k].ref.Some? && k < |shown|
    && cats[k].ref.value < |w.flows| && shown[k] < |w.flows[cats[k].ref.value]|
    && w.flows[cats[k].ref.value][shown[k]] == Going
  }

  lemma {:induction false} RecoverableIsFirst(w: World, cats: seq<Sequence.Category>, shown: seq<nat>, k: nat)
    requires k <= |cats|
    ensures var i := Recoverable(w, cats, shown, k);
      && i <= |cats| && (i < |cats| ==> RunsAgain(w, cats, shown, i))
      && forall j: nat :: k <= j < i ==> !RunsAgain(w, cats, shown, j)
    decreases |cats| - k
  {
    if k < |cats| {
      RecoverableIsFirst(w, cats, shown, k + 1);
    }
  }

  /** Its loop finds the first one; the number of categories if there is none. */
  method FindRecoverable(w: World, cats: seq<Sequence.Category>, shown: seq<nat>) returns (i: nat)
    ensures i == Recoverable(w, cats, shown, 0)
    ensures i <= |cats| && (i < |cats| ==> RunsAgain(w, cats, shown, i))
    ensures forall j: nat :: j < i ==> !RunsAgain(w, cats, shown, j)
  {
    RecoverableIsFirst(w, cats, shown, 0);
    i := 0;
    while i < |cats|
      invariant i <= |cats| && Recoverable(w, cats, shown, 0) == Recoverable(w, cats, shown, i)
    {
      if cats[i].status == Sequence.Failed && cats[i].ref.Some? && i < |shown| &&
         ReadAt(w, cats[i].ref.value, shown[i]) == Some(Going)
      {
        return;
      }
      i := i + 1;
    }
  }

  /** A Workflow is created, or the creation is refused, for the first category that has not begun. */
  predicate Creates(n: nat, c: Sequence.Cert) {
    var i := Active(c.cats);
    !Sequence.Terminal(c) && (c.cats == [] || (i < |c.cats| && c.cats[i].status == Sequence.Pending && i < n))
  }

  /** The write a reconcile decides on. */
  function Chosen(n: nat, w: World, step: Step): Option<Sequence.Write> {
    match step
    case Check(view, cached, live, _) =>
      if view < |w.versions| then Checked(w, w.versions[view], cached, live) else None
    case Recover(view, shown, _) =>
      if view >= |w.versions| || !Sequence.Terminal(w.versions[view]) then None
      else
        var cats := w.versions[view].cats;
        var i := Recoverable(w, cats, shown, 0);
        if i < |cats| then Some(Sequence.Reopen(i)) else None
    case Decide(view, write, _) =>
      if view < |w.versions| && Sequence.Decides(n, w.versions[view], write) && !write.Settle? && !write.Reopen? &&
         (write.Progress? ==> Creates(n, w.versions[view]))
      then Some(write) else None
    case _ => None
  }

  predicate Lost(step: Step) {
    match step
    case Check(_, _, _, lost) => lost
    case Recover(_, _, lost) => lost
    case Decide(_, _, lost) => lost
    case _ => false
  }

  function SetFlow(flows: seq<seq<Flow>>, i: nat, to: Flow): seq<seq<Flow>> {
    if i < |flows| then flows[i := flows[i] + [to]] else flows
  }

  /** The Workflow is created before the write that records it; one that is there is adopted. */
  function Create(flows: seq<seq<Flow>>, i: nat): seq<seq<Flow>> {
    if i < |flows| && |flows[i]| > 0 && Last(flows[i]) == Absent then SetFlow(flows, i, Going) else flows
  }

  function Flows(n: nat, w: World, step: Step): seq<seq<Flow>> {
    match step
    case FlowMoves(i, to) => SetFlow(w.flows, i, to)
    case _ =>
      match Chosen(n, w, step)
      case Some(Init) => Create(w.flows, 0)
      case Some(Begin(i)) => Create(w.flows, i)
      case _ => w.flows
  }

  function Next(n: nat, w: World, step: Step): World
    requires |w.versions| > 0
  {
    var write := Chosen(n, w, step);
    World(
      if write.Some? && !Lost(step) then w.versions + [Sequence.Apply(n, Last(w.versions), write.value)]
      else w.versions,
      Flows(n, w, step))
  }

  function Run(n: nat, trace: Trace<Step>): (w: World)
    ensures |w.versions| > 0
  {
    match trace
    case Start => Initial(n)
    case After(before, step) => Next(n, Run(n, before), step)
  }

  // ---- Every run is a run of the sequence ----

  function View(step: Step): nat {
    match step
    case Check(view, _, _, _) => view
    case Recover(view, _, _) => view
    case Decide(view, _, _) => view
    case _ => 0
  }

  /** The same run without the Workflows: reconciles that decide on nothing leave no trace. */
  function Abstract(n: nat, trace: Trace<Step>): Trace<Sequence.Step> {
    match trace
    case Start => Start
    case After(before, step) =>
      var write := Chosen(n, Run(n, before), step);
      if write.Some? then After(Abstract(n, before), Sequence.Reconcile(View(step), write.value, Lost(step)))
      else if step.ControllerRestarts? then After(Abstract(n, before), Sequence.ControllerRestarts)
      else Abstract(n, before)
  }

  lemma ChosenIsDecided(n: nat, w: World, step: Step)
    requires Chosen(n, w, step).Some?
    ensures View(step) < |w.versions| && Sequence.Decides(n, w.versions[View(step)], Chosen(n, w, step).value)
  {
  }

  /** What the reads decide is what `CertificationSequence` allows, so every run refines one of its runs. */
  lemma {:induction false} RunRefines(n: nat, trace: Trace<Step>)
    ensures Run(n, trace).versions == Sequence.Run(n, Abstract(n, trace))
  {
    if trace.After? {
      hide Chosen, Sequence.Decides, Sequence.Apply, Lost, View, Flows;
      RunRefines(n, trace.before);
      var w := Run(n, trace.before);
      if Chosen(n, w, trace.step).Some? {
        ChosenIsDecided(n, w, trace.step);
      }
    }
  }

  // ---- What a category's status was read from ----

  /** The Workflow that the check of category `k`, in the version it read, is about. */
  predicate Checks(w: World, step: Step, k: nat) {
    && step.Check? && !step.lost && step.view < |w.versions|
    && k == Active(w.versions[step.view].cats)
  }

  /** Some check of the category read a Workflow that showed Succeeded. */
  predicate WasReadPassed(n: nat, trace: Trace<Step>, k: nat) {
    trace.After? &&
    (WasReadPassed(n, trace.before, k) ||
     var w := Run(n, trace.before);
     Checks(w, trace.step, k) && ReadAt(w, k, trace.step.cached) == Some(Ended(true)))
  }

  /** Some check read one that showed Failed, or found none, neither in the cache nor at the server. */
  predicate WasReadFailed(n: nat, trace: Trace<Step>, k: nat) {
    trace.After? &&
    (WasReadFailed(n, trace.before, k) ||
     var w := Run(n, trace.before);
     && Checks(w, trace.step, k)
     && (|| ReadAt(w, k, trace.step.cached) == Some(Ended(false))
         || (ReadAt(w, k, trace.step.cached) == Some(Absent) && ReadAt(w, k, trace.step.live) == Some(Absent))))
  }

  /** Each category's status rests on a read, and so does a Succeeded condition. */
  ghost predicate Rests(n: nat, trace: Trace<Step>, c: Sequence.Cert) {
    && (c.cats == [] || |c.cats| == n)
    && (forall k: nat :: k < |c.cats| ==>
          && (c.cats[k].ref.Some? ==> c.cats[k].ref.value == k)
          && (c.cats[k].status == Sequence.Succeeded ==> WasReadPassed(n, trace, k))
          && (c.cats[k].status == Sequence.Failed ==> WasReadFailed(n, trace, k)))
    && (c.phase == Sequence.Passed ==> forall k: nat :: k < n ==> WasReadPassed(n, trace, k))
  }

  lemma RestsStill(n: nat, trace: Trace<Step>, step: Step, c: Sequence.Cert)
    requires Rests(n, trace, c)
    ensures Rests(n, After(trace, step), c)
  {
    forall k: nat
      ensures WasReadPassed(n, trace, k) ==> WasReadPassed(n, After(trace, step), k)
      ensures WasReadFailed(n, trace, k) ==> WasReadFailed(n, After(trace, step), k)
    {
      ReadStill(n, trace, step, k);
    }
    hide WasReadPassed, WasReadFailed;
  }

  lemma ReadStill(n: nat, trace: Trace<Step>, step: Step, k: nat)
    ensures WasReadPassed(n, trace, k) ==> WasReadPassed(n, After(trace, step), k)
    ensures WasReadFailed(n, trace, k) ==> WasReadFailed(n, After(trace, step), k)
  {
    hide Run, Checks, ReadAt;
  }

  /** A category settles on what was read for it. */
  lemma SettleWasRead(n: nat, trace: Trace<Step>, step: Step, i: nat, passed: bool)
    requires var w := Run(n, trace);
      && Chosen(n, w, step) == Some(Sequence.Settle(i, passed)) && !Lost(step)
      && View(step) < |w.versions| && Rests(n, trace, w.versions[View(step)])
    ensures passed ==> WasReadPassed(n, After(trace, step), i)
    ensures !passed ==> WasReadFailed(n, After(trace, step), i)
  {
    hide Run, WasReadPassed, WasReadFailed;
    var w := Run(n, trace);
    assert step.Check? && i == Active(w.versions[step.view].cats);
    SettlesByRead(n, trace, step, i, passed);
  }

  lemma SettlesByRead(n: nat, trace: Trace<Step>, step: Step, i: nat, passed: bool)
    requires var w := Run(n, trace);
      && step.Check? && Checks(w, step, i)
      && (if passed then ReadAt(w, i, step.cached) == Some(Ended(true))
          else ReadAt(w, i, step.cached) == Some(Ended(false)) ||
               (ReadAt(w, i, step.cached) == Some(Absent) && ReadAt(w, i, step.live) == Some(Absent)))
    ensures passed ==> WasReadPassed(n, After(trace, step), i)
    ensures !passed ==> WasReadFailed(n, After(trace, step), i)
  {
    hide Run, Checks, ReadAt;
  }

  /** A write that settles nothing and does not pass keeps every status it leaves. */
  lemma WriteRests(n: nat, trace: Trace<Step>, c: Sequence.Cert, write: Sequence.Write)
    requires Rests(n, trace, c)
    requires write.Settle? ==>
      if write.passed then WasReadPassed(n, trace, write.i) else WasReadFailed(n, trace, write.i)
    requires write.Pass? ==> forall k: nat :: k < n ==> WasReadPassed(n, trace, k)
    ensures Rests(n, trace, Sequence.Apply(n, c, write))
  {
    hide WasReadPassed, WasReadFailed;
  }

  lemma PassWasRead(n: nat, trace: Trace<Step>, c: Sequence.Cert)
    requires Rests(n, trace, c) && Sequence.Decides(n, c, Sequence.Pass)
    ensures forall k: nat :: k < n ==> WasReadPassed(n, trace, k)
  {
    hide WasReadPassed, WasReadFailed;
    forall k: nat | k < n ensures WasReadPassed(n, trace, k) {
      assert Sequence.Done(c.cats[k]) && c.cats[k].status != Sequence.Failed;
    }
  }

  lemma InitialRests(n: nat)
    ensures Rests(n, Start, Sequence.Created)
  {
  }

  /**
    In every run, whatever the reconciles read and however late: every category that succeeded was read
    from a Workflow that showed Succeeded, every category that failed from one that showed Failed or was
    gone by a live read, and a version is Succeeded only if all n categories were read so.
  */
  lemma {:induction false} EveryStatusWasRead(n: nat, trace: Trace<Step>, v: nat)
    requires v < |Run(n, trace).versions|
    ensures Rests(n, trace, Run(n, trace).versions[v])
  {
    match trace
    case Start => InitialRests(n);
    case After(before, step) =>
      hide Rests, Chosen, Flows, Sequence.Apply, Sequence.Decides, Lost, View;
      var w := Run(n, before);
      if v < |w.versions| {
        EveryStatusWasRead(n, before, v);
        RestsStill(n, before, step, w.versions[v]);
      } else {
        var write := Chosen(n, w, step).value;
        ChosenIsDecided(n, w, step);
        EveryStatusWasRead(n, before, View(step));
        EveryStatusWasRead(n, before, |w.versions| - 1);
        RestsStill(n, before, step, w.versions[View(step)]);
        RestsStill(n, before, step, Last(w.versions));
        if write.Settle? {
          SettleWasRead(n, before, step, write.i, write.passed);
        } else if write.Pass? {
          PassWasRead(n, trace, w.versions[View(step)]);
        }
        WriteRests(n, trace, Last(w.versions), write);
      }
  }

  /** A Certification that shows Succeeded has read each of its Workflows as Succeeded. */
  lemma PassedMeansEveryWorkflowDid(n: nat, trace: Trace<Step>, v: nat, k: nat)
    requires v < |Run(n, trace).versions| && Run(n, trace).versions[v].phase == Sequence.Passed && k < n
    ensures WasReadPassed(n, trace, k) && k < |Run(n, trace).flows| && Ended(true) in Run(n, trace).flows[k]
  {
    EveryStatusWasRead(n, trace, v);
    hide Run;
    ReadHappened(n, trace, k);
  }

  lemma FlowsGrow(n: nat, w: World, step: Step, k: nat)
    requires k < |w.flows|
    ensures k < |Flows(n, w, step)| && w.flows[k] <= Flows(n, w, step)[k]
  {
    hide Chosen;
  }

  lemma {:induction false} ReadHappened(n: nat, trace: Trace<Step>, k: nat)
    requires WasReadPassed(n, trace, k)
    ensures k < |Run(n, trace).flows| && Ended(true) in Run(n, trace).flows[k]
  {
    hide Flows, Chosen;
    var w := Run(n, trace.before);
    if WasReadPassed(n, trace.before, k) {
      ReadHappened(n, trace.before, k);
    } else {
      assert w.flows[k][trace.step.cached] == Ended(true);
    }
    FlowsGrow(n, w, trace.step, k);
    var t :| 0 <= t < |w.flows[k]| && w.flows[k][t] == Ended(true);
    assert Run(n, trace).flows[k][t] == Ended(true);
  }

  // ---- A check settles its category ----

  /** The first category of the stored version that has not ended, which runs and has its reference. */
  predicate Running(c: Sequence.Cert, k: nat) {
    && !Sequence.Terminal(c) && k < |c.cats| && c.cats[k].status == Sequence.InProgress && c.cats[k].ref.Some?
    && forall j :: 0 <= j < k ==> Sequence.Done(c.cats[j])
  }

  lemma {:induction false} ActiveIs(cats: seq<Sequence.Category>, k: nat)
    requires k < |cats| && !Sequence.Done(cats[k]) && forall j :: 0 <= j < k ==> Sequence.Done(cats[j])
    ensures Active(cats) == k
  {
  }

  lemma {:induction false} FlowsPerCategory(n: nat, trace: Trace<Step>)
    ensures |Run(n, trace).flows| == n
  {
    if trace.After? {
      FlowsPerCategory(n, trace.before);
      hide Chosen;
    }
  }

  /** How a check changes the categories: only the one it is about, and that by what was read. */
  ghost predicate SettledBy(
    before: seq<Sequence.Category>, after: seq<Sequence.Category>, k: nat, cached: Flow, live: Flow)
    requires k < |before|
  {
    && |after| == |before|
    && (after[k].status == Sequence.Succeeded <==> cached == Ended(true))
    && (after[k].status == Sequence.Failed <==> cached == Ended(false) || (cached == Absent && live == Absent))
    && (after[k].status == before[k].status || after[k].status == Sequence.Succeeded ||
        after[k].status == Sequence.Failed)
    && after[k].ref == before[k].ref
    && forall j :: 0 <= j < |before| && j != k ==> after[j] == before[j]
  }

  lemma {:induction false} CheckStep(n: nat, w: World, k: nat, cached: nat, live: nat)
    requires |w.versions| > 0 && Running(Last(w.versions), k) && Last(w.versions).cats[k].ref.value == k
    requires k < |w.flows| && cached < |w.flows[k]| && live < |w.flows[k]|
    ensures var n' := Next(n, w, Check(|w.versions| - 1, cached, live, false));
      && SettledBy(Last(w.versions).cats, Last(n'.versions).cats, k, w.flows[k][cached], w.flows[k][live])
      && n'.flows == w.flows
      && (|n'.versions| > |w.versions| ==> Last(n'.versions).phase == Sequence.Running)
  {
    ActiveIs(Last(w.versions).cats, k);
    hide Active;
  }

  /**
    Over every run: a check of the stored version that is not lost ends its category as Succeeded if and
    only if the cached read shows that its Workflow succeeded, as Failed if and only if it shows that it
    failed or both reads find none, and leaves it running otherwise. Nothing else changes.
  */
  lemma {:induction false} CheckSettlesIff(n: nat, trace: Trace<Step>, k: nat, cached: nat, live: nat)
    requires var w := Run(n, trace);
      Running(Last(w.versions), k) && k < |w.flows| && cached < |w.flows[k]| && live < |w.flows[k]|
    ensures var w := Run(n, trace);
      var n' := Run(n, After(trace, Check(|w.versions| - 1, cached, live, false)));
      && SettledBy(Last(w.versions).cats, Last(n'.versions).cats, k, w.flows[k][cached], w.flows[k][live])
      && n'.flows == w.flows
      && (|n'.versions| > |w.versions| ==> Last(n'.versions).phase == Sequence.Running)
  {
    hide Next, SettledBy;
    var w := Run(n, trace);
    EveryStatusWasRead(n, trace, |w.versions| - 1);
    RefIsOwn(n, trace, Last(w.versions), k);
    CheckStep(n, w, k, cached, live);
  }

  lemma RefIsOwn(n: nat, trace: Trace<Step>, c: Sequence.Cert, k: nat)
    requires Rests(n, trace, c) && k < |c.cats| && c.cats[k].ref.Some?
    ensures c.cats[k].ref.value == k
  {
  }

  /** The first failed category whose Workflow is read as running. */
  ghost predicate FirstRunning(w: World, cats: seq<Sequence.Category>, shown: seq<nat>, i: nat) {
    RunsAgain(w, cats, shown, i) && forall j: nat :: j < i ==> !RunsAgain(w, cats, shown, j)
  }

  lemma {:induction false} FirstRunningIs(w: World, cats: seq<Sequence.Category>, shown: seq<nat>, i: nat)
    requires FirstRunning(w, cats, shown, i)
    ensures Recoverable(w, cats, shown, 0) == i < |cats|
  {
    RecoverableIsFirst(w, cats, shown, 0);
    OnlyCategories(w, cats, shown, i);
  }

  /**
    Over every run: a reconcile of a stored terminal version that is not lost reopens the first failed
    category whose Workflow is read as running, and the Certification with it; if there is none, nothing
    is written.
  */
  lemma {:induction false} RecoverReopensIff(n: nat, trace: Trace<Step>, shown: seq<nat>)
    requires Sequence.Terminal(Last(Run(n, trace).versions))
    ensures var w := Run(n, trace);
      var n' := Run(n, After(trace, Recover(|w.versions| - 1, shown, false)));
      var c := Last(w.versions);
      && n'.flows == w.flows
      && (n'.versions == w.versions <==> forall i: nat :: !RunsAgain(w, c.cats, shown, i))
      && forall i: nat :: FirstRunning(w, c.cats, shown, i) ==>
           && i < |c.cats|
           && n'.versions == w.versions + [Sequence.Cert(
                Sequence.Running, c.cats[i := Sequence.Category(Sequence.InProgress, c.cats[i].ref)])]
  {
    var w := Run(n, trace);
    var cats := Last(w.versions).cats;
    RecoverableIsFirst(w, cats, shown, 0);
    var first := Recoverable(w, cats, shown, 0);
    hide Recoverable, RunsAgain, FirstRunning;
    forall i: nat | FirstRunning(w, cats, shown, i) ensures i == first < |cats| {
      FirstRunningIs(w, cats, shown, i);
    }
    forall i: nat | RunsAgain(w, cats, shown, i) ensures first < |cats| {
      OnlyCategories(w, cats, shown, i);
    }
  }

  lemma OnlyCategories(w: World, cats: seq<Sequence.Category>, shown: seq<nat>, k: nat)
    requires RunsAgain(w, cats, shown, k)
    ensures k < |cats|
  {
  }

  // ---- A category is started, and every outcome is reached ----

  /** The Workflow is there after the start, as it was or newly created, and no other one is touched. */
  ghost predicate HasWorkflow(before: seq<seq<Flow>>, after: seq<seq<Flow>>, k: nat)
    requires k < |before| && before[k] != []
  {
    after == before[k := if Last(before[k]) == Absent then before[k] + [Going] else before[k]]
  }

  lemma {:induction false} FlowsAreKnown(n: nat, trace: Trace<Step>)
    ensures |Run(n, trace).flows| == n && forall k :: 0 <= k < n ==> Run(n, trace).flows[k] != []
  {
    FlowsPerCategory(n, trace);
    if trace.After? {
      FlowsAreKnown(n, trace.before);
      hide Chosen;
    }
  }

  /**
    Over every run: when the stored version has no categories yet, or its first category that has not
    ended is pending, a reconcile may start the next one. That creates the Workflow if there is none, also
    if the write is lost; with the write the category runs and refers to it, and no other one changes.
  */
  lemma {:induction false} StartDecides(n: nat, trace: Trace<Step>, k: nat, lost: bool)
    requires var c := Last(Run(n, trace).versions);
      && k < n && !Sequence.Terminal(c)
      && if c.cats == [] then k == 0 else
           k < |c.cats| && c.cats[k].status == Sequence.Pending && forall j :: 0 <= j < k ==> Sequence.Done(c.cats[j])
    ensures var w := Run(n, trace);
      var c, write := Last(w.versions), if Last(w.versions).cats == [] then Sequence.Init else Sequence.Begin(k);
      var n' := Run(n, After(trace, Decide(|w.versions| - 1, write, lost)));
      && |w.flows| == n && w.flows[k] != [] && HasWorkflow(w.flows, n'.flows, k)
      && (lost ==> n'.versions == w.versions)
      && (!lost ==>
            var cats := if c.cats == [] then seq(n, _ => Sequence.Category(Sequence.Pending, None)) else c.cats;
            n'.versions == w.versions +
              [Sequence.Cert(Sequence.Running, cats[k := Sequence.Category(Sequence.InProgress, Some(k))])])
  {
    FlowsAreKnown(n, trace);
    var c := Last(Run(n, trace).versions);
    if c.cats != [] {
      assert Sequence.IsActive(c.cats, k) && !Sequence.Done(c.cats[k]);
    } else {
      var pending := seq(n, _ => Sequence.Category(Sequence.Pending, None));
      assert Sequence.Fresh(n) == pending[0 := Sequence.Category(Sequence.InProgress, Some(0))];
    }
    hide Run, Sequence.Fresh;
  }

  /** The next category has not begun, and all before it have ended. */
  predicate NextIsPending(cats: seq<Sequence.Category>, k: nat) {
    k < |cats| && cats[k].status == Sequence.Pending && forall j :: 0 <= j < k ==> Sequence.Done(cats[j])
  }

  /**
    Over every run: a reconcile of the stored version that waits for nodes reports progress, and changes
    nothing else, if and only if a category is about to begin.
  */
  lemma {:induction false} WaitDecides(n: nat, trace: Trace<Step>)
    requires n > 0 && !Sequence.Terminal(Last(Run(n, trace).versions))
    ensures var w := Run(n, trace);
      var n', c := Run(n, After(trace, Decide(|w.versions| - 1, Sequence.Progress, false))), Last(w.versions);
      && n'.flows == w.flows
      && n'.versions == (
           if c.cats == [] || exists k: nat :: k < n && NextIsPending(c.cats, k)
           then w.versions + [c.(phase := Sequence.Running)] else w.versions)
  {
    var c := Last(Run(n, trace).versions);
    if k: nat :| k < n && NextIsPending(c.cats, k) {
      ActiveIs(c.cats, k);
    }
    hide Run;
    if Creates(n, c) && c.cats != [] {
      assert NextIsPending(c.cats, Active(c.cats));
    }
  }
}
