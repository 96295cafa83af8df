/**
  The sequence of categories of a Certification
  (pkg/controller/certification_controller.go).

  A reconcile reads a version of the status, decides on one write, and applies that write to the
  stored status: `updateStatusWithRetry` refetches after a conflict and runs the same mutation
  again, so the version a decision was made from need not be the version it is applied to. What
  the Workflows do enters as the choice among the writes a version allows; `CertificationOutcome`
  makes that choice from reads of them.
*/
module CertificationSequence {
  import opened Prelude

  datatype Status = Pending | InProgress | Succeeded | Failed

  /** A category; `ref` is the index of the category its Workflow was created for. */
  datatype Category = Category(status: Status, ref: Option<nat>)

  /** The one condition that is True. */
  datatype Phase = New | Running | Passed | Rejected

  datatype Cert = Cert(phase: Phase, cats: seq<Category>)

  datatype Write =
    | FailNow                        // setCertificationFailed
    | Pass                           // setCertificationSucceeded
    | Progress                       // setCertificationInProgress alone
    | Init                           // ... with initCategories
    | Begin(i: nat)                  // ... with startCategory
    | Settle(i: nat, passed: bool)   // ... with writeCategory
    | Reopen(i: nat)                 // ... with reopen

  predicate Terminal(c: Cert) { c.phase == Passed || c.phase == Rejected }

  predicate Done(cat: Category) { cat.status == Succeeded || cat.status == Failed }

  // ---- The writes ----

  function Fresh(n: nat): seq<Category>
    requires n > 0
  {
    [Category(InProgress, Some(0))] + seq(n - 1, _ => Category(Pending, None))
  }

  /** categoryMutation: an index the stored list does not have changes nothing. */
  function Edit(cats: seq<Category>, i: nat, status: Status, ref: Option<nat>): seq<Category> {
    if i >= |cats| then cats
    else cats[i := Category(status, if ref.Some? then ref else cats[i].ref)]
  }

  /** A write applied to the stored status, whatever that has become. */
  function Apply(n: nat, c: Cert, w: Write): Cert {
    match w
    case FailNow => c.(phase := Rejected)
    case Pass => c.(phase := Passed)
    case Progress => c.(phase := Running)
    case Init => if n == 0 then c else Cert(Running, Fresh(n))
    case Begin(i) => Cert(Running, Edit(c.cats, i, InProgress, Some(i)))
    case Settle(i, passed) => Cert(Running, Edit(c.cats, i, if passed then Succeeded else Failed, None))
    case Reopen(i) => Cert(Running, Edit(c.cats, i, InProgress, None))
  }

  /** The stored object; a status write edits it in place. */
  class Certification {
    const n: nat
    var phase: Phase
    var cats: seq<Category>

    function Value(): Cert
      reads this
    {
      Cert(phase, cats)
    }

    constructor (n: nat)
      ensures this.n == n && Value() == Cert(New, [])
    {
      this.n := n;
      phase, cats := New, [];
    }

    method InitCategories()
      requires n > 0
      modifies this`cats
      ensures cats == Fresh(n)
    {
      var statuses: seq<Category> := [];
      for i := 0 to n
        invariant |statuses| == i
        invariant forall k :: 0 <= k < i ==> statuses[k] == Category(Pending, None)
      {
        statuses := statuses + [Category(Pending, None)];
      }
      statuses := statuses[0 := statuses[0].(status := InProgress)];
      statuses := statuses[0 := statuses[0].(ref := Some(0))];
      cats := statuses;
    }

    method EditCategory(i: nat, status: Status, ref: Option<nat>)
      modifies this`cats
      ensures cats == Edit(old(cats), i, status, ref)
    {
      if i >= |cats| {
        return;
      }
      cats := cats[i := cats[i].(status := status)];
      if ref.Some? {
        cats := cats[i := cats[i].(ref := ref)];
      }
    }

    method Commit(w: Write)
      modifies this
      ensures Value() == Apply(n, old(Value()), w)
    {
      match w
      case FailNow =>
        phase := Rejected;
      case Pass =>
        phase := Passed;
      case Progress =>
        phase := Running;
      case Init =>
        if n > 0 {
          InitCategories();
          phase := Running;
        }
      case Begin(i) =>
        EditCategory(i, InProgress, Some(i));
        phase := Running;
      case Settle(i, passed) =>
        EditCategory(i, if passed then Succeeded else Failed, None);
        phase := Running;
      case Reopen(i) =>
        EditCategory(i, InProgress, None);
        phase := Running;
    }
  }

  // ---- The decisions ----

  predicate IsActive(cats: seq<Category>, i: nat) {
    i < |cats| && !Done(cats[i]) && forall k :: 0 <= k < i ==> Done(cats[k])
  }

  /** processNextCategory's search for the first category that has not ended. */
  method ActiveIndex(cats: seq<Category>) returns (active: int)
    ensures active >= 0 ==> IsActive(cats, active)
    ensures active < 0 ==> active == -1 && forall k :: 0 <= k < |cats| ==> Done(cats[k])
  {
    active := -1;
    var i := 0;
    while i < |cats|
      invariant 0 <= i <= |cats|
      invariant active == -1 && forall k :: 0 <= k < i ==> Done(cats[k])
    {
      if !Done(cats[i]) {
        active := i;
        break;
      }
      i := i + 1;
    }
  }

  predicate AllDone(cats: seq<Category>) { forall k :: 0 <= k < |cats| ==> Done(cats[k]) }

  predicate AnyFailed(cats: seq<Category>) { exists k :: 0 <= k < |cats| && cats[k].status == Failed }

  /** The writes a reconcile that reads `c` may decide on. */
  predicate Decides(n: nat, c: Cert, w: Write) {
    if Terminal(c) then
      // recoverIfWorkflowStillRunning
      w.Reopen? && w.i < |c.cats| && c.cats[w.i].status == Failed && c.cats[w.i].ref.Some?
    else if c.cats == [] then
      // initializeCategoryStatuses
      w == FailNow || (w == Progress && n > 0) || (w == Init && n > 0)
    else if AllDone(c.cats) then
      // finalizeCertification
      w == if AnyFailed(c.cats) then FailNow else Pass
    else
      // checkActiveWorkflow, or the creation of the next Workflow
      match w
      case Settle(i, _) => IsActive(c.cats, i) && c.cats[i].status == InProgress
      case Begin(i) => IsActive(c.cats, i) && c.cats[i].status == Pending && i < n
      case Progress => true
      case FailNow => exists i :: 0 <= i < |c.cats| && IsActive(c.cats, i) && c.cats[i].status == Pending && i < n
      case _ => false
  }

  // ---- What every version should satisfy ----

  ghost predicate PendingIsSuffix(cats: seq<Category>) {
    forall i, j :: 0 <= i < j < |cats| && cats[i].status == Pending ==> cats[j].status == Pending
  }

  ghost predicate OnlyRunning(cats: seq<Category>, i: nat) {
    forall j :: 0 <= j < |cats| && cats[j].status == InProgress ==> j == i
  }

  ghost predicate AtMostOneRunning(cats: seq<Category>) {
    forall i, j :: 0 <= i < j < |cats| ==> !(cats[i].status == InProgress && cats[j].status == InProgress)
  }

  ghost predicate NoneRunning(cats: seq<Category>) {
    forall i :: 0 <= i < |cats| ==> cats[i].status != InProgress
  }

  ghost predicate RefsMatch(cats: seq<Category>) {
    forall i :: 0 <= i < |cats| ==>
      cats[i].ref == if cats[i].status == Pending then None else Some(i)
  }

  ghost predicate AllPassed(cats: seq<Category>) {
    cats != [] && forall i :: 0 <= i < |cats| ==> cats[i].status == Succeeded
  }

  ghost predicate Inv(n: nat, c: Cert) {
    && (c.cats == [] || |c.cats| == n)
    && PendingIsSuffix(c.cats) && AtMostOneRunning(c.cats) && RefsMatch(c.cats)
    && (Terminal(c) ==> NoneRunning(c.cats))
    && (c.phase == Passed ==> AllPassed(c.cats))
  }

  /** What the stored status must look like for a write to leave it in order. */
  ghost predicate Guard(c: Cert, w: Write) {
    match w
    case FailNow => NoneRunning(c.cats)
    case Pass => AllPassed(c.cats)
    case Begin(i) =>
      i < |c.cats| ==> OnlyRunning(c.cats, i) && forall k :: 0 <= k < i ==> c.cats[k].status != Pending
    case Settle(i, _) => i < |c.cats| ==> c.cats[i].status != Pending
    case Reopen(i) => i < |c.cats| ==> c.cats[i].status != Pending && OnlyRunning(c.cats, i)
    case _ => true
  }

  lemma EditAt(cats: seq<Category>, i: nat, status: Status, ref: Option<nat>)
    ensures var e := Edit(cats, i, status, ref);
      && |e| == |cats|
      && forall k :: 0 <= k < |cats| ==>
           e[k] == if k == i then Category(status, if ref.Some? then ref else cats[i].ref) else cats[k]
  {
  }

  lemma FreshInv(n: nat)
    requires n > 0
    ensures Inv(n, Cert(Running, Fresh(n)))
  {
  }

  /** Exactly when a write, decided from whatever version, keeps the stored status in order. */
  lemma WriteKeepsInvIff(n: nat, c: Cert, w: Write)
    requires Inv(n, c)
    ensures Inv(n, Apply(n, c, w)) <==> Guard(c, w)
  {
    hide Edit, Fresh;
    match w
    case Begin(i) =>
      EditAt(c.cats, i, InProgress, Some(i));
      BeginIff(n, c, i);
    case Settle(i, passed) =>
      EditAt(c.cats, i, if passed then Succeeded else Failed, None);
    case Reopen(i) =>
      EditAt(c.cats, i, InProgress, None);
      ReopenIff(n, c, i);
    case Init => if n > 0 { FreshInv(n); }
    case _ =>
  }

  lemma BeginIff(n: nat, c: Cert, i: nat)
    requires Inv(n, c)
    ensures Inv(n, Apply(n, c, Begin(i))) <==> Guard(c, Begin(i))
  {
    EditAt(c.cats, i, InProgress, Some(i));
    hide Edit;
    var e := Edit(c.cats, i, InProgress, Some(i));
    if i < |c.cats| {
      if k :| 0 <= k < i && c.cats[k].status == Pending {
        assert e[k].status == Pending && e[i].status == InProgress;
      } else if j :| 0 <= j < |c.cats| && c.cats[j].status == InProgress && j != i {
        assert e[j].status == InProgress && e[i].status == InProgress;
      }
    }
  }

  lemma ReopenIff(n: nat, c: Cert, i: nat)
    requires Inv(n, c)
    ensures Inv(n, Apply(n, c, Reopen(i))) <==> Guard(c, Reopen(i))
  {
    EditAt(c.cats, i, InProgress, None);
    hide Edit;
    var e := Edit(c.cats, i, InProgress, None);
    if i < |c.cats| {
      if c.cats[i].status == Pending {
        assert e[i].ref.None?;
      } else if j :| 0 <= j < |c.cats| && c.cats[j].status == InProgress && j != i {
        assert e[j].status == InProgress && e[i].status == InProgress;
      }
    }
  }

  /** A decision made from the stored status itself always meets its guard. */
  lemma DecisionMeetsGuard(n: nat, c: Cert, w: Write)
    requires Inv(n, c) && Decides(n, c, w)
    ensures Guard(c, w)
  {
  }

  /**
    With all categories ended, the one write there is makes the Certification Succeeded if all of them
    succeeded and Failed if one did not, when it meets the version it was decided from.
  */
  lemma FinalizesIff(n: nat, c: Cert)
    requires !Terminal(c) && c.cats != [] && AllDone(c.cats)
    ensures exists w :: Decides(n, c, w)
    ensures forall w :: Decides(n, c, w) ==>
      && Apply(n, c, w).cats == c.cats
      && (Apply(n, c, w).phase == Passed <==> forall k :: 0 <= k < |c.cats| ==> c.cats[k].status == Succeeded)
      && (Apply(n, c, w).phase == Rejected <==> exists k :: 0 <= k < |c.cats| && c.cats[k].status == Failed)
  {
    assert Decides(n, c, if AnyFailed(c.cats) then FailNow else Pass);
    forall k | 0 <= k < |c.cats| ensures c.cats[k].status == Succeeded || c.cats[k].status == Failed {
      assert Done(c.cats[k]);
    }
  }

  // ---- Progress ----

  function Weight(s: Status): nat {
    match s
    case Pending => 2
    case InProgress => 1
    case _ => 0
  }

  function TotalWeight(cats: seq<Category>): nat {
    if cats == [] then 0 else TotalWeight(cats[..|cats| - 1]) + Weight(Last(cats).status)
  }

  /** Twice the pending categories plus the running ones; every category is pending before the first write. */
  function Work(n: nat, c: Cert): nat { if c.cats == [] then 2 * n else TotalWeight(c.cats) }

  lemma {:induction false} WeightEdit(cats: seq<Category>, i: nat, cat: Category)
    requires i < |cats|
    ensures TotalWeight(cats[i := cat]) == TotalWeight(cats) - Weight(cats[i].status) + Weight(cat.status)
  {
    var k := |cats| - 1;
    if i == k {
      assert cats[i := cat][..k] == cats[..k];
    } else {
      assert cats[i := cat][..k] == cats[..k][i := cat];
      WeightEdit(cats[..k], i, cat);
    }
  }

  lemma {:induction false} WeightPending(cats: seq<Category>)
    requires forall k :: 0 <= k < |cats| ==> cats[k].status == Pending
    ensures TotalWeight(cats) == 2 * |cats|
  {
    if cats != [] {
      WeightPending(cats[..|cats| - 1]);
    }
  }

  lemma WeightFresh(n: nat)
    requires n > 0
    ensures TotalWeight(Fresh(n)) == 2 * n - 1
  {
    var pending := Fresh(n)[0 := Category(Pending, None)];
    WeightPending(pending);
    WeightEdit(pending, 0, Fresh(n)[0]);
    assert pending[0 := Fresh(n)[0]] == Fresh(n);
  }

  /** The writes that move the sequence on. */
  predicate Advancing(w: Write) { w.Init? || w.Begin? || w.Settle? }

  predicate NoneBegun(cats: seq<Category>) { forall k :: 0 <= k < |cats| ==> cats[k].status == Pending }

  /** The stored status is where the decision took it to be. */
  predicate StillThere(c: Cert, w: Write) {
    match w
    case Init => NoneBegun(c.cats)
    case Begin(i) => i < |c.cats| && c.cats[i].status == Pending
    case Settle(i, _) => i < |c.cats| && c.cats[i].status == InProgress
    case _ => true
  }

  lemma {:induction false} HeaviestIsPending(cats: seq<Category>)
    ensures TotalWeight(cats) <= 2 * |cats|
    ensures TotalWeight(cats) == 2 * |cats| <==> NoneBegun(cats)
  {
    if cats != [] {
      HeaviestIsPending(cats[..|cats| - 1]);
      if NoneBegun(cats[..|cats| - 1]) && Last(cats).status == Pending {
        assert forall k :: 0 <= k < |cats| - 1 ==> cats[k] == cats[..|cats| - 1][k];
      }
    }
  }

  lemma InvLength(n: nat, c: Cert)
    requires Inv(n, c)
    ensures c.cats == [] || |c.cats| == n
  {
  }

  /** An advancing write takes one unit of work off exactly when nobody moved the category in between. */
  lemma AdvancesIff(n: nat, c: Cert, w: Write)
    requires Inv(n, c) && Advancing(w) && (w.Init? ==> n > 0)
    ensures Work(n, Apply(n, c, w)) == Work(n, c) - 1 <==> StillThere(c, w)
  {
    hide Inv;
    match w
    case Init =>
      WeightFresh(n);
      HeaviestIsPending(c.cats);
      InvLength(n, c);
    case Begin(i) => if i < |c.cats| { WeightEdit(c.cats, i, Category(InProgress, Some(i))); }
    case Settle(i, passed) =>
      if i < |c.cats| { WeightEdit(c.cats, i, Category(if passed then Succeeded else Failed, c.cats[i].ref)); }
  }

  // ---- Runs ----

  /** A reconcile that read version `view`; `lost` when its write never reaches the API server. */
  datatype Step = Reconcile(view: nat, write: Write, lost: bool) | ControllerRestarts

  const Created := Cert(New, [])

  predicate Effective(n: nat, versions: seq<Cert>, s: Step) {
    s.Reconcile? && s.view < |versions| && !s.lost && Decides(n, versions[s.view], s.write)
  }

  function Next(n: nat, versions: seq<Cert>, s: Step): seq<Cert>
    requires |versions| > 0
  {
    if Effective(n, versions, s) then versions + [Apply(n, Last(versions), s.write)] else versions
  }

  /** Every version of the status, the stored one last. */
  function Run(n: nat, trace: Trace<Step>): (versions: seq<Cert>)
    ensures |versions| > 0
  {
    match trace
    case Start => [Created]
    case After(before, s) => Next(n, Run(n, before), s)
  }

  /** Every write found the stored status as its guard asks. */
  ghost predicate Guarded(n: nat, trace: Trace<Step>) {
    match trace
    case Start => true
    case After(before, s) =>
      && Guarded(n, before)
      && (Effective(n, Run(n, before), s) ==> Guard(Last(Run(n, before)), s.write))
  }

  /** Every reconcile read the stored version. */
  predicate UpToDate(n: nat, trace: Trace<Step>) {
    match trace
    case Start => true
    case After(before, s) => UpToDate(n, before) && (s.Reconcile? ==> s.view == |Run(n, before)| - 1)
  }

  ghost predicate AllInv(n: nat, versions: seq<Cert>) {
    forall i :: 0 <= i < |versions| ==> Inv(n, versions[i])
  }

  lemma CreatedInv(n: nat)
    ensures Inv(n, Created)
  {
  }

  lemma CreatedWork(n: nat)
    ensures Work(n, Created) == 2 * n
  {
  }

  lemma StoredInv(n: nat, versions: seq<Cert>)
    requires |versions| > 0 && AllInv(n, versions)
    ensures Inv(n, Last(versions))
  {
  }

  /** A run keeps the sequence in order exactly when each of its writes met its guard. */
  lemma {:induction false} RunKeepsInvIff(n: nat, trace: Trace<Step>)
    ensures AllInv(n, Run(n, trace)) <==> Guarded(n, trace)
  {
    hide Inv, Guard, Apply, Decides;
    match trace
    case Start => CreatedInv(n);
    case After(before, s) =>
      RunKeepsInvIff(n, before);
      var versions := Run(n, before);
      if Effective(n, versions, s) {
        var longer := Run(n, trace);
        assert forall i :: 0 <= i < |versions| ==> longer[i] == versions[i];
        if AllInv(n, versions) {
          assert Inv(n, Last(versions));
          WriteKeepsInvIff(n, Last(versions), s.write);
          assert longer[|versions|] == Apply(n, Last(versions), s.write);
        } else {
          var i :| 0 <= i < |versions| && !Inv(n, versions[i]);
          assert !Inv(n, longer[i]);
        }
      }
  }

  lemma {:induction false} UpToDateIsGuarded(n: nat, trace: Trace<Step>)
    requires UpToDate(n, trace)
    ensures Guarded(n, trace)
  {
    hide Guard, Decides, Inv, Apply;
    match trace
    case Start =>
    case After(before, s) =>
      UpToDateIsGuarded(n, before);
      RunKeepsInvIff(n, before);
      var stored := Last(Run(n, before));
      assert Inv(n, stored);
      if Effective(n, Run(n, before), s) {
        DecisionMeetsGuard(n, stored, s.write);
      }
  }

  function Advances(n: nat, trace: Trace<Step>): nat {
    match trace
    case Start => 0
    case After(before, s) =>
      Advances(n, before) + if Effective(n, Run(n, before), s) && Advancing(s.write) then 1 else 0
  }

  function Recoveries(n: nat, trace: Trace<Step>): nat {
    match trace
    case Start => 0
    case After(before, s) =>
      Recoveries(n, before) + if Effective(n, Run(n, before), s) && s.write.Reopen? then 1 else 0
  }

  lemma DecisionMoves(n: nat, c: Cert, w: Write)
    requires Inv(n, c) && Decides(n, c, w)
    ensures Work(n, Apply(n, c, w)) ==
      Work(n, c) - (if Advancing(w) then 1 else 0) + if w.Reopen? then 1 else 0
  {
    if Advancing(w) {
      assert StillThere(c, w);
      AdvancesIff(n, c, w);
    } else if w.Reopen? {
      WeightEdit(c.cats, w.i, Category(InProgress, c.cats[w.i].ref));
    }
  }

  /**
    When reconciles read the stored version, every version is in order, and each start and each
    end of a category is paid for: with the work that is left they are twice the number of
    categories plus the recoveries. Without recoveries a run advances at most 2n times.
  */
  lemma {:induction false} SequenceIsSafe(n: nat, trace: Trace<Step>)
    requires UpToDate(n, trace)
    ensures AllInv(n, Run(n, trace))
    ensures Advances(n, trace) + Work(n, Last(Run(n, trace))) == 2 * n + Recoveries(n, trace)
  {
    UpToDateIsGuarded(n, trace);
    RunKeepsInvIff(n, trace);
    hide Inv, Apply, Decides, Work, Guarded, AllInv;
    match trace
    case Start => CreatedWork(n);
    case After(before, s) =>
      SequenceIsSafe(n, before);
      var stored := Last(Run(n, before));
      if Effective(n, Run(n, before), s) {
        StoredInv(n, Run(n, before));
        DecisionMoves(n, stored, s.write);
      }
  }

  /** Once passed, every category has succeeded and nothing is written again. */
  lemma {:induction false} PassedIsFinal(n: nat, trace: Trace<Step>, more: seq<Step>)
    requires UpToDate(n, Extend(trace, more)) && Last(Run(n, trace)).phase == Passed
    ensures AllPassed(Last(Run(n, trace)).cats) && |Last(Run(n, trace)).cats| == n
    ensures Run(n, Extend(trace, more)) == Run(n, trace)
    decreases |more|
  {
    PrefixUpToDate(n, trace, more);
    SequenceIsSafe(n, trace);
    StoredInv(n, Run(n, trace));
    if more != [] {
      var longer := After(trace, more[0]);
      PrefixUpToDate(n, longer, more[1..]);
      assert Run(n, longer) == Run(n, trace);
      PassedIsFinal(n, longer, more[1..]);
    }
  }

  lemma {:induction false} PrefixUpToDate(n: nat, trace: Trace<Step>, more: seq<Step>)
    requires UpToDate(n, Extend(trace, more))
    ensures UpToDate(n, trace)
    decreases |more|
  {
    if more != [] {
      PrefixUpToDate(n, After(trace, more[0]), more[1..]);
    }
  }

  // ---- Exactly when Succeeded stays ----

  /** The version read still runs, and all its categories have succeeded. */
  predicate ShowsAllPassed(c: Cert) { !Terminal(c) && c.cats != [] && AllDone(c.cats) && !AnyFailed(c.cats) }

  /** What a reconcile would do to a stored Succeeded status: nothing, exactly when the version it read decides so. */
  predicate LeavesPassed(n: nat, versions: seq<Cert>, s: Step) {
    Effective(n, versions, s) ==> ShowsAllPassed(versions[s.view])
  }

  /** A stored Succeeded status stays if and only if the step writes nothing or read all categories succeeded. */
  lemma StaysPassedIff(n: nat, versions: seq<Cert>, s: Step)
    requires |versions| > 0 && Inv(n, Last(versions)) && Last(versions).phase == Passed
    ensures Last(Next(n, versions, s)) == Last(versions) <==> LeavesPassed(n, versions, s)
    ensures Last(Next(n, versions, s)).phase == Passed <==> LeavesPassed(n, versions, s)
  {
    hide Inv;
  }

  /** The stored status stays Succeeded through all further steps. */
  predicate StaysPassed(n: nat, trace: Trace<Step>, more: seq<Step>)
    decreases |more|
  {
    more != [] ==>
      var longer := After(trace, more[0]);
      Last(Run(n, longer)).phase == Passed && StaysPassed(n, longer, more[1..])
  }

  predicate AllLeavePassed(n: nat, trace: Trace<Step>, more: seq<Step>)
    decreases |more|
  {
    more != [] ==>
      LeavesPassed(n, Run(n, trace), more[0]) && AllLeavePassed(n, After(trace, more[0]), more[1..])
  }

  /**
    Whatever versions reconciles read: a Succeeded status, once stored in order, stays through a run
    if and only if every write of the run was decided from a version with all categories succeeded.
  */
  lemma {:induction false} RunStaysPassedIff(n: nat, trace: Trace<Step>, more: seq<Step>)
    requires Inv(n, Last(Run(n, trace))) && Last(Run(n, trace)).phase == Passed
    ensures StaysPassed(n, trace, more) <==> AllLeavePassed(n, trace, more)
    decreases |more|
  {
    if more != [] {
      StaysPassedIff(n, Run(n, trace), more[0]);
      hide Inv, Next, LeavesPassed;
      if LeavesPassed(n, Run(n, trace), more[0]) {
        RunStaysPassedIff(n, After(trace, more[0]), more[1..]);
      }
    }
  }

  // ---- Runs with a stale read ----

  lemma Then(n: nat, trace: Trace<Step>, s: Step) returns (longer: Trace<Step>)
    ensures longer == After(trace, s) && Run(n, longer) == Next(n, Run(n, trace), s)
  {
    longer := After(trace, s);
  }

  /**
    A reconcile one version behind may fail the Certification while its first category runs. The
    result is terminal, has a running category, and no later reconcile that reads it writes anything.
  */
  lemma StaleFailureStrands(n: nat) returns (trace: Trace<Step>)
    requires n > 0
    ensures var c := Last(Run(n, trace));
      && Terminal(c) && !NoneRunning(c.cats) && !Inv(n, c)
      && forall w :: !Decides(n, c, w)
  {
    assert Run(n, Start) == [Created];
    hide Run;
    trace := Then(n, Start, Reconcile(0, Init, false));
    trace := Then(n, trace, Reconcile(0, FailNow, false));
    var c := Last(Run(n, trace));
    assert c == Cert(Rejected, Fresh(n));
    assert c.cats[0].status == InProgress;
  }

  lemma PassedAtOnce() returns (trace: Trace<Step>)
    ensures var versions := Run(1, trace);
      && |versions| == 4 && versions[1] == Cert(Running, [Category(InProgress, Some(0))])
      && versions[3] == Cert(Passed, [Category(Succeeded, Some(0))])
  {
    assert Run(1, Start) == [Created];
    hide Run;
    trace := Then(1, Start, Reconcile(0, Init, false));
    assert Last(Run(1, trace)).cats == [Category(InProgress, Some(0))];
    trace := Then(1, trace, Reconcile(1, Settle(0, true), false));
    assert Last(Run(1, trace)).cats == [Category(Succeeded, Some(0))];
    trace := Then(1, trace, Reconcile(2, Pass, false));
  }

  /** A restarted controller that reads an old version may take back a Succeeded condition. */
  lemma StaleProgressUndoesPass() returns (trace: Trace<Step>)
    ensures var versions := Run(1, trace);
      |versions| > 1 && versions[|versions| - 2].phase == Passed && Last(versions).phase == Running
  {
    hide Run;
    trace := PassedAtOnce();
    trace := Then(1, trace, ControllerRestarts);
    assert !Done(Run(1, trace)[1].cats[0]);
    trace := Then(1, trace, Reconcile(1, Progress, false));
  }
}
