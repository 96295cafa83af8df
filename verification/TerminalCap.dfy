/**
  The final log sample of a terminal Job, cut off at the Job's terminal transition
  (capParseResultAtAnchor and the guards of collectFinalSample,
  pkg/controller/goodputmeasurement_controller.go, ADR-072).
*/
module TerminalCap {
  import opened Prelude

  /** A parsed step or checkpoint; `at` is None when the line carried no timestamp. */
  datatype Entry = Entry(step: nat, at: Option<int>)

  predicate Late(at: Option<int>, anchor: int) { at.Some? && at.value > anchor }

  /** The entries not stamped after the anchor, in order. */
  function Kept(entries: seq<Entry>, anchor: int): seq<Entry> {
    if entries == [] then []
    else Kept(entries[..|entries| - 1], anchor) + (if Late(Last(entries).at, anchor) then [] else [Last(entries)])
  }

  /** The parsed window, as a value. */
  datatype Parsed = Parsed(
    steps: seq<Entry>, first: Option<Entry>, last: Option<Entry>,
    checkpoints: seq<Entry>, lastCheckpoint: Option<Entry>,
    pendingSave: Option<Entry>, applicationStart: Option<int>, lastLog: Option<int>)

  function HeadOf(s: seq<Entry>): Option<Entry> { if s == [] then None else Some(s[0]) }
  function LastOf(s: seq<Entry>): Option<Entry> { if s == [] then None else Some(Last(s)) }

  function CapPointer(p: Option<Entry>, anchor: int, replacement: Option<Entry>): Option<Entry> {
    if p.Some? && Late(p.value.at, anchor) then replacement else p
  }

  function Cap(p: Parsed, anchor: int): Parsed {
    var steps, checkpoints := Kept(p.steps, anchor), Kept(p.checkpoints, anchor);
    Parsed(
      steps, CapPointer(p.first, anchor, HeadOf(steps)), CapPointer(p.last, anchor, LastOf(steps)),
      checkpoints, CapPointer(p.lastCheckpoint, anchor, LastOf(checkpoints)),
      CapPointer(p.pendingSave, anchor, None),
      if Late(p.applicationStart, anchor) then None else p.applicationStart,
      if Late(p.lastLog, anchor) then Some(anchor) else p.lastLog)
  }

  /** A slice: the first `len` cells of a backing array. */
  class Slice {
    const cells: array<Entry>
    var len: nat

    ghost predicate Valid() reads this { len <= cells.Length }
    ghost function Value(): seq<Entry> reads this, cells requires Valid() { cells[..len] }

    constructor (cells: array<Entry>)
      ensures Valid() && this.cells == cells && len == cells.Length
    {
      this.cells := cells;
      len := cells.Length;
    }

    /** Compacts in place: the kept entries move to the front of the same backing array. */
    method DropLate(anchor: int)
      requires Valid()
      modifies this`len, cells
      ensures Valid() && Value() == Kept(old(Value()), anchor)
    {
      ghost var was := Value();
      var kept := 0;
      for i := 0 to len
        invariant kept <= i <= len == old(len) && Valid()
        invariant cells[..kept] == Kept(was[..i], anchor)
        invariant forall j :: i <= j < len ==> cells[j] == was[j]
      {
        assert was[..i + 1][..i] == was[..i];
        var e := cells[i];
        if !Late(e.at, anchor) {
          cells[kept] := e;
          kept := kept + 1;
          assert cells[..kept] == cells[..kept - 1] + [e];
        }
      }
      assert was[..len] == was;
      len := kept;
    }

    method First() returns (e: Option<Entry>)
      requires Valid()
      ensures e == HeadOf(Value())
    {
      e := if len == 0 then None else Some(cells[0]);
    }

    method Final() returns (e: Option<Entry>)
      requires Valid()
      ensures e == LastOf(Value())
    {
      e := if len == 0 then None else Some(cells[len - 1]);
    }
  }

  class ParseResult {
    const steps: Slice
    const checkpoints: Slice
    var first: Option<Entry>
    var last: Option<Entry>
    var lastCheckpoint: Option<Entry>
    var pendingSave: Option<Entry>
    var applicationStart: Option<int>
    var lastLog: Option<int>

    ghost predicate Valid() reads this, steps, checkpoints {
      steps.Valid() && checkpoints.Valid() && steps != checkpoints && steps.cells != checkpoints.cells
    }

    ghost function Value(): Parsed reads this, steps, steps.cells, checkpoints, checkpoints.cells requires Valid() {
      Parsed(steps.Value(), first, last, checkpoints.Value(), lastCheckpoint, pendingSave, applicationStart, lastLog)
    }

    constructor (steps: Slice, first: Option<Entry>, last: Option<Entry>, checkpoints: Slice,
                 lastCheckpoint: Option<Entry>, pendingSave: Option<Entry>,
                 applicationStart: Option<int>, lastLog: Option<int>)
      requires steps.Valid() && checkpoints.Valid() && steps != checkpoints && steps.cells != checkpoints.cells
      ensures Valid() && Value() == Parsed(
        steps.Value(), first, last, checkpoints.Value(), lastCheckpoint, pendingSave, applicationStart, lastLog)
    {
      this.steps, this.checkpoints := steps, checkpoints;
      this.first, this.last, this.lastCheckpoint := first, last, lastCheckpoint;
      this.pendingSave, this.applicationStart, this.lastLog := pendingSave, applicationStart, lastLog;
    }

    method CapSteps(anchor: int)
      requires Valid()
      modifies this`first, this`last, steps`len, steps.cells
      ensures Valid() && steps.Value() == Kept(old(steps.Value()), anchor)
      ensures first == CapPointer(old(first), anchor, HeadOf(steps.Value()))
      ensures last == CapPointer(old(last), anchor, LastOf(steps.Value()))
      ensures checkpoints.Value() == old(checkpoints.Value())
    {
      steps.DropLate(anchor);
      if first.Some? && Late(first.value.at, anchor) {
        first := steps.First();
      }
      if last.Some? && Late(last.value.at, anchor) {
        last := steps.Final();
      }
    }

    method CapCheckpoints(anchor: int)
      requires Valid()
      modifies this`lastCheckpoint, checkpoints`len, checkpoints.cells
      ensures Valid() && checkpoints.Value() == Kept(old(checkpoints.Value()), anchor)
      ensures lastCheckpoint == CapPointer(old(lastCheckpoint), anchor, LastOf(checkpoints.Value()))
      ensures steps.Value() == old(steps.Value())
    {
      checkpoints.DropLate(anchor);
      if lastCheckpoint.Some? && Late(lastCheckpoint.value.at, anchor) {
        lastCheckpoint := checkpoints.Final();
      }
    }

    /** capParseResultAtAnchor. */
    method CapAtAnchor(anchor: int)
      requires Valid()
      modifies this, steps`len, steps.cells, checkpoints`len, checkpoints.cells
      ensures Valid() && Value() == Cap(old(Value()), anchor)
    {
      hide Kept;
      CapSteps(anchor);
      CapCheckpoints(anchor);
      if pendingSave.Some? && Late(pendingSave.value.at, anchor) {
        pendingSave := None;
      }
      if Late(applicationStart, anchor) {
        applicationStart := None;
      }
      if Late(lastLog, anchor) {
        lastLog := Some(anchor);
      }
    }
  }

  // ---- What the cap means ----

  /**
    Kept is characterised without its definition: there is an order-preserving selection of exactly the
    entries that are not stamped after the anchor.
  */
  ghost predicate Selects(entries: seq<Entry>, anchor: int, kept: seq<Entry>, from: seq<nat>) {
    && |from| == |kept|
    && (forall i :: 0 <= i < |from| ==> from[i] < |entries| && kept[i] == entries[from[i]])
    && (forall i, j :: 0 <= i < j < |from| ==> from[i] < from[j])
    && (forall k: nat :: k < |entries| ==> (k in from <==> UpTo(entries[k].at, anchor)))
  }

  /** Not after the anchor; without a timestamp nothing claims to be. */
  predicate UpTo(at: Option<int>, anchor: int) { at == None || at.value <= anchor }

  lemma {:induction false} KeptSelects(entries: seq<Entry>, anchor: int) returns (from: seq<nat>)
    ensures Selects(entries, anchor, Kept(entries, anchor), from)
  {
    from := [];
    if entries != [] {
      hide Selects;
      var init := entries[..|entries| - 1];
      var before := KeptSelects(init, anchor);
      assert entries == init + [Last(entries)];
      OneMoreEntry(init, anchor, Kept(init, anchor), before, Last(entries));
      from := before + if Late(Last(entries).at, anchor) then [] else [|init|];
    }
  }

  lemma OneMoreEntry(init: seq<Entry>, anchor: int, kept: seq<Entry>, from: seq<nat>, e: Entry)
    requires Selects(init, anchor, kept, from)
    ensures Selects(init + [e], anchor, kept + (if Late(e.at, anchor) then [] else [e]),
                    from + if Late(e.at, anchor) then [] else [|init|])
  {
    var entries, more := init + [e], from + if Late(e.at, anchor) then [] else [|init|];
    forall k: nat | k < |entries| ensures k in more <==> UpTo(entries[k].at, anchor) {
      assert k in more <==> k in from || (k == |init| && !Late(e.at, anchor));
    }
  }

  /** Only one sequence is so selected. */
  lemma SelectionIsUnique(entries: seq<Entry>, anchor: int, a: seq<Entry>, fa: seq<nat>, b: seq<Entry>, fb: seq<nat>)
    requires Selects(entries, anchor, a, fa) && Selects(entries, anchor, b, fb)
    ensures a == b
  {
    SameMembersSameOrder(fa, fb);
  }

  lemma HeadIsMember<T>(s: seq<T>)
    ensures s == [] || s[0] in s
  {
  }

  lemma SameTail(a: seq<nat>, b: seq<nat>)
    requires a != [] && b != [] && a[0] == b[0]
    requires forall i, j :: 0 <= i < j < |a| ==> a[i] < a[j]
    requires forall k :: k in a ==> k in b
    ensures forall k :: k in a[1..] ==> k in b[1..]
  {
    forall k | k in a[1..]
      ensures k in b[1..]
    {
      var i :| 0 <= i < |a[1..]| && a[1..][i] == k;
      assert a[i + 1] == k && k in a;
      var j :| 0 <= j < |b| && b[j] == k;
      assert b[1..][j - 1] == k;
    }
  }

  lemma {:induction false} SameMembersSameOrder(a: seq<nat>, b: seq<nat>)
    requires forall i, j :: 0 <= i < j < |a| ==> a[i] < a[j]
    requires forall i, j :: 0 <= i < j < |b| ==> b[i] < b[j]
    requires forall k :: k in a <==> k in b
    ensures a == b
  {
    if a == [] {
      HeadIsMember(b);
    } else {
      assert a[0] in a && b != [];
      assert b[0] in b;
      assert a[0] == b[0];
      SameTail(a, b);
      SameTail(b, a);
      SameMembersSameOrder(a[1..], b[1..]);
    }
  }

  /** The pointers name the ends of the lists they point into. */
  ghost predicate Consistent(p: Parsed) {
    && p.first == HeadOf(p.steps) && p.last == LastOf(p.steps)
    && p.lastCheckpoint == LastOf(p.checkpoints)
  }

  lemma {:induction false} KeptEnds(entries: seq<Entry>, anchor: int)
    ensures entries != [] && !Late(entries[0].at, anchor) ==> HeadOf(Kept(entries, anchor)) == Some(entries[0])
    ensures entries != [] && !Late(Last(entries).at, anchor) ==> LastOf(Kept(entries, anchor)) == Some(Last(entries))
  {
    if |entries| > 1 {
      KeptEnds(entries[..|entries| - 1], anchor);
    }
  }

  /** Capping keeps the pointers consistent. */
  lemma CapKeepsConsistent(p: Parsed, anchor: int)
    requires Consistent(p)
    ensures Consistent(Cap(p, anchor))
  {
    KeptEnds(p.steps, anchor);
    KeptEnds(p.checkpoints, anchor);
  }

  ghost predicate AllUpTo(entries: seq<Entry>, anchor: int) {
    forall k :: 0 <= k < |entries| ==> UpTo(entries[k].at, anchor)
  }

  ghost predicate PointsUpTo(p: Option<Entry>, anchor: int) { p.Some? ==> UpTo(p.value.at, anchor) }

  /** Nothing in the window is stamped after the anchor. */
  ghost predicate Quiet(p: Parsed, anchor: int) {
    && AllUpTo(p.steps, anchor) && AllUpTo(p.checkpoints, anchor)
    && PointsUpTo(p.first, anchor) && PointsUpTo(p.last, anchor)
    && PointsUpTo(p.lastCheckpoint, anchor) && PointsUpTo(p.pendingSave, anchor)
    && UpTo(p.applicationStart, anchor) && UpTo(p.lastLog, anchor)
  }

  lemma {:induction false} KeptUpTo(entries: seq<Entry>, anchor: int)
    ensures AllUpTo(Kept(entries, anchor), anchor)
    ensures AllUpTo(entries, anchor) ==> Kept(entries, anchor) == entries
  {
    if entries != [] {
      KeptUpTo(entries[..|entries| - 1], anchor);
    }
  }

  /** What is left of a single time. */
  predicate CapsTime(before: Option<int>, after: Option<int>, anchor: int, otherwise: Option<int>) {
    after == if UpTo(before, anchor) then before else otherwise
  }

  /**
    A capped window carries nothing past the anchor, and a window that carries nothing past it is not
    changed. A save or an application start after the anchor is dropped; the last log line is moved to it.
  */
  lemma CapIsQuiet(p: Parsed, anchor: int)
    ensures Quiet(Cap(p, anchor), anchor)
    ensures Quiet(p, anchor) ==> Cap(p, anchor) == p
    ensures Cap(p, anchor).pendingSave == if PointsUpTo(p.pendingSave, anchor) then p.pendingSave else None
    ensures CapsTime(p.applicationStart, Cap(p, anchor).applicationStart, anchor, None)
    ensures CapsTime(p.lastLog, Cap(p, anchor).lastLog, anchor, Some(anchor))
  {
    KeptUpTo(p.steps, anchor);
    KeptUpTo(p.checkpoints, anchor);
    hide Kept;
  }

  /**
    The parser keeps only the last hundred steps, so a long window's first step has left the list.
    The capped window then has a first step and no last one exactly when that first step is not
    late and every step still in the list is.
  */
  lemma FirstWithoutLast(p: Parsed, anchor: int)
    requires p.first.Some? && p.last == LastOf(p.steps) && p.last.Some?
    ensures var c := Cap(p, anchor);
      c.first.Some? && c.last.None? <==>
        !Late(p.first.value.at, anchor) && forall k :: 0 <= k < |p.steps| ==> Late(p.steps[k].at, anchor)
  {
    var from := KeptSelects(p.steps, anchor);
    var kept := Kept(p.steps, anchor);
    KeptEnds(p.steps, anchor);
    if forall k :: 0 <= k < |p.steps| ==> Late(p.steps[k].at, anchor) {
      HeadIsMember(from);
    } else {
      var k: nat :| k < |p.steps| && !Late(p.steps[k].at, anchor);
      assert k in from;
    }
  }

  /** Capping at an earlier anchor as well is capping at the earlier anchor, so a replayed cap changes nothing. */
  lemma {:induction false} KeptTwice(entries: seq<Entry>, a: int, b: int)
    ensures Kept(Kept(entries, a), b) == Kept(entries, Min(a, b))
  {
    if entries != [] {
      var init := entries[..|entries| - 1];
      KeptTwice(init, a, b);
      if Late(Last(entries).at, a) {
        assert Kept(entries, a) == Kept(init, a) && Kept(entries, Min(a, b)) == Kept(init, Min(a, b));
      } else {
        var kept := Kept(entries, a);
        assert kept[..|kept| - 1] == Kept(init, a) && Last(kept) == Last(entries);
      }
    }
  }

  // ---- The terminal merge never moves progress backward ----

  datatype Progress = Progress(current: nat, highest: nat)

  /** CumulativeMetrics.UpdateTrainingProgress. */
  function UpdateTrainingProgress(cm: Progress, currentStep: nat): Progress {
    Progress(currentStep, if currentStep > cm.highest then currentStep else cm.highest)
  }

  /** The step mergeSampleWindow takes the run to be at: the window's last, else the one in memory. */
  function KnownStep(inMemory: nat, window: Parsed): nat {
    if window.last.Some? then window.last.value.step else inMemory
  }

  /** The progress collectFinalSample freezes: the merge over the stored status, then its guards. */
  function FinalProgress(status: Progress, inMemory: nat, window: Parsed): Progress {
    var merged := UpdateTrainingProgress(status, KnownStep(inMemory, window));
    Progress(
      if merged.current < status.current then status.current else merged.current,
      if merged.highest < status.highest then status.highest else merged.highest)
  }

  /**
    The frozen progress is the greater of the stored one and the last step up to the anchor, or the one
    in memory if the window has none. So it never falls behind the stored one, and never claims a step
    that neither the status, nor memory, nor an entry at or before the anchor has shown.
  */
  lemma ProgressNeverFalls(status: Progress, inMemory: nat, window: Parsed, anchor: int)
    requires window.last == LastOf(window.steps)
    ensures var final := FinalProgress(status, inMemory, Cap(window, anchor));
      && var kept := Cap(window, anchor).last;
      && var step := if kept.Some? then kept.value.step else inMemory;
      && final.current == Max(status.current, step) && final.highest == Max(status.highest, step)
      && (status.current <= status.highest ==> final.current <= final.highest)
      && (final.current == status.current || final.current == inMemory ||
            exists k :: 0 <= k < |window.steps| &&
              window.steps[k].step == final.current && !Late(window.steps[k].at, anchor))
  {
    KeptEnds(window.steps, anchor);
    var kept := Kept(window.steps, anchor);
    var from := KeptSelects(window.steps, anchor);
    if kept != [] {
      assert from[|kept| - 1] in from;
    }
  }
}
