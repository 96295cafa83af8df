/**
  Training time counted window by window (pkg/controller/goodputmeasurement_controller.go).

  A run logs a stream of steps; each sample parses one stretch of it, and stretches overlap. The
  watermark is the highest step any earlier window ended at.
*/
module StepAccounting {
  import opened Prelude

  datatype TrainingStep = TrainingStep(step: nat, timing: real, warmup: bool)

  /** How many iterations one log line stands for; `prev` is the step logged before it, 0 for none. */
  function Iterations(step: nat, prev: nat, logInterval: nat): nat {
    if prev == 0 || step <= prev then (if logInterval > 1 then logInterval else 1) else step - prev
  }

  /** What one log line contributes. */
  function Time(s: TrainingStep, prev: nat, logInterval: nat): real {
    if s.warmup || s.timing <= 0.0 then 0.0 else s.timing * Iterations(s.step, prev, logInterval) as real
  }

  /** The contribution of a window's lines above the watermark, first line first. */
  function Delta(steps: seq<TrainingStep>, prev: nat, mark: nat, logInterval: nat): real {
    if steps == [] then 0.0
    else
      (if steps[0].step <= mark then 0.0 else Time(steps[0], prev, logInterval))
      + Delta(steps[1..], steps[0].step, mark, logInterval)
  }

  lemma {:induction false} DeltaConcat(
    a: seq<TrainingStep>, b: seq<TrainingStep>, prev: nat, mark: nat, logInterval: nat)
    ensures Delta(a + b, prev, mark, logInterval) ==
      Delta(a, prev, mark, logInterval) + Delta(b, if a == [] then prev else Last(a).step, mark, logInterval)
  {
    if a == [] {
      assert a + b == b;
    } else {
      assert (a + b)[1..] == a[1..] + b;
      DeltaConcat(a[1..], b, a[0].step, mark, logInterval);
    }
  }

  function Total(parts: seq<real>): real {
    if parts == [] then 0.0 else Total(parts[..|parts| - 1]) + Last(parts)
  }

  /** A line that counts: trained past the warm-up, timed, and above the watermark. */
  predicate Timed(s: TrainingStep, mark: nat) { !s.warmup && s.timing > 0.0 && s.step > mark }

  /**
    What line i of a window adds: its time per iteration, for every step since the line before it. Where
    that line is missing, or carries no smaller step, the log interval stands in.
  */
  ghost predicate Share(steps: seq<TrainingStep>, i: nat, mark: nat, logInterval: nat, part: real)
    requires i < |steps|
  {
    && (!Timed(steps[i], mark) ==> part == 0.0)
    && (Timed(steps[i], mark) && i > 0 && 0 < steps[i - 1].step < steps[i].step ==>
          part == steps[i].timing * (steps[i].step - steps[i - 1].step) as real)
    && (Timed(steps[i], mark) && (i == 0 || steps[i - 1].step == 0 || steps[i].step <= steps[i - 1].step) ==>
          part == steps[i].timing * Max(logInterval, 1) as real)
  }

  ghost predicate Shares(steps: seq<TrainingStep>, mark: nat, logInterval: nat, parts: seq<real>) {
    |parts| == |steps| && forall i :: 0 <= i < |steps| ==> Share(steps, i, mark, logInterval, parts[i])
  }

  /** From line k on, every line counts and takes the same time t per iteration; none before does. */
  ghost predicate Uniform(steps: seq<TrainingStep>, k: nat, mark: nat, t: real) {
    && k < |steps| && t > 0.0 && Increasing(steps)
    && (forall i :: 0 <= i < k ==> !Timed(steps[i], mark))
    && (forall i :: k <= i < |steps| ==> Timed(steps[i], mark) && steps[i].timing == t)
  }

  /** The iterations from the line before k to the end, or from one log interval before k. */
  function Elapsed(steps: seq<TrainingStep>, k: nat, logInterval: nat): int
    requires k < |steps|
  {
    if k > 0 && steps[k - 1].step > 0 then Last(steps).step - steps[k - 1].step
    else Max(logInterval, 1) + Last(steps).step - steps[k].step
  }

  lemma {:induction false} TotalOfNone(parts: seq<real>)
    requires forall i :: 0 <= i < |parts| ==> parts[i] == 0.0
    ensures Total(parts) == 0.0
  {
    if parts != [] {
      TotalOfNone(parts[..|parts| - 1]);
    }
  }

  lemma ShareFrame(steps: seq<TrainingStep>, n: nat, i: nat, mark: nat, logInterval: nat, part: real)
    requires i < n <= |steps|
    ensures Share(steps[..n], i, mark, logInterval, part) <==> Share(steps, i, mark, logInterval, part)
  {
  }

  lemma SharesPrefix(steps: seq<TrainingStep>, mark: nat, logInterval: nat, parts: seq<real>, n: nat)
    requires Shares(steps, mark, logInterval, parts) && n <= |steps|
    ensures Shares(steps[..n], mark, logInterval, parts[..n])
  {
    hide Share;
    forall i | 0 <= i < n ensures Share(steps[..n], i, mark, logInterval, parts[..n][i]) {
      ShareFrame(steps, n, i, mark, logInterval, parts[i]);
    }
  }

  lemma Scaled(t: real, a: int, b: int)
    ensures t * a as real + t * b as real == t * (a + b) as real
  {
  }

  /** The share of a line of a uniform stretch, the first one and any other. */
  lemma UniformShare(steps: seq<TrainingStep>, k: nat, i: nat, mark: nat, t: real, logInterval: nat, part: real)
    requires Uniform(steps, k, mark, t) && k <= i < |steps| && Share(steps, i, mark, logInterval, part)
    ensures i == k ==> part == t * Elapsed(steps[..k + 1], k, logInterval) as real
    ensures i > k ==> part == t * (steps[i].step - steps[i - 1].step) as real
  {
    assert i > 0 ==> steps[i - 1].step < steps[i].step;
    assert i > k ==> Timed(steps[i - 1], mark);
  }

  lemma UniformPrefix(steps: seq<TrainingStep>, k: nat, mark: nat, t: real, n: nat)
    requires Uniform(steps, k, mark, t) && k < n <= |steps|
    ensures Uniform(steps[..n], k, mark, t)
  {
  }

  lemma UnevenlyNone(steps: seq<TrainingStep>, k: nat, mark: nat, t: real, logInterval: nat, parts: seq<real>)
    requires Shares(steps, mark, logInterval, parts) && Uniform(steps, k, mark, t)
    ensures Total(parts[..k]) == 0.0
  {
    forall i | 0 <= i < k ensures parts[..k][i] == 0.0 {
      assert Share(steps, i, mark, logInterval, parts[i]);
    }
    TotalOfNone(parts[..k]);
  }

  lemma ElapsedStep(steps: seq<TrainingStep>, k: nat, n: nat, logInterval: nat)
    requires k < n < |steps|
    ensures Elapsed(steps[..n + 1], k, logInterval) ==
      Elapsed(steps[..n], k, logInterval) + steps[n].step - steps[n - 1].step
  {
  }

  /** At a constant time per iteration the shares add up to that time for every iteration elapsed. */
  lemma {:induction false} UniformTotal(
    steps: seq<TrainingStep>, k: nat, mark: nat, t: real, logInterval: nat, parts: seq<real>, n: nat)
    requires Shares(steps, mark, logInterval, parts) && Uniform(steps, k, mark, t) && k < n <= |steps|
    ensures Total(parts[..n]) == t * Elapsed(steps[..n], k, logInterval) as real
    decreases n
  {
    hide Share, Uniform, Elapsed;
    var i := n - 1;
    assert parts[..n][..i] == parts[..i] && Share(steps, i, mark, logInterval, parts[i]);
    UniformShare(steps, k, i, mark, t, logInterval, parts[i]);
    if i == k {
      UnevenlyNone(steps, k, mark, t, logInterval, parts);
    } else {
      UniformTotal(steps, k, mark, t, logInterval, parts, i);
      ElapsedStep(steps, k, i, logInterval);
      Scaled(t, Elapsed(steps[..i], k, logInterval), steps[i].step - steps[i - 1].step);
    }
  }

  /** The last line's contribution is its share. */
  lemma TimeIsShare(steps: seq<TrainingStep>, mark: nat, logInterval: nat)
    requires steps != []
    ensures var n := |steps| - 1;
      Share(steps, n, mark, logInterval,
            Delta([steps[n]], if n == 0 then 0 else steps[n - 1].step, mark, logInterval))
  {
    assert [Last(steps)][1..] == [];
  }

  lemma {:induction false} DeltaShares(steps: seq<TrainingStep>, mark: nat, logInterval: nat)
    returns (parts: seq<real>)
    ensures Delta(steps, 0, mark, logInterval) == Total(parts) && Shares(steps, mark, logInterval, parts)
  {
    hide Share, Delta;
    parts := [];
    if steps == [] {
      NoDelta(mark, logInterval);
    } else {
      var n := |steps| - 1;
      var init, s := steps[..n], steps[n];
      var before := DeltaShares(init, mark, logInterval);
      assert steps == init + [s];
      DeltaConcat(init, [s], 0, mark, logInterval);
      TimeIsShare(steps, mark, logInterval);
      parts := before + [Delta([s], if n == 0 then 0 else steps[n - 1].step, mark, logInterval)];
      assert parts[..n] == before;
      forall i | 0 <= i < n ensures Share(steps, i, mark, logInterval, parts[i]) {
        ShareFrame(steps, n, i, mark, logInterval, before[i]);
      }
    }
  }

  lemma NoDelta(mark: nat, logInterval: nat)
    ensures Delta([], 0, mark, logInterval) == 0.0
  {
  }

  lemma {:induction false} UniformDelta(steps: seq<TrainingStep>, k: nat, mark: nat, t: real, logInterval: nat)
    requires Uniform(steps, k, mark, t)
    ensures Delta(steps, 0, mark, logInterval) == t * Elapsed(steps, k, logInterval) as real
  {
    hide Delta, Share, Elapsed;
    var parts := DeltaShares(steps, mark, logInterval);
    UniformTotal(steps, k, mark, t, logInterval, parts, |steps|);
    assert parts[..|steps|] == parts && steps[..|steps|] == steps;
  }

  lemma {:induction false} UniformDeltas(steps: seq<TrainingStep>, mark: nat, logInterval: nat)
    ensures forall k: nat, t :: Uniform(steps, k, mark, t) ==>
      Delta(steps, 0, mark, logInterval) == t * Elapsed(steps, k, logInterval) as real
  {
    hide Delta, Elapsed, Uniform;
    forall k: nat, t | Uniform(steps, k, mark, t)
      ensures k < |steps| && Delta(steps, 0, mark, logInterval) == t * Elapsed(steps, k, logInterval) as real
    {
      assert k < |steps| by { UniformIndex(steps, k, mark, t); }
      UniformDelta(steps, k, mark, t, logInterval);
    }
  }

  lemma UniformIndex(steps: seq<TrainingStep>, k: nat, mark: nat, t: real)
    requires Uniform(steps, k, mark, t)
    ensures k < |steps|
  {
  }

  /** computeNonWarmupTimeDelta. */
  method ComputeNonWarmupTimeDelta(steps: seq<TrainingStep>, lastCounted: nat, logInterval: nat)
    returns (sum: real, ghost parts: seq<real>)
    ensures sum == Delta(steps, 0, lastCounted, logInterval)
    ensures sum == Total(parts) && Shares(steps, lastCounted, logInterval, parts)
    ensures forall k: nat, t :: Uniform(steps, k, lastCounted, t) ==> sum == t * Elapsed(steps, k, logInterval) as real
  {
    hide Share, Uniform, Elapsed;
    sum := 0.0;
    var prevStep := 0;
    for i := 0 to |steps|
      invariant prevStep == if i == 0 then 0 else steps[i - 1].step
      invariant sum == Delta(steps[..i], 0, lastCounted, logInterval)
    {
      var s := steps[i];
      DeltaConcat(steps[..i], [s], 0, lastCounted, logInterval);
      assert steps[..i + 1] == steps[..i] + [s];
      assert Delta([s], prevStep, lastCounted, logInterval) ==
        if s.step <= lastCounted then 0.0 else Time(s, prevStep, logInterval) by {
        assert [s][1..] == [];
      }
      if s.warmup || s.step <= lastCounted {
        prevStep := s.step;
        continue;
      }
      if s.timing > 0.0 {
        var delta := s.step - prevStep;
        if prevStep == 0 || delta < 1 {
          delta := if logInterval > 1 then logInterval else 1;
        }
        sum := sum + s.timing * delta as real;
      }
      prevStep := s.step;
    }
    assert steps[..|steps|] == steps;
    parts := DeltaShares(steps, lastCounted, logInterval);
    UniformDeltas(steps, lastCounted, logInterval);
  }

  // ---- A run of windows over one stream ----

  ghost predicate Increasing(stream: seq<TrainingStep>) {
    forall i, j :: 0 <= i < j < |stream| ==> stream[i].step < stream[j].step
  }

  /** Lines `lo` up to `hi` of the stream. */
  datatype Window = Window(lo: nat, hi: nat)

  ghost predicate WindowsOf(windows: seq<Window>, stream: seq<TrainingStep>) {
    forall i :: 0 <= i < |windows| ==> windows[i].lo <= windows[i].hi <= |stream|
  }

  /** How many lines of the stream lie at or below the watermark once `windows` are merged. */
  function Reached(windows: seq<Window>): nat {
    if windows == [] then 0
    else
      var w := Last(windows);
      var before := Reached(windows[..|windows| - 1]);
      if w.lo < w.hi then Max(before, w.hi) else before
  }

  lemma {:induction false} ReachedInStream(windows: seq<Window>, stream: seq<TrainingStep>)
    requires WindowsOf(windows, stream)
    ensures Reached(windows) <= |stream|
  {
    if windows != [] {
      ReachedInStream(windows[..|windows| - 1], stream);
    }
  }

  /** The measurement after a run of windows: accumulated time and watermark (LastNonWarmupStep). */
  function Merge(windows: seq<Window>, stream: seq<TrainingStep>, logInterval: nat): (real, nat)
    requires forall i :: 0 <= i < |windows| ==> windows[i].lo <= windows[i].hi <= |stream|
  {
    if windows == [] then (0.0, 0)
    else
      var (time, mark) := Merge(windows[..|windows| - 1], stream, logInterval);
      var w := Last(windows);
      var steps := stream[w.lo..w.hi];
      (time + Delta(steps, 0, mark, logInterval),
       if steps != [] && Last(steps).step > mark then Last(steps).step else mark)
  }

  /** Line `j` of the stream, measured against the line before it; step 0 is never above a watermark. */
  function TrueTime(stream: seq<TrainingStep>, j: nat, logInterval: nat): real
    requires j < |stream|
  {
    if stream[j].step == 0 then 0.0 else Time(stream[j], if j == 0 then 0 else stream[j - 1].step, logInterval)
  }

  function TrueTotal(stream: seq<TrainingStep>, lo: nat, hi: nat, logInterval: nat): real
    requires lo <= hi <= |stream|
    decreases hi - lo
  {
    if lo == hi then 0.0 else TrueTotal(stream, lo, hi - 1, logInterval) + TrueTime(stream, hi - 1, logInterval)
  }

  /** What a window that starts at line `j` gains or loses by not seeing the line before it. */
  function BoundaryError(stream: seq<TrainingStep>, j: nat, logInterval: nat): real
    requires j < |stream|
  {
    if stream[j].step == 0 then 0.0 else Time(stream[j], 0, logInterval) - TrueTime(stream, j, logInterval)
  }

  /** The time a window counts when `reached` lines were counted before it. */
  function WindowTime(stream: seq<TrainingStep>, w: Window, reached: nat, logInterval: nat): real
    requires w.lo <= w.hi <= |stream|
  {
    var first := Max(w.lo, reached);
    if first >= w.hi then 0.0
    else
      TrueTotal(stream, first, w.hi, logInterval)
      + (if first == w.lo then BoundaryError(stream, first, logInterval) else 0.0)
  }

  function Accounted(windows: seq<Window>, stream: seq<TrainingStep>, logInterval: nat): real
    requires forall i :: 0 <= i < |windows| ==> windows[i].lo <= windows[i].hi <= |stream|
  {
    if windows == [] then 0.0
    else
      var init := windows[..|windows| - 1];
      Accounted(init, stream, logInterval) + WindowTime(stream, Last(windows), Reached(init), logInterval)
  }

  /** Lines at or below the watermark contribute nothing. */
  lemma {:induction false} SkipCounted(
    stream: seq<TrainingStep>, lo: nat, hi: nat, prev: nat, mark: nat, logInterval: nat)
    requires lo <= hi <= |stream|
    requires forall j :: lo <= j < hi ==> stream[j].step <= mark
    ensures Delta(stream[lo..hi], prev, mark, logInterval) == 0.0
    decreases hi - lo
  {
    if lo < hi {
      assert stream[lo..hi][1..] == stream[lo + 1..hi];
      SkipCounted(stream, lo + 1, hi, stream[lo].step, mark, logInterval);
    }
  }

  /** Above the watermark every line counts, the first against `prev`. */
  lemma {:induction false} CountAbove(
    stream: seq<TrainingStep>, lo: nat, hi: nat, prev: nat, mark: nat, logInterval: nat)
    requires lo < hi <= |stream|
    requires forall j :: lo <= j < hi ==> stream[j].step > mark
    ensures Delta(stream[lo..hi], prev, mark, logInterval) ==
      Time(stream[lo], prev, logInterval) + TrueTotal(stream, lo + 1, hi, logInterval)
    decreases hi - lo
  {
    var init := stream[lo..hi - 1];
    assert stream[lo..hi] == init + [stream[hi - 1]];
    DeltaConcat(init, [stream[hi - 1]], prev, mark, logInterval);
    assert [stream[hi - 1]][1..] == [];
    if lo + 1 < hi {
      CountAbove(stream, lo, hi - 1, prev, mark, logInterval);
    }
  }

  lemma TrueTotalFrom(stream: seq<TrainingStep>, lo: nat, hi: nat, logInterval: nat)
    requires lo < hi <= |stream|
    ensures TrueTotal(stream, lo, hi, logInterval) ==
      TrueTime(stream, lo, logInterval) + TrueTotal(stream, lo + 1, hi, logInterval)
  {
    TrueTotalSplit(stream, lo, lo + 1, hi, logInterval);
  }

  lemma {:induction false} TrueTotalSplit(stream: seq<TrainingStep>, lo: nat, mid: nat, hi: nat, logInterval: nat)
    requires lo <= mid <= hi <= |stream|
    ensures TrueTotal(stream, lo, hi, logInterval) ==
      TrueTotal(stream, lo, mid, logInterval) + TrueTotal(stream, mid, hi, logInterval)
    decreases hi - mid
  {
    if mid < hi {
      TrueTotalSplit(stream, lo, mid, hi - 1, logInterval);
    }
  }

  /** The watermark `mark` separates the first `reached` lines from the rest. */
  ghost predicate Marks(stream: seq<TrainingStep>, reached: nat, mark: nat) {
    && reached <= |stream|
    && forall j :: 0 <= j < |stream| ==> (stream[j].step <= mark <==> j < reached || stream[j].step == 0)
  }

  /** The new lines of a window, the first measured against `prev`. */
  lemma CountNew(stream: seq<TrainingStep>, first: nat, hi: nat, prev: nat, mark: nat, logInterval: nat)
    requires Increasing(stream) && first < hi <= |stream|
    requires forall j :: first <= j < hi ==> (stream[j].step <= mark <==> stream[j].step == 0)
    ensures Delta(stream[first..hi], prev, mark, logInterval) ==
      (if stream[first].step == 0 then 0.0 else Time(stream[first], prev, logInterval))
      + TrueTotal(stream, first + 1, hi, logInterval)
  {
    if stream[first].step > 0 {
      CountAbove(stream, first, hi, prev, mark, logInterval);
    } else {
      assert stream[first..hi][1..] == stream[first + 1..hi];
      if first + 1 < hi {
        TrueTotalFrom(stream, first + 1, hi, logInterval);
        CountAbove(stream, first + 1, hi, 0, mark, logInterval);
      }
    }
  }

  lemma WindowDelta(stream: seq<TrainingStep>, w: Window, reached: nat, mark: nat, logInterval: nat)
    requires Increasing(stream) && w.lo <= w.hi <= |stream| && Marks(stream, reached, mark)
    ensures Delta(stream[w.lo..w.hi], 0, mark, logInterval) == WindowTime(stream, w, reached, logInterval)
  {
    hide Delta;
    var first := Max(w.lo, reached);
    if first >= w.hi {
      SkipCounted(stream, w.lo, w.hi, 0, mark, logInterval);
    } else {
      SkipCounted(stream, w.lo, first, 0, mark, logInterval);
      assert stream[w.lo..w.hi] == stream[w.lo..first] + stream[first..w.hi];
      DeltaConcat(stream[w.lo..first], stream[first..w.hi], 0, mark, logInterval);
      CountNew(stream, first, w.hi, if first == w.lo then 0 else stream[first - 1].step, mark, logInterval);
      TrueTotalFrom(stream, first, w.hi, logInterval);
    }
  }

  // ---- What every run of windows keeps ----

  /**
    The exact account: merged window by window, the total is the true time of every line counted,
    plus a boundary error for each window that starts at its first new line.
  */
  lemma {:induction false} MergeIsAccounted(windows: seq<Window>, stream: seq<TrainingStep>, logInterval: nat)
    requires Increasing(stream) && WindowsOf(windows, stream)
    ensures var (time, mark) := Merge(windows, stream, logInterval);
      && time == Accounted(windows, stream, logInterval)
      && Marks(stream, Reached(windows), mark)
  {
    if windows != [] {
      var init, w := windows[..|windows| - 1], Last(windows);
      MergeIsAccounted(init, stream, logInterval);
      var (time, mark) := Merge(init, stream, logInterval);
      WindowDelta(stream, w, Reached(init), mark, logInterval);
      MarkAdvances(stream, w, Reached(init), mark);
      hide Delta, WindowTime, Marks, Increasing;
    }
  }

  lemma MarkAdvances(stream: seq<TrainingStep>, w: Window, reached: nat, mark: nat)
    requires Increasing(stream) && w.lo <= w.hi <= |stream| && Marks(stream, reached, mark)
    ensures var steps := stream[w.lo..w.hi];
      Marks(stream, if w.lo < w.hi then Max(reached, w.hi) else reached,
            if steps != [] && Last(steps).step > mark then Last(steps).step else mark)
  {
  }

  /** Window `i` is the one that counts line `j`. */
  predicate Counts(windows: seq<Window>, i: nat, j: nat)
    requires i < |windows|
  {
    Max(windows[i].lo, Reached(windows[..i])) <= j < windows[i].hi
  }

  /** No line is counted by two windows, however they overlap. */
  lemma CountedOnce(windows: seq<Window>, i: nat, k: nat, j: nat)
    requires i < k < |windows|
    requires windows[i].lo <= windows[i].hi
    ensures !(Counts(windows, i, j) && Counts(windows, k, j))
  {
    if Counts(windows, i, j) {
      ReachedGrows(windows, i, k);
    }
  }

  lemma {:induction false} ReachedGrows(windows: seq<Window>, i: nat, k: nat)
    requires i < k <= |windows| && windows[i].lo < windows[i].hi
    ensures windows[i].hi <= Reached(windows[..k])
    decreases k
  {
    assert windows[..k][..k - 1] == windows[..k - 1];
    if i < k - 1 {
      ReachedGrows(windows, i, k - 1);
    }
  }

  /** Window `i` goes on from what was counted: it reaches back to the last counted line, or loses nothing. */
  predicate Continues(windows: seq<Window>, stream: seq<TrainingStep>, logInterval: nat, i: nat)
    requires i < |windows| && windows[i].lo <= windows[i].hi <= |stream|
  {
    var reached := Reached(windows[..i]);
    || windows[i].hi <= reached
    || windows[i].lo < reached
    || (windows[i].lo == reached && reached < windows[i].hi && BoundaryError(stream, reached, logInterval) == 0.0)
  }

  /** A boundary loses nothing exactly when its line counts for nothing or follows at the log interval. */
  lemma BoundaryErrorIsZero(stream: seq<TrainingStep>, j: nat, logInterval: nat)
    requires Increasing(stream) && j < |stream|
    ensures BoundaryError(stream, j, logInterval) == 0.0 <==>
      || stream[j].warmup || stream[j].timing <= 0.0 || stream[j].step == 0
      || j == 0 || stream[j - 1].step == 0
      || stream[j].step - stream[j - 1].step == Max(logInterval, 1)
  {
  }

  /** Incremental equals batch: windows that each go on from the last give the total of a single pass. */
  lemma {:induction false} IncrementalEqualsBatch(windows: seq<Window>, stream: seq<TrainingStep>, logInterval: nat)
    requires Increasing(stream) && WindowsOf(windows, stream)
    requires forall i :: 0 <= i < |windows| ==> Continues(windows, stream, logInterval, i)
    ensures Reached(windows) <= |stream|
    ensures Merge(windows, stream, logInterval).0 == Delta(stream[..Reached(windows)], 0, 0, logInterval)
  {
    ReachedInStream(windows, stream);
    MergeIsAccounted(windows, stream, logInterval);
    AccountedIsTotal(windows, stream, logInterval);
    WindowDelta(stream, Window(0, Reached(windows)), 0, 0, logInterval);
    assert stream[0..Reached(windows)] == stream[..Reached(windows)];
  }

  lemma {:induction false} AccountedIsTotal(windows: seq<Window>, stream: seq<TrainingStep>, logInterval: nat)
    requires Increasing(stream) && WindowsOf(windows, stream)
    requires forall i :: 0 <= i < |windows| ==> Continues(windows, stream, logInterval, i)
    ensures Reached(windows) <= |stream|
    ensures Accounted(windows, stream, logInterval) == TrueTotal(stream, 0, Reached(windows), logInterval)
  {
    ReachedInStream(windows, stream);
    if windows != [] {
      var init, n := windows[..|windows| - 1], |windows| - 1;
      forall i | 0 <= i < n
        ensures Continues(init, stream, logInterval, i)
      {
        assert Continues(windows, stream, logInterval, i) && init[..i] == windows[..i];
      }
      AccountedIsTotal(init, stream, logInterval);
      assert Continues(windows, stream, logInterval, n) && windows[..n] == init;
      if Last(windows).hi > Reached(init) {
        TrueTotalSplit(stream, 0, Reached(init), Last(windows).hi, logInterval);
      }
    }
  }

  /** For a window that leaves no gap, going on from the last is also necessary. */
  lemma BatchOnlyIfContinues(stream: seq<TrainingStep>, first: Window, second: Window, logInterval: nat)
    requires Increasing(stream) && WindowsOf([first, second], stream)
    requires first.lo == 0 && second.lo <= first.hi < second.hi
    ensures Merge([first, second], stream, logInterval).0 == Delta(stream[..second.hi], 0, 0, logInterval)
      <==> Continues([first, second], stream, logInterval, 1)
  {
    var both := [first, second];
    MergeIsAccounted(both, stream, logInterval);
    WindowDelta(stream, Window(0, second.hi), 0, 0, logInterval);
    assert stream[0..second.hi] == stream[..second.hi];
    assert both[..1] == [first] && [first][..0] == [];
    assert Reached([first]) == first.hi;
    TrueTotalSplit(stream, 0, first.hi, second.hi, logInterval);
    assert Accounted([first], stream, logInterval) == TrueTotal(stream, 0, first.hi, logInterval);
  }

  /**
    A run whose iterations all take t, read in windows that each go on from the last: the measured time
    is t for every iteration from the first line's log interval to the last line counted.
  */
  lemma {:induction false} UniformRun(windows: seq<Window>, stream: seq<TrainingStep>, logInterval: nat, t: real)
    requires Increasing(stream) && WindowsOf(windows, stream)
    requires forall i :: 0 <= i < |windows| ==> Continues(windows, stream, logInterval, i)
    requires t > 0.0 && forall i :: 0 <= i < |stream| ==> Timed(stream[i], 0) && stream[i].timing == t
    ensures Reached(windows) <= |stream|
    ensures Merge(windows, stream, logInterval).0 ==
      if Reached(windows) == 0 then 0.0
      else t * (Max(logInterval, 1) + stream[Reached(windows) - 1].step - stream[0].step) as real
  {
    hide Delta, Continues, Merge, Time, BoundaryError, WindowsOf;
    IncrementalEqualsBatch(windows, stream, logInterval);
    if Reached(windows) > 0 {
      var seen := stream[..Reached(windows)];
      assert Uniform(seen, 0, 0, t);
      UniformDelta(seen, 0, 0, t, logInterval);
    } else {
      NoDelta(0, logInterval);
    }
  }
}
