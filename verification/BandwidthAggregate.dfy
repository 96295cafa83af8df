/**
  Per-size averages of bandwidth rows
  (bandwidthAggregate, mergeAggregate, pkg/controller/bandwidthmeasurement_controller.go).

  Bandwidths are real numbers. An average is stored with two decimals: `round` stands for that
  formatting, and only its error, at most 0.005, is used.
*/
module BandwidthAggregate {
  import opened Prelude

  datatype Row = Row(size: int, alg: real, bus: real)

  datatype Sum = Sum(alg: real, bus: real, count: nat)

  datatype Result = Result(size: int, alg: real, bus: real, samples: nat)

  ghost predicate Rounds(round: real -> real) {
    forall x :: -0.005 <= round(x) - x <= 0.005
  }

  // ---- What rows add up to ----

  function SumOf(rows: seq<Row>, size: int): Sum {
    if rows == [] then Sum(0.0, 0.0, 0)
    else
      var s, r := SumOf(rows[..|rows| - 1], size), Last(rows);
      if r.size == size then Sum(s.alg + r.alg, s.bus + r.bus, s.count + 1) else s
  }

  /** `sizes` followed by those of `more` not yet there, each where it first appears. */
  function AddSizes(sizes: seq<int>, more: seq<int>): seq<int> {
    if more == [] then sizes
    else
      var e := AddSizes(sizes, more[..|more| - 1]);
      if Last(more) in e then e else e + [Last(more)]
  }

  function SizesOf(rows: seq<Row>): (s: seq<int>)
    ensures |s| == |rows| && forall i :: 0 <= i < |rows| ==> s[i] == rows[i].size
  {
    if rows == [] then [] else SizesOf(rows[..|rows| - 1]) + [Last(rows).size]
  }

  /** The sizes in the order they first appear. */
  function Order(rows: seq<Row>): seq<int> { AddSizes([], SizesOf(rows)) }

  ghost predicate Distinct(s: seq<int>) { forall i, j :: 0 <= i < j < |s| ==> s[i] != s[j] }

  lemma {:induction false} AddSizesMembers(a: seq<int>, b: seq<int>)
    ensures forall x :: x in AddSizes(a, b) <==> x in a || x in b
    ensures Distinct(a) ==> Distinct(AddSizes(a, b))
    ensures a <= AddSizes(a, b)
  {
    if b != [] {
      AddSizesMembers(a, b[..|b| - 1]);
      assert b == b[..|b| - 1] + [Last(b)];
    }
  }

  lemma {:induction false} AddSizesConcat(a: seq<int>, b: seq<int>, c: seq<int>)
    ensures AddSizes(a, b + c) == AddSizes(AddSizes(a, b), c)
  {
    if c == [] {
      assert b + c == b;
    } else {
      AddSizesConcat(a, b, c[..|c| - 1]);
      assert (b + c)[..|b + c| - 1] == b + c[..|c| - 1];
    }
  }

  /** Repeated sizes add nothing. */
  lemma {:induction false} AddSizesOnce(a: seq<int>, b: seq<int>)
    ensures AddSizes(a, AddSizes([], b)) == AddSizes(a, b)
  {
    if b != [] {
      var init := b[..|b| - 1];
      AddSizesOnce(a, init);
      AddSizesMembers([], init);
      AddSizesMembers(a, init);
      var e := AddSizes([], init);
      if Last(b) !in e {
        assert (e + [Last(b)])[..|e|] == e;
      }
    }
  }

  lemma {:induction false} SizesConcat(a: seq<Row>, b: seq<Row>)
    ensures SizesOf(a + b) == SizesOf(a) + SizesOf(b)
  {
  }

  lemma {:induction false} SumConcat(a: seq<Row>, b: seq<Row>, size: int)
    ensures var s, t, u := SumOf(a, size), SumOf(b, size), SumOf(a + b, size);
      u == Sum(s.alg + t.alg, s.bus + t.bus, s.count + t.count)
  {
    if b == [] {
      assert a + b == a;
    } else {
      SumConcat(a, b[..|b| - 1], size);
      assert (a + b)[..|a + b| - 1] == a + b[..|b| - 1];
    }
  }

  lemma {:induction false} CountsRows(rows: seq<Row>, size: int)
    ensures SumOf(rows, size).count > 0 <==> size in SizesOf(rows)
  {
    if rows != [] {
      CountsRows(rows[..|rows| - 1], size);
    }
  }

  lemma CountsAppearance(rows: seq<Row>, size: int)
    ensures SumOf(rows, size).count > 0 <==> size in Order(rows)
  {
    CountsRows(rows, size);
    AddSizesMembers([], SizesOf(rows));
  }

  // ---- The aggregate ----

  class Aggregate {
    var order: seq<int>
    var sums: map<int, Sum>

    /** The object holds the sums of these rows, sizes in the order they first appeared. */
    ghost predicate Summarizes(rows: seq<Row>)
      reads this
    {
      && order == Order(rows)
      && sums.Keys == set size | size in order
      && forall size :: size in sums ==> sums[size] == SumOf(rows, size)
    }

    constructor ()
      ensures Summarizes([])
    {
      order, sums := [], map[];
      new;
      assert Order([]) == [];
      assert sums.Keys == {} && (set size | size in order) == {};
    }

    method Add(row: Row, ghost rows: seq<Row>)
      requires Summarizes(rows)
      modifies this
      ensures Summarizes(rows + [row])
    {
      AddOne(rows, row);
      if row.size !in order {
        NoRowsNoSum(rows, row.size);
      }
      hide SumOf, Order;
      if row.size !in sums {
        sums := sums[row.size := Sum(0.0, 0.0, 0)];
        order := order + [row.size];
      }
      var s := sums[row.size];
      sums := sums[row.size := Sum(s.alg + row.alg, s.bus + row.bus, s.count + 1)];
    }
  }

  lemma AddOne(rows: seq<Row>, row: Row)
    ensures forall size {:trigger SumOf(rows + [row], size)} ::
      var s := SumOf(rows, size);
      SumOf(rows + [row], size) ==
        if row.size == size then Sum(s.alg + row.alg, s.bus + row.bus, s.count + 1) else s
    ensures Order(rows + [row]) == if row.size in Order(rows) then Order(rows) else Order(rows) + [row.size]
  {
  }

  lemma NoRowsNoSum(rows: seq<Row>, size: int)
    requires size !in Order(rows)
    ensures SumOf(rows, size) == Sum(0.0, 0.0, 0)
  {
    CountsAppearance(rows, size);
    NoCountNoSum(rows, size);
  }

  lemma {:induction false} NoCountNoSum(rows: seq<Row>, size: int)
    requires SumOf(rows, size).count == 0
    ensures SumOf(rows, size) == Sum(0.0, 0.0, 0)
  {
    if rows != [] {
      NoCountNoSum(rows[..|rows| - 1], size);
    }
  }

  // ---- Merging into stored results ----

  function Average(round: real -> real, total: real, n: nat): real
    requires n > 0
  {
    round(total / n as real)
  }

  /** What n stored samples and some more rows add up to. */
  function Total(average: real, n: nat, more: real): real { average * n as real + more }

  /** A stored entry with the new rows of its size. */
  function Updated(round: real -> real, r: Result, s: Sum): Result
    requires s.count > 0
  {
    var n := r.samples + s.count;
    Result(
      r.size, Average(round, Total(r.alg, r.samples, s.alg), n), Average(round, Total(r.bus, r.samples, s.bus), n), n)
  }

  function Fresh(round: real -> real, size: int, s: Sum): Result
    requires s.count > 0
  {
    Result(size, Average(round, s.alg, s.count), Average(round, s.bus, s.count), s.count)
  }

  function ResultSizes(results: seq<Result>): (s: seq<int>)
    ensures |s| == |results| && forall i :: 0 <= i < |results| ==> s[i] == results[i].size
  {
    if results == [] then [] else ResultSizes(results[..|results| - 1]) + [Last(results).size]
  }

  /** No later entry has the same size; the index built by the loop points at these entries. */
  predicate IsLast(results: seq<Result>, i: nat)
    requires i < |results|
  {
    forall j :: i < j < |results| ==> results[j].size != results[i].size
  }

  ghost predicate Counts(order: seq<int>, sums: map<int, Sum>) {
    forall size :: size in order ==> size in sums && sums[size].count > 0
  }

  ghost function Entry(round: real -> real, existing: seq<Result>, i: nat, order: seq<int>, sums: map<int, Sum>): Result
    requires i < |existing| && Counts(order, sums)
  {
    var r := existing[i];
    if r.size in order && IsLast(existing, i) then Updated(round, r, sums[r.size]) else r
  }

  /** The outcome of a merge of the sizes in `order`. */
  ghost predicate MergedFrom(
    round: real -> real, results: seq<Result>, existing: seq<Result>, order: seq<int>, sums: map<int, Sum>)
    requires Counts(order, sums)
  {
    && ResultSizes(results) == AddSizes(ResultSizes(existing), order)
    && |results| >= |existing|
    && (forall i :: 0 <= i < |existing| ==> results[i] == Entry(round, existing, i, order, sums))
    && (forall i :: |existing| <= i < |results| ==>
          results[i].size in order && results[i] == Fresh(round, results[i].size, sums[results[i].size]))
  }

  method IndexBySize(existing: seq<Result>) returns (idx: map<int, nat>)
    ensures forall size :: size in idx <==> size in ResultSizes(existing)
    ensures forall size :: size in idx ==>
      idx[size] < |existing| && existing[idx[size]].size == size && IsLast(existing, idx[size])
  {
    idx := map[];
    for i := 0 to |existing|
      invariant forall size :: size in idx ==>
        && idx[size] < i && existing[idx[size]].size == size
        && forall j :: idx[size] < j < i ==> existing[j].size != size
      invariant forall k :: 0 <= k < i ==> existing[k].size in idx
    {
      idx := idx[existing[i].size := i];
    }
  }

  lemma MergeNothing(round: real -> real, existing: seq<Result>, sums: map<int, Sum>)
    ensures MergedFrom(round, existing, existing, [], sums)
  {
  }

  /** One more size, stored before. */
  lemma MergeOld(
    round: real -> real, results: seq<Result>, existing: seq<Result>, order: seq<int>, sums: map<int, Sum>,
    size: int, at: nat)
    requires Counts(order + [size], sums) && Counts(order, sums) && size !in order
    requires size in sums && sums[size].count > 0
    requires MergedFrom(round, results, existing, order, sums)
    requires at < |existing| && existing[at].size == size && IsLast(existing, at)
    ensures at < |results| && results[at] == existing[at]
    ensures MergedFrom(round, results[at := Updated(round, existing[at], sums[size])], existing, order + [size], sums)
  {
  }

  /** One more size, not stored before. */
  lemma MergeNew(
    round: real -> real, results: seq<Result>, existing: seq<Result>, order: seq<int>, sums: map<int, Sum>, size: int)
    requires Counts(order + [size], sums) && Counts(order, sums) && size !in order
    requires size in sums && sums[size].count > 0
    requires MergedFrom(round, results, existing, order, sums) && size !in ResultSizes(existing)
    ensures MergedFrom(round, results + [Fresh(round, size, sums[size])], existing, order + [size], sums)
  {
  }

  /** mergeAggregate. */
  method MergeAggregate(round: real -> real, existing: seq<Result>, order: seq<int>, sums: map<int, Sum>)
    returns (results: seq<Result>)
    requires Counts(order, sums) && Distinct(order)
    ensures MergedFrom(round, results, existing, order, sums)
  {
    hide Updated, Fresh, MergedFrom, ResultSizes;
    var idx := IndexBySize(existing);
    results := existing;
    MergeNothing(round, existing, sums);
    assert order[..0] == [];
    for k := 0 to |order|
      invariant MergedFrom(round, results, existing, order[..k], sums)
    {
      var size := order[k];
      assert order[..k + 1] == order[..k] + [size];
      if size in idx {
        MergeOld(round, results, existing, order[..k], sums, size, idx[size]);
        results := results[idx[size] := Updated(round, results[idx[size]], sums[size])];
      } else {
        MergeNew(round, results, existing, order[..k], sums, size);
        results := results + [Fresh(round, size, sums[size])];
      }
    }
    assert order[..|order|] == order;
  }

  // ---- One aggregate: every average is rounded once ----

  ghost predicate IsAggregateOf(round: real -> real, results: seq<Result>, rows: seq<Row>) {
    && ResultSizes(results) == Order(rows)
    && forall i :: 0 <= i < |results| ==>
         var s := SumOf(rows, results[i].size);
         s.count > 0 && results[i] == Fresh(round, results[i].size, s)
  }

  /** The rows alone decide the results. */
  lemma AggregateIsUnique(round: real -> real, p: seq<Result>, q: seq<Result>, rows: seq<Row>)
    requires IsAggregateOf(round, p, rows) && IsAggregateOf(round, q, rows)
    ensures p == q
  {
  }

  lemma CountsHold(rows: seq<Row>, order: seq<int>, sums: map<int, Sum>)
    requires order == Order(rows) && sums.Keys == set size | size in order
    requires forall size :: size in sums ==> sums[size] == SumOf(rows, size)
    ensures Counts(order, sums) && Distinct(order)
  {
    forall size | size in order ensures size in sums && sums[size].count > 0 {
      CountsAppearance(rows, size);
    }
    AddSizesMembers([], SizesOf(rows));
  }

  lemma LastIsNew(a: seq<int>)
    requires Distinct(a) && a != []
    ensures Distinct(a[..|a| - 1]) && Last(a) !in a[..|a| - 1]
  {
  }

  lemma {:induction false} AddSizesNothing(a: seq<int>)
    requires Distinct(a)
    ensures AddSizes([], a) == a
  {
    hide Distinct;
    if a != [] {
      LastIsNew(a);
      AddSizesNothing(a[..|a| - 1]);
      assert a == a[..|a| - 1] + [Last(a)];
    }
  }

  method AddPage(agg: Aggregate, page: seq<Row>, ghost done: seq<Row>)
    requires agg.Summarizes(done)
    modifies agg
    ensures agg.Summarizes(done + page)
  {
    hide Aggregate.Summarizes;
    assert done + page[..0] == done;
    for k := 0 to |page|
      invariant agg.Summarizes(done + page[..k])
    {
      agg.Add(page[k], done + page[..k]);
      assert done + page[..k] + [page[k]] == done + page[..k + 1];
    }
    assert page[..|page|] == page;
  }

  method AddPages(agg: Aggregate, pages: seq<seq<Row>>)
    requires agg.Summarizes([])
    modifies agg
    ensures agg.Summarizes(Flatten(pages))
  {
    hide Aggregate.Summarizes;
    for i := 0 to |pages|
      invariant agg.Summarizes(Flatten(pages[..i]))
    {
      AddPage(agg, pages[i], Flatten(pages[..i]));
      FlattenSnoc(pages[..i], pages[i]);
      assert pages[..i + 1] == pages[..i] + [pages[i]];
    }
    assert pages[..|pages|] == pages;
  }

  /** The rows are read page by page, and the results averaged once at the end. */
  method AggregatePages(round: real -> real, pages: seq<seq<Row>>) returns (results: seq<Result>)
    ensures IsAggregateOf(round, results, Flatten(pages))
  {
    var agg := new Aggregate();
    AddPages(agg, pages);
    CountsHold(Flatten(pages), agg.order, agg.sums);
    results := MergeAggregate(round, [], agg.order, agg.sums);
    OneAggregate(round, results, Flatten(pages), agg.order, agg.sums);
  }

  lemma OneAggregate(round: real -> real, results: seq<Result>, rows: seq<Row>, order: seq<int>, sums: map<int, Sum>)
    requires order == Order(rows) && Counts(order, sums) && Distinct(order)
    requires forall size :: size in order ==> size in sums && sums[size] == SumOf(rows, size)
    requires MergedFrom(round, results, [], order, sums)
    ensures IsAggregateOf(round, results, rows)
  {
    hide Fresh, Order, SumOf, AddSizes;
    assert ResultSizes([]) == [];
    AddSizesNothing(order);
  }

  /** Each average is within 0.005 of the exact mean of its rows. */
  lemma AggregateError(round: real -> real, results: seq<Result>, rows: seq<Row>, i: nat)
    requires Rounds(round) && IsAggregateOf(round, results, rows) && i < |results|
    ensures results[i].samples == SumOf(rows, results[i].size).count > 0
    ensures Near(results[i].alg, SumOf(rows, results[i].size).alg, results[i].samples, 1)
    ensures Near(results[i].bus, SumOf(rows, results[i].size).bus, results[i].samples, 1)
  {
  }

  // ---- Running averages: every merge rounds again ----

  /** The stored average is off by at most 0.005 for each of k merges. */
  ghost predicate Near(average: real, total: real, n: nat, k: nat) {
    n > 0 && -0.005 * k as real <= average - total / n as real <= 0.005 * k as real
  }

  function Merges(windows: seq<seq<Row>>, size: int): nat {
    if windows == [] then 0
    else Merges(windows[..|windows| - 1], size) + if size in Order(Last(windows)) then 1 else 0
  }

  lemma DivideError(x: real, y: real, n: real, e: real)
    requires n > 0.0 && -(e * n) <= x - y <= e * n
    ensures -e <= x / n - y / n <= e
  {
  }

  lemma TotalError(avg: real, total: real, n: nat, more: real, m: nat, e: real)
    requires n > 0 && e >= 0.0 && -e <= avg - total / n as real <= e
    ensures -(e * (n + m) as real) <= Total(avg, n, more) - (total + more) <= e * (n + m) as real
  {
  }

  /** One more merge adds at most one rounding to the error. */
  lemma MergeError(round: real -> real, avg: real, total: real, n: nat, more: real, m: nat, k: nat)
    requires Rounds(round) && Near(avg, total, n, k) && m > 0
    ensures Near(Average(round, Total(avg, n, more), n + m), total + more, n + m, k + 1)
  {
    hide Total;
    var e, sum := 0.005 * k as real, Total(avg, n, more);
    TotalError(avg, total, n, more, m, e);
    DivideError(sum, total + more, (n + m) as real, e);
    var x := sum / (n + m) as real;
    assert -0.005 <= round(x) - x <= 0.005;
    assert Average(round, sum, n + m) == round(x);
  }

  /** Results kept by merging the windows one after the other. */
  ghost predicate Tracks(results: seq<Result>, windows: seq<seq<Row>>) {
    var rows := Flatten(windows);
    && ResultSizes(results) == Order(rows)
    && forall i :: 0 <= i < |results| ==> TracksEntry(results[i], rows, windows)
  }

  /** All rows of the size are counted, and both averages are within 0.005 per merge of the size. */
  ghost predicate TracksEntry(r: Result, rows: seq<Row>, windows: seq<seq<Row>>) {
    var s, k := SumOf(rows, r.size), Merges(windows, r.size);
    r.samples == s.count && Near(r.alg, s.alg, s.count, k) && Near(r.bus, s.bus, s.count, k)
  }

  lemma MergesSnoc(windows: seq<seq<Row>>, w: seq<Row>, size: int)
    ensures Merges(windows + [w], size) == Merges(windows, size) + if size in Order(w) then 1 else 0
  {
  }

  /** The bound 0.005 * k holds with k the number of merges altogether. */
  lemma {:induction false} MergesAtMost(windows: seq<seq<Row>>, size: int)
    ensures Merges(windows, size) <= |windows|
  {
    if windows != [] {
      MergesAtMost(windows[..|windows| - 1], size);
    }
  }

  lemma UpdateTracks(round: real -> real, r: Result, windows: seq<seq<Row>>, w: seq<Row>)
    requires Rounds(round) && TracksEntry(r, Flatten(windows), windows)
    ensures SumOf(w, r.size).count > 0 ==>
      TracksEntry(Updated(round, r, SumOf(w, r.size)), Flatten(windows) + w, windows + [w])
    ensures SumOf(w, r.size).count == 0 ==> TracksEntry(r, Flatten(windows) + w, windows + [w])
  {
    hide Near, Average, Total, SumOf, Order, Merges, Rounds, Flatten;
    var s, t, k := SumOf(Flatten(windows), r.size), SumOf(w, r.size), Merges(windows, r.size);
    SumConcat(Flatten(windows), w, r.size);
    MergesSnoc(windows, w, r.size);
    CountsAppearance(w, r.size);
    if t.count > 0 {
      MergeError(round, r.alg, s.alg, r.samples, t.alg, t.count, k);
      MergeError(round, r.bus, s.bus, r.samples, t.bus, t.count, k);
    } else {
      NoCountNoSum(w, r.size);
    }
  }

  lemma FreshTracks(round: real -> real, size: int, windows: seq<seq<Row>>, w: seq<Row>)
    requires Rounds(round) && size !in Order(Flatten(windows)) && SumOf(w, size).count > 0
    ensures TracksEntry(Fresh(round, size, SumOf(w, size)), Flatten(windows) + w, windows + [w])
  {
    SumConcat(Flatten(windows), w, size);
    NoRowsNoSum(Flatten(windows), size);
    MergesSnoc(windows, w, size);
    CountsAppearance(w, size);
    RoundingIsNear(round, SumOf(w, size).alg, SumOf(w, size).count, Merges(windows, size));
    RoundingIsNear(round, SumOf(w, size).bus, SumOf(w, size).count, Merges(windows, size));
  }

  lemma RoundingIsNear(round: real -> real, total: real, n: nat, k: nat)
    requires Rounds(round) && n > 0
    ensures Near(Average(round, total, n), total, n, k + 1)
  {
  }

  lemma OrderConcat(a: seq<Row>, b: seq<Row>)
    ensures AddSizes(Order(a), Order(b)) == Order(a + b)
  {
    SizesConcat(a, b);
    AddSizesConcat([], SizesOf(a), SizesOf(b));
    AddSizesOnce(Order(a), SizesOf(b));
  }

  lemma OrderDistinct(rows: seq<Row>)
    ensures Distinct(Order(rows))
  {
    AddSizesMembers([], SizesOf(rows));
  }

  /** An entry that was stored is the only one of its size; an entry that is added is new. */
  lemma EntriesApart(results: seq<Result>, existing: seq<Result>, order: seq<int>, i: nat)
    requires ResultSizes(results) == AddSizes(ResultSizes(existing), order) && Distinct(ResultSizes(existing))
    requires i < |results|
    ensures i < |existing| ==> IsLast(existing, i) && results[i].size == existing[i].size
    ensures i >= |existing| ==> results[i].size !in ResultSizes(existing)
  {
    AddSizesMembers(ResultSizes(existing), order);
    var sizes, before := ResultSizes(results), ResultSizes(existing);
    assert Distinct(sizes) && before <= sizes;
    hide AddSizes;
    if i < |existing| {
      assert sizes[i] == before[i];
      forall j | i < j < |existing| ensures existing[j].size != existing[i].size {
        assert before[j] != before[i];
      }
    } else {
      forall j | 0 <= j < |existing| ensures before[j] != results[i].size {
        assert sizes[j] == before[j] && sizes[j] != sizes[i];
      }
    }
  }

  lemma EntryTracks(
    round: real -> real, results: seq<Result>, existing: seq<Result>, windows: seq<seq<Row>>,
    w: seq<Row>, sums: map<int, Sum>, i: nat)
    requires Rounds(round) && Tracks(existing, windows) && Counts(Order(w), sums)
    requires forall size :: size in Order(w) ==> sums[size] == SumOf(w, size)
    requires MergedFrom(round, results, existing, Order(w), sums) && i < |results|
    ensures TracksEntry(results[i], Flatten(windows) + w, windows + [w])
  {
    hide Updated, Fresh, SumOf, TracksEntry, AddSizes, IsLast, Order, Rounds, Flatten;
    OrderDistinct(Flatten(windows));
    EntriesApart(results, existing, Order(w), i);
    CountsAppearance(w, results[i].size);
    if i < |existing| {
      UpdateTracks(round, existing[i], windows, w);
    } else {
      FreshTracks(round, results[i].size, windows, w);
    }
  }

  /** A merge of one more window keeps the sizes in order, the counts exact, and the averages near. */
  lemma MergeTracks(
    round: real -> real, results: seq<Result>, existing: seq<Result>, windows: seq<seq<Row>>,
    w: seq<Row>, sums: map<int, Sum>)
    requires Rounds(round) && Tracks(existing, windows) && Counts(Order(w), sums)
    requires forall size :: size in Order(w) ==> sums[size] == SumOf(w, size)
    requires MergedFrom(round, results, existing, Order(w), sums)
    ensures Tracks(results, windows + [w])
  {
    hide Updated, Fresh, SumOf, TracksEntry, AddSizes, Order, Rounds, Entry;
    FlattenSnoc(windows, w);
    OrderConcat(Flatten(windows), w);
    forall i | 0 <= i < |results| ensures TracksEntry(results[i], Flatten(windows) + w, windows + [w]) {
      EntryTracks(round, results, existing, windows, w, sums, i);
    }
  }

  /** mergeBandwidthResults. */
  method MergeWindow(round: real -> real, existing: seq<Result>, rows: seq<Row>, ghost windows: seq<seq<Row>>)
    returns (results: seq<Result>)
    requires Rounds(round) && Tracks(existing, windows)
    ensures Tracks(results, windows + [rows])
  {
    hide Tracks, Counts, MergedFrom, Order, SumOf, Rounds;
    var agg := new Aggregate();
    AddPage(agg, rows, []);
    assert [] + rows == rows;
    CountsHold(rows, agg.order, agg.sums);
    results := MergeAggregate(round, existing, agg.order, agg.sums);
    MergeTracks(round, results, existing, windows, rows, agg.sums);
  }

  /** One window after another. */
  method MergeWindows(round: real -> real, windows: seq<seq<Row>>) returns (results: seq<Result>)
    requires Rounds(round)
    ensures Tracks(results, windows)
  {
    results := [];
    assert Tracks([], []) by { assert SizesOf([]) == []; }
    for i := 0 to |windows|
      invariant Tracks(results, windows[..i])
    {
      hide Tracks, Rounds;
      results := MergeWindow(round, results, windows[i], windows[..i]);
      assert windows[..i + 1] == windows[..i] + [windows[i]];
    }
    assert windows[..|windows|] == windows;
  }
}
