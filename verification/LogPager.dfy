/**
  Reading a finished container's log in full, page by page
  (ReadAll, pkg/podlogs/pager.go; the page of pkg/podlogs/fetcher.go).

  Times are nanoseconds since the zero time and `since` is in whole seconds, 0 for no bound. The
  server returns the lines at or after `since`, in the order of the log, and stops after `limit`
  bytes, in the middle of a line if need be. Nothing says that the log is in time order.
*/
module LogPager {
  import opened Prelude

  const SECOND := 1_000_000_000

  /** `stamped`: the timestamp in front of the text parses. The text excludes the newline. */
  datatype Line = Line(time: nat, stamped: bool, text: string)

  datatype Page = Page(lines: seq<Line>, truncated: bool, partialTail: bool)

  datatype Failure = Fine | LineTooLong | Unreachable

  datatype Status = Done | Unpageable | Failed

  function Second(line: Line): nat { line.time / SECOND }

  function Size(line: Line): nat { |line.text| + 1 }

  function Bytes(lines: seq<Line>): nat {
    if lines == [] then 0 else Size(lines[0]) + Bytes(lines[1..])
  }

  lemma {:induction false} BytesConcat(a: seq<Line>, b: seq<Line>)
    ensures Bytes(a + b) == Bytes(a) + Bytes(b)
  {
    if a == [] {
      assert a + b == b;
    } else {
      assert (a + b)[1..] == a[1..] + b;
      BytesConcat(a[1..], b);
    }
  }

  lemma BytesOne(line: Line)
    ensures Bytes([line]) == Size(line)
  {
    assert [line][1..] == [];
  }

  lemma BytesSplit(log: seq<Line>, from: nat, mid: nat, to: nat)
    requires from <= mid <= to <= |log|
    ensures Bytes(log[from..to]) == Bytes(log[from..mid]) + Bytes(log[mid..to])
  {
    BytesConcat(log[from..mid], log[mid..to]);
    assert log[from..mid] + log[mid..to] == log[from..to];
  }

  // ---- The server ----

  /** The lines at or after `since`; each line is looked at by itself. */
  function Since(log: seq<Line>, since: nat): seq<Line> {
    if log == [] then []
    else Since(log[..|log| - 1], since) + if Last(log).time >= since * SECOND then [Last(log)] else []
  }

  lemma {:induction false} SinceConcat(a: seq<Line>, b: seq<Line>, since: nat)
    ensures Since(a + b, since) == Since(a, since) + Since(b, since)
  {
    if b == [] {
      assert a + b == a;
    } else {
      SinceConcat(a, b[..|b| - 1], since);
      assert (a + b)[..|a + b| - 1] == a + b[..|b| - 1];
    }
  }

  lemma {:induction false} SinceAll(log: seq<Line>, since: nat)
    requires forall i :: 0 <= i < |log| ==> log[i].time >= since * SECOND
    ensures Since(log, since) == log
  {
    if log != [] {
      SinceAll(log[..|log| - 1], since);
      assert log == log[..|log| - 1] + [Last(log)];
    }
  }

  lemma {:induction false} SinceBounds(log: seq<Line>, since: nat)
    ensures forall i :: 0 <= i < |Since(log, since)| ==> Since(log, since)[i].time >= since * SECOND
  {
    if log != [] {
      SinceBounds(log[..|log| - 1], since);
    }
  }

  /** How many whole lines fit into n bytes. */
  function Whole(lines: seq<Line>, n: nat): (c: nat)
    ensures c <= |lines|
  {
    if lines == [] || Size(lines[0]) > n then 0 else 1 + Whole(lines[1..], n - Size(lines[0]))
  }

  lemma {:induction false} WholeFits(lines: seq<Line>, n: nat)
    ensures var c := Whole(lines, n);
      && Bytes(lines[..c]) <= n
      && (c < |lines| ==> Bytes(lines[..c + 1]) > n)
      && (Bytes(lines) <= n ==> c == |lines|)
  {
    var c := Whole(lines, n);
    if lines != [] && Size(lines[0]) <= n {
      WholeFits(lines[1..], n - Size(lines[0]));
      assert lines[..c][1..] == lines[1..][..c - 1];
      if c < |lines| {
        assert lines[..c + 1][1..] == lines[1..][..c];
      }
    } else if lines != [] {
      assert lines[..1][1..] == [];
    }
  }

  /** What one request returns; the limit is checked against the bytes that came. */
  function Fetch(log: seq<Line>, since: nat, limit: nat): Page {
    var tail := Since(log, since);
    var n := Min(Bytes(tail), limit);
    var c := Whole(tail, n);
    WholeFits(tail, n);
    var partial := n >= limit && Bytes(tail[..c]) < n && c < |tail|;
    Page(tail[..c] + if partial then [Cut(tail[c], n - Bytes(tail[..c]))] else [], n >= limit, partial)
  }

  /** The part of a line that was returned. */
  function Cut(line: Line, bytes: nat): Line {
    Line(line.time, false, line.text[..Min(bytes, |line.text|)])
  }

  // ---- The reader ----

  function Times(lines: seq<Line>): (t: seq<nat>)
    ensures |t| == |lines|
  {
    if lines == [] then [] else Times(lines[..|lines| - 1]) + [Last(lines).time]
  }

  lemma {:induction false} TimesConcat(a: seq<Line>, b: seq<Line>)
    ensures Times(a + b) == Times(a) + Times(b)
  {
    if b == [] {
      assert a + b == a;
    } else {
      TimesConcat(a, b[..|b| - 1]);
      assert (a + b)[..|a + b| - 1] == a + b[..|b| - 1];
    }
  }

  /** The times at or after `since`, in order. */
  function Kept(times: seq<nat>, since: nat): seq<nat> {
    if times == [] then []
    else Kept(times[..|times| - 1], since) + if Last(times) >= since * SECOND then [Last(times)] else []
  }

  lemma {:induction false} KeptConcat(a: seq<nat>, b: seq<nat>, since: nat)
    ensures Kept(a + b, since) == Kept(a, since) + Kept(b, since)
  {
    if b == [] {
      assert a + b == a;
    } else {
      KeptConcat(a, b[..|b| - 1], since);
      assert (a + b)[..|a + b| - 1] == a + b[..|b| - 1];
    }
  }

  lemma LaterBound(since: nat, later: nat)
    requires since <= later
    ensures since * SECOND <= later * SECOND
  {
  }

  /** Keeping twice keeps from the later second on. */
  lemma {:induction false} KeptTwice(times: seq<nat>, since: nat, later: nat)
    requires since <= later
    ensures Kept(Kept(times, since), later) == Kept(times, later)
  {
    if times != [] {
      var init := times[..|times| - 1];
      KeptTwice(init, since, later);
      if Last(times) >= since * SECOND {
        KeptConcat(Kept(init, since), [Last(times)], later);
        KeptConcat(init, [Last(times)], later);
        assert times == init + [Last(times)];
      } else {
        LaterBound(since, later);
        assert Kept(init, since) + [] == Kept(init, since) && Kept(init, later) + [] == Kept(init, later);
      }
    }
  }

  /** The lines a page repeats are as many as the times kept for them. */
  lemma {:induction false} SinceKept(log: seq<Line>, since: nat)
    ensures |Since(log, since)| == |Kept(Times(log), since)|
  {
    if log != [] {
      SinceKept(log[..|log| - 1], since);
      assert Times(log)[..|log| - 1] == Times(log[..|log| - 1]);
    }
  }

  method CountAtOrAfter(times: seq<nat>, since: nat) returns (n: nat)
    ensures n == |Kept(times, since)|
  {
    n := 0;
    for i := 0 to |times|
      invariant n == |Kept(times[..i], since)|
    {
      assert times[..i + 1][..i] == times[..i];
      if times[i] >= since * SECOND {
        n := n + 1;
      }
    }
    assert times[..|times|] == times;
  }

  method DropBefore(times: seq<nat>, since: nat) returns (kept: seq<nat>)
    ensures kept == Kept(times, since)
  {
    kept := [];
    for i := 0 to |times|
      invariant kept == Kept(times[..i], since)
    {
      assert times[..i + 1][..i] == times[..i];
      if times[i] >= since * SECOND {
        kept := kept + [times[i]];
      }
    }
    assert times[..|times|] == times;
  }

  ghost predicate AllStamped(lines: seq<Line>) { forall i :: 0 <= i < |lines| ==> lines[i].stamped }

  /** How many of a page's new lines are visited: a truncated page must be able to say where it ends. */
  function Visitable(lines: seq<Line>, truncated: bool): (n: nat)
    ensures n <= |lines| && (n == |lines| <==> !truncated || AllStamped(lines))
  {
    if lines == [] || (truncated && !lines[0].stamped) then 0 else 1 + Visitable(lines[1..], truncated)
  }

  /** The lines of the next page that are left after the partial one and the repeated ones. */
  function NewLines(page: Page, repeated: nat): seq<Line> {
    var n := |page.lines|;
    var whole := if page.partialTail && n > 0 then page.lines[..n - 1] else page.lines;
    whole[Min(repeated, |whole|)..]
  }

  datatype Reader = Reader(since: nat, seen: seq<nat>, visited: seq<Line>)

  const Fresh := Reader(0, [], [])

  datatype Outcome = Advanced | Stalled | Complete | NoTimestamp

  /** The next page begins with the second of the last line visited. */
  function Resume(r: Reader, lines: seq<Line>): Reader
    requires lines != []
  {
    var next, all := Second(Last(lines)), r.seen + Times(lines);
    if next > r.since then Reader(next, Kept(all, next), r.visited + lines)
    else Reader(r.since, all, r.visited + lines)
  }

  function Unread(log: seq<Line>, r: Reader, limit: nat): seq<Line> {
    NewLines(Fetch(log, r.since, limit), if r.since != 0 then |Kept(r.seen, r.since)| else 0)
  }

  function ReadStep(log: seq<Line>, r: Reader, limit: nat): (Reader, Outcome) {
    var truncated, lines := Fetch(log, r.since, limit).truncated, Unread(log, r, limit);
    var n := Visitable(lines, truncated);
    if n < |lines| then (r.(visited := r.visited + lines[..n]), NoTimestamp)
    else if !truncated then (r.(visited := r.visited + lines), Complete)
    else if lines == [] then (r, Stalled)
    else (Resume(r, lines), Advanced)
  }

  function FailureAt(failures: seq<Failure>, i: nat): Failure { if i < |failures| then failures[i] else Fine }

  /** One read, as it stands before a page. */
  datatype Setup = Setup(log: seq<Line>, pageBytes: nat, maxPages: nat, failures: seq<Failure>)

  /** What one iteration does: the read is over, or goes on from here. */
  datatype Turn = Over(visited: seq<Line>, status: Status) | Goes(reader: Reader, limit: nat)

  function TakeTurn(s: Setup, r: Reader, limit: nat, i: nat): Turn {
    match FailureAt(s.failures, i)
    case LineTooLong => Over(r.visited, Unpageable)
    case Unreachable => Over(r.visited, Failed)
    case Fine =>
      var (n, outcome) := ReadStep(s.log, r, limit);
      match outcome
      case Complete => Over(n.visited, Done)
      case NoTimestamp => Over(n.visited, Unpageable)
      case Stalled => if limit >= s.pageBytes * 4 then Over(n.visited, Unpageable) else Goes(n, limit * 2)
      case Advanced => Goes(n, limit)
  }

  function ReadFrom(s: Setup, r: Reader, limit: nat, i: nat): (seq<Line>, Status)
    decreases s.maxPages - i
  {
    if i >= s.maxPages then (r.visited, Unpageable)
    else
      match TakeTurn(s, r, limit, i)
      case Over(visited, status) => (visited, status)
      case Goes(n, next) => ReadFrom(s, n, next, i + 1)
  }

  function Read(s: Setup): (seq<Line>, Status) { ReadFrom(s, Fresh, s.pageBytes, 0) }

  /** A request that fails ends the read with what was visited before it. */
  lemma FailureStops(s: Setup, r: Reader, limit: nat, i: nat)
    requires i < s.maxPages && i < |s.failures| && s.failures[i] != Fine
    ensures ReadFrom(s, r, limit, i) == (r.visited, if s.failures[i] == Unreachable then Failed else Unpageable)
  {
  }

  /** A read that succeeds met no failure. */
  lemma {:induction false} DoneMetNoFailure(s: Setup, r: Reader, limit: nat, i: nat)
    requires ReadFrom(s, r, limit, i).1 == Done
    ensures ReadFrom(s.(failures := []), r, limit, i) == ReadFrom(s, r, limit, i)
    decreases s.maxPages - i
  {
    hide ReadStep;
    assert TakeTurn(s.(failures := []), r, limit, i) == TakeTurn(s, r, limit, i);
    if TakeTurn(s, r, limit, i).Goes? {
      var Goes(n, next) := TakeTurn(s, r, limit, i);
      DoneMetNoFailure(s, n, next, i + 1);
    }
  }

  // ---- The loops compute that ----

  lemma VisitableStops(lines: seq<Line>, truncated: bool, k: nat)
    requires k <= |lines| && (truncated ==> AllStamped(lines[..k]))
    requires k < |lines| ==> truncated && !lines[k].stamped
    ensures Visitable(lines, truncated) == k
  {
    if k > 0 {
      assert lines[1..][..k - 1] == lines[..k][1..];
      assert truncated ==> lines[..k][0].stamped;
      VisitableStops(lines[1..], truncated, k - 1);
    }
  }

  method VisitLines(lines: seq<Line>, truncated: bool, r: Reader)
    returns (visited: seq<Line>, seen: seq<nat>, last: nat, all: bool)
    ensures visited == r.visited + lines[..Visitable(lines, truncated)]
    ensures all <==> Visitable(lines, truncated) == |lines|
    ensures all && truncated ==> seen == r.seen + Times(lines) && (lines != [] ==> last == Last(lines).time)
  {
    visited, seen, last := r.visited, r.seen, 0;
    var k := 0;
    while k < |lines|
      invariant k <= |lines| && visited == r.visited + lines[..k]
      invariant truncated ==> AllStamped(lines[..k]) && seen == r.seen + Times(lines[..k])
      invariant truncated && k > 0 ==> last == lines[k - 1].time
    {
      if lines[k].stamped {
        seen := seen + [lines[k].time];
        last := lines[k].time;
      } else if truncated {
        VisitableStops(lines, truncated, k);
        return visited, seen, last, false;
      }
      visited := visited + [lines[k]];
      assert lines[..k + 1][..k] == lines[..k];
      k := k + 1;
    }
    VisitableStops(lines, truncated, k);
    assert lines[..k] == lines;
    all := true;
  }

  /** One iteration of ReadAll, from the fetched page on. */
  method ReadPage(log: seq<Line>, r: Reader, limit: nat) returns (n: Reader, outcome: Outcome)
    ensures (n, outcome) == ReadStep(log, r, limit)
  {
    hide Fetch, NewLines, Kept, Times, Visitable;
    var page := Fetch(log, r.since, limit);
    var repeated := 0;
    if r.since != 0 {
      repeated := CountAtOrAfter(r.seen, r.since);
    }
    var lines := NewLines(page, repeated);
    var visited, seen, last, all := VisitLines(lines, page.truncated, r);
    assert lines[..|lines|] == lines;
    if !all {
      return r.(visited := visited), NoTimestamp;
    }
    if !page.truncated {
      return r.(visited := visited), Complete;
    }
    if lines == [] {
      return r, Stalled;
    }
    var since, next := r.since, last / SECOND;
    if next > since {
      since := next;
      seen := DropBefore(seen, since);
    }
    return Reader(since, seen, visited), Advanced;
  }

  /** ReadAll, for any log and whatever fails. */
  method ReadAll(log: seq<Line>, pageBytes: nat, maxPages: nat, failures: seq<Failure>)
    returns (visited: seq<Line>, status: Status)
    ensures (visited, status) == Read(Setup(log, pageBytes, maxPages, failures))
  {
    hide ReadStep;
    var r, limit: nat := Fresh, pageBytes;
    ghost var s := Setup(log, pageBytes, maxPages, failures);
    for i := 0 to maxPages
      invariant Read(s) == ReadFrom(s, r, limit, i)
    {
      if FailureAt(failures, i) == LineTooLong {
        return r.visited, Unpageable;
      }
      if FailureAt(failures, i) == Unreachable {
        return r.visited, Failed;
      }
      var outcome: Outcome;
      r, outcome := ReadPage(log, r, limit);
      match outcome {
        case Complete =>
          return r.visited, Done;
        case NoTimestamp =>
          return r.visited, Unpageable;
        case Stalled =>
          if limit >= pageBytes * 4 {
            return r.visited, Unpageable;
          }
          limit := limit * 2;
        case Advanced =>
      }
    }
    return r.visited, Unpageable;
  }

  // ---- What a page brings ----

  /** Every timestamp is past the first second of the zero time. */
  ghost predicate Dated(log: seq<Line>) { forall i :: 0 <= i < |log| ==> log[i].time >= SECOND }

  /** A line not visited yet lies before the second the next page starts from. */
  ghost predicate Withdrawn(log: seq<Line>, r: Reader) {
    exists p :: |r.visited| <= p < |log| && log[p].time < r.since * SECOND
  }

  /** The reader has visited the first v lines and has all others before it. */
  ghost predicate Abreast(log: seq<Line>, r: Reader, v: nat) {
    && v <= |log| && r.visited == log[..v]
    && r.seen == Kept(Times(log[..v]), r.since)
    && (v > 0 <==> r.since > 0)
    && !Withdrawn(log, r)
  }

  /** The bytes a page repeats, and the new ones up to `end`, with the line after them, fill the page. */
  ghost predicate Fills(log: seq<Line>, since: nat, v: nat, end: nat, bytes: nat)
    requires v <= end <= |log|
  {
    Bytes(Since(log[..v], since)) + Bytes(log[v..Min(end + 1, |log|)]) >= bytes
  }

  /** The server's lines are the repeated ones and then the lines not visited yet. */
  lemma TailSplits(log: seq<Line>, r: Reader, v: nat)
    requires Abreast(log, r, v)
    ensures Since(log, r.since) == Since(log[..v], r.since) + log[v..]
    ensures (if r.since != 0 then |Kept(r.seen, r.since)| else 0) == |Since(log[..v], r.since)|
  {
    assert log == log[..v] + log[v..];
    SinceConcat(log[..v], log[v..], r.since);
    SinceAll(log[v..], r.since);
    SinceKept(log[..v], r.since);
    KeptTwice(Times(log[..v]), r.since, r.since);
  }

  lemma WholeLines(whole: seq<Line>, cut: seq<Line>, truncated: bool, repeated: nat)
    requires |cut| <= 1
    ensures NewLines(Page(whole + cut, truncated, cut != []), repeated) == whole[Min(repeated, |whole|)..]
  {
    if cut != [] {
      assert (whole + cut)[..|whole|] == whole;
    } else {
      assert whole + cut == whole;
    }
  }

  /** The new lines of a page are whole lines of the server's, after the repeated ones. */
  lemma FetchedLines(log: seq<Line>, since: nat, limit: nat, repeated: nat) returns (c: nat)
    ensures var tail, page := Since(log, since), Fetch(log, since, limit);
      && c <= |tail| && NewLines(page, repeated) == tail[..c][Min(repeated, c)..]
      && (page.truncated <==> Bytes(tail) >= limit)
      && (!page.truncated ==> c == |tail|)
      && (page.truncated ==> Bytes(tail[..c]) <= limit <= Bytes(tail[..Min(c + 1, |tail|)]))
      && (page.truncated && c < |tail| ==> limit < Bytes(tail[..c + 1]))
  {
    var tail := Since(log, since);
    hide Since;
    var n := Min(Bytes(tail), limit);
    c := Whole(tail, n);
    WholeFits(tail, n);
    assert tail[..|tail|] == tail;
    var partial := n >= limit && Bytes(tail[..c]) < n && c < |tail|;
    var cut := if partial then [Cut(tail[c], n - Bytes(tail[..c]))] else [];
    WholeLines(tail[..c], cut, n >= limit, repeated);
    assert Fetch(log, since, limit) == Page(tail[..c] + cut, n >= limit, partial);
    hide Bytes, Whole, Cut, Fetch, NewLines;
  }

  lemma SliceOfTail(head: seq<Line>, rest: seq<Line>, c: nat)
    requires c <= |head + rest|
    ensures (head + rest)[..c][Min(|head|, c)..] == rest[..Max(0, c - |head|)]
  {
  }

  lemma SliceOfRest(log: seq<Line>, v: nat, n: nat)
    requires v + n <= |log|
    ensures log[v..][..n] == log[v..v + n]
  {
  }

  lemma {:induction false} BytesGrow(lines: seq<Line>, i: nat, j: nat)
    requires i <= j <= |lines|
    ensures Bytes(lines[..i]) <= Bytes(lines[..j])
  {
    BytesSplit(lines, 0, i, j);
    assert lines[0..i] == lines[..i] && lines[0..j] == lines[..j];
  }

  lemma Filled(head: seq<Line>, log: seq<Line>, v: nat, c: nat, end: nat)
    requires c <= |head| + |log| - v && v <= |log| && end == v + Max(0, c - |head|)
    ensures Bytes((head + log[v..])[..c]) <= Bytes(head) + Bytes(log[v..end])
  {
    var tail, m := head + log[v..], |head| + (end - v);
    BytesGrow(tail, c, m);
    assert tail[..m] == head + log[v..end];
    BytesConcat(head, log[v..end]);
  }

  /** The lines of the next page that were not visited are the next lines of the log. */
  lemma NextLines(log: seq<Line>, r: Reader, v: nat, limit: nat) returns (end: nat)
    requires Abreast(log, r, v)
    ensures v <= end <= |log| && Unread(log, r, limit) == log[v..end]
    ensures !Fetch(log, r.since, limit).truncated ==> end == |log|
    ensures Fetch(log, r.since, limit).truncated ==> Fills(log, r.since, v, end, limit)
  {
    hide Since, Kept, Abreast, Times, Fetch, NewLines, Bytes;
    AbreastVisited(log, r, v);
    var head := Since(log[..v], r.since);
    TailSplits(log, r, v);
    var c := FetchedLines(log, r.since, limit, |head|);
    end := v + Max(0, c - |head|);
    SliceOfTail(head, log[v..], c);
    SliceOfRest(log, v, end - v);
    if Fetch(log, r.since, limit).truncated {
      var c1 := Min(c + 1, |head| + |log| - v);
      Filled(head, log, v, c1, v + Max(0, c1 - |head|));
      var to := v + Max(0, c1 - |head|);
      BytesGrowFrom(log, v, to, Min(end + 1, |log|));
    }
  }

  lemma BytesGrowFrom(log: seq<Line>, v: nat, a: nat, b: nat)
    requires v <= a <= b <= |log|
    ensures Bytes(log[v..a]) <= Bytes(log[v..b])
  {
    BytesSplit(log, v, a, b);
  }

  /** A page that is cut off leaves the reader where its last whole line ends. */
  lemma ResumeKeepsSeen(log: seq<Line>, r: Reader, v: nat, end: nat)
    requires Dated(log) && Abreast(log, r, v) && v < end <= |log|
    ensures var n := Resume(r, log[v..end]);
      && n.visited == log[..end] && n.seen == Kept(Times(log[..end]), n.since)
      && n.since == Max(r.since, Second(log[end - 1])) && n.since > 0
  {
    var next := Second(log[end - 1]);
    assert next >= 1;
    assert log[..end] == log[..v] + log[v..end] && Last(log[v..end]) == log[end - 1];
    TimesConcat(log[..v], log[v..end]);
    var old', new' := Times(log[..v]), Times(log[v..end]);
    var later := Max(r.since, next);
    KeptConcat(old', new', later);
    KeptConcat(r.seen, new', later);
    KeptTwice(old', r.since, later);
    if next <= r.since {
      NewAreKept(log, r, v, end);
    }
    hide Kept, Times;
  }

  lemma NewAreKept(log: seq<Line>, r: Reader, v: nat, end: nat)
    requires Abreast(log, r, v) && v <= end <= |log|
    ensures Kept(Times(log[v..end]), r.since) == Times(log[v..end])
  {
    forall i | 0 <= i < end - v ensures log[v..end][i].time >= r.since * SECOND {
      assert log[v..end][i] == log[v + i];
    }
    AllKept(log[v..end], r.since);
  }

  lemma {:induction false} AllKept(lines: seq<Line>, since: nat)
    requires forall i :: 0 <= i < |lines| ==> lines[i].time >= since * SECOND
    ensures Kept(Times(lines), since) == Times(lines)
  {
    if lines != [] {
      AllKept(lines[..|lines| - 1], since);
      assert Times(lines)[..|lines| - 1] == Times(lines[..|lines| - 1]);
    }
  }

  lemma StepShape(log: seq<Line>, r: Reader, v: nat, limit: nat, end: nat)
    requires v <= end <= |log| && r.visited == log[..v] && Unread(log, r, limit) == log[v..end]
    ensures var (n, outcome) := ReadStep(log, r, limit);
      var truncated := Fetch(log, r.since, limit).truncated;
      && n.visited <= log
      && (outcome == Complete ==> !truncated && n.visited == log[..end])
      && (outcome == NoTimestamp ==> !AllStamped(log))
      && (outcome == Stalled ==> truncated && n == r && v == end)
      && (outcome == Advanced ==>
            truncated && v < end && AllStamped(log[v..end]) && n == Resume(r, log[v..end]) && n.visited == log[..end])
  {
    hide Fetch, Unread, Kept, Times;
    var lines := log[v..end];
    var k := Visitable(lines, Fetch(log, r.since, limit).truncated);
    assert log[..v] + lines == log[..end];
    assert log[..v] + lines[..k] == log[..v + k];
    assert AllStamped(log) ==> AllStamped(lines);
    hide Visitable;
  }

  /** One iteration for a reader that is abreast of the log. */
  lemma TurnAbreast(s: Setup, r: Reader, v: nat, limit: nat, i: nat) returns (end: nat)
    requires Dated(s.log) && Abreast(s.log, r, v)
    ensures var turn := TakeTurn(s, r, limit, i);
      && v <= end <= |s.log|
      && (turn.Over? ==> turn.visited <= s.log && (turn.status == Done ==> turn.visited == s.log))
      && (turn.Goes? ==>
            && turn.reader.visited == s.log[..end]
            && (!Withdrawn(s.log, turn.reader) ==> Abreast(s.log, turn.reader, end)))
      && (turn.Goes? && v < end ==>
            && turn.limit == limit && AllStamped(s.log[v..end]) && Fills(s.log, r.since, v, end, limit)
            && turn.reader.since == Max(r.since, Second(s.log[end - 1])))
      && (turn.Goes? && v == end ==> limit < 4 * s.pageBytes && turn.limit == 2 * limit && turn.reader == r)
      && (turn.Over? && turn.status == Unpageable ==>
            || FailureAt(s.failures, i) == LineTooLong || !AllStamped(s.log)
            || (limit >= 4 * s.pageBytes && Fills(s.log, r.since, v, v, limit)))
      && (turn.Over? && turn.status == Failed ==> FailureAt(s.failures, i) == Unreachable)
  {
    hide Fetch, Unread, Fills, Kept, Times, Resume, Dated, ReadStep, AllStamped, Withdrawn;
    end := NextLines(s.log, r, v, limit);
    StepShape(s.log, r, v, limit, end);
    if v < end {
      ResumeKeepsSeen(s.log, r, v, end);
    }
    var (n, outcome) := ReadStep(s.log, r, limit);
    assert outcome == Stalled ==> n == r && v == end;
    assert s.log[..|s.log|] == s.log;
  }

  // ---- A read is whole if and only if no line is withdrawn on the way ----

  /** Some page of the read left a line behind. */
  ghost predicate WithdrawsFrom(s: Setup, r: Reader, limit: nat, i: nat)
    decreases s.maxPages - i
  {
    || Withdrawn(s.log, r)
    || (i < s.maxPages &&
        match TakeTurn(s, r, limit, i)
        case Over(_, _) => false
        case Goes(n, next) => WithdrawsFrom(s, n, next, i + 1))
  }

  ghost predicate Withdraws(s: Setup) { WithdrawsFrom(s, Fresh, s.pageBytes, 0) }

  function Count(lines: seq<Line>, line: Line): nat { multiset(lines)[line] }

  /** This line of the log will not be visited any more as often as it occurs. */
  ghost predicate Lost(log: seq<Line>, r: Reader, p: nat) {
    p < |log| && log[p].time < r.since * SECOND && Count(r.visited, log[p]) < Count(log, log[p])
  }

  lemma WithdrawnIsLost(log: seq<Line>, r: Reader, v: nat, p: nat)
    requires v <= p < |log| && r.visited == log[..v] && log[p].time < r.since * SECOND
    ensures Lost(log, r, p)
  {
    assert log == log[..v] + log[v..] && log[v..][p - v] == log[p];
  }

  lemma CountConcat(a: seq<Line>, b: seq<Line>, line: Line)
    requires forall i :: 0 <= i < |b| ==> b[i] != line
    ensures Count(a + b, line) == Count(a, line)
  {
    assert multiset(a + b) == multiset(a) + multiset(b);
    assert line !in multiset(b);
  }

  /** Pages bring lines from `since` on, and `since` never falls. */
  lemma StepKeepsLost(log: seq<Line>, r: Reader, p: nat, limit: nat)
    requires Lost(log, r, p)
    ensures var n := ReadStep(log, r, limit).0; Lost(log, n, p)
  {
    hide Since, Fetch, NewLines, Kept, Times, Bytes, Count, Visitable;
    var lines := Unread(log, r, limit);
    var c := FetchedLines(log, r.since, limit, if r.since != 0 then |Kept(r.seen, r.since)| else 0);
    SinceBounds(log, r.since);
    forall i | 0 <= i < |lines| ensures lines[i] != log[p] {
      var skip := Min(if r.since != 0 then |Kept(r.seen, r.since)| else 0, c);
      assert lines[i] == Since(log, r.since)[..c][skip..][i] == Since(log, r.since)[skip + i];
    }
    hide Unread;
    var k := Visitable(lines, Fetch(log, r.since, limit).truncated);
    CountConcat(r.visited, lines[..k], log[p]);
    assert lines[..|lines|] == lines;
  }

  lemma TurnKeepsLost(s: Setup, r: Reader, p: nat, limit: nat, i: nat)
    requires Lost(s.log, r, p)
    ensures Count(r.visited, s.log[p]) < Count(s.log, s.log[p])
    ensures match TakeTurn(s, r, limit, i)
      case Over(visited, _) => Count(visited, s.log[p]) < Count(s.log, s.log[p])
      case Goes(n, _) => Lost(s.log, n, p)
  {
    hide ReadStep, Count, Fetch, Unread, Visitable;
    StepKeepsLost(s.log, r, p, limit);
    if FailureAt(s.failures, i) == Fine {
      var (n, outcome) := ReadStep(s.log, r, limit);
      assert Lost(s.log, n, p);
    }
  }

  lemma {:induction false} LostForGood(s: Setup, r: Reader, p: nat, limit: nat, i: nat)
    requires Lost(s.log, r, p)
    ensures Count(ReadFrom(s, r, limit, i).0, s.log[p]) < Count(s.log, s.log[p])
    decreases s.maxPages - i
  {
    hide TakeTurn, Count;
    TurnKeepsLost(s, r, p, limit, i);
    if i < s.maxPages && TakeTurn(s, r, limit, i).Goes? {
      var Goes(n, next) := TakeTurn(s, r, limit, i);
      LostForGood(s, n, p, next, i + 1);
    }
  }

  /** What a read that ends with these lines has left out. */
  ghost predicate Misses(log: seq<Line>, visited: seq<Line>) {
    exists p :: 0 <= p < |log| && Count(visited, log[p]) < Count(log, log[p])
  }

  lemma WithdrawnMisses(s: Setup, r: Reader, v: nat, limit: nat, i: nat)
    requires v <= |s.log| && r.visited == s.log[..v] && Withdrawn(s.log, r)
    ensures Misses(s.log, ReadFrom(s, r, limit, i).0)
  {
    var p: nat :| |r.visited| <= p < |s.log| && s.log[p].time < r.since * SECOND;
    WithdrawnIsLost(s.log, r, v, p);
    LostForGood(s, r, p, limit, i);
  }

  ghost predicate Faithful(s: Setup, result: (seq<Line>, Status)) {
    result.0 <= s.log && (result.1 == Done ==> result.0 == s.log)
  }

  lemma {:induction false} ReadFromIff(s: Setup, r: Reader, v: nat, limit: nat, i: nat)
    requires Dated(s.log) && Abreast(s.log, r, v)
    ensures WithdrawsFrom(s, r, limit, i) ==> Misses(s.log, ReadFrom(s, r, limit, i).0)
    ensures !WithdrawsFrom(s, r, limit, i) ==> Faithful(s, ReadFrom(s, r, limit, i))
    decreases s.maxPages - i
  {
    hide TakeTurn, Misses, Dated, Fills, Abreast, Withdrawn, AllStamped;
    var end := TurnAbreast(s, r, v, limit, i);
    AbreastVisited(s.log, r, v);
    if i < s.maxPages && TakeTurn(s, r, limit, i).Goes? {
      var Goes(n, next) := TakeTurn(s, r, limit, i);
      if Withdrawn(s.log, n) {
        WithdrawnMisses(s, n, end, next, i + 1);
        assert WithdrawsFrom(s, n, next, i + 1);
      } else {
        ReadFromIff(s, n, end, next, i + 1);
      }
    }
  }

  lemma AbreastVisited(log: seq<Line>, r: Reader, v: nat)
    requires Abreast(log, r, v)
    ensures v <= |log| && r.visited == log[..v] && !Withdrawn(log, r)
  {
  }

  lemma FreshIsAbreast(log: seq<Line>)
    ensures Abreast(log, Fresh, 0)
  {
  }

  /**
    Every read of every log: as long as no page leaves a line behind, the visited lines are the
    beginning of the log, each line once and in order, and a read that succeeds has visited the whole
    log. A line that is left behind is missing for good, also from a read that succeeds.
  */
  lemma ReadIsWholeIff(s: Setup)
    requires Dated(s.log)
    ensures var (visited, status) := Read(s);
      && (!Withdraws(s) ==> visited <= s.log)
      && (Withdraws(s) ==> Misses(s.log, visited))
      && (status == Done ==> (visited == s.log <==> !Withdraws(s)))
  {
    FreshIsAbreast(s.log);
    ReadFromIff(s, Fresh, 0, s.pageBytes, 0);
  }

  // ---- No page size withdraws a line if and only if the log is ordered by second ----

  /**
    No line lies in an earlier second than a line before it. (Where a line carries no timestamp no
    page can end, so order is asked only after lines that do.)
  */
  ghost predicate Ordered(log: seq<Line>) {
    && Dated(log)
    && forall i, j :: 0 <= i < j < |log| && AllStamped(log[..i + 1]) ==> Second(log[i]) <= Second(log[j])
  }

  /** Where the page after v visited lines begins. */
  function Resumes(log: seq<Line>, v: nat): nat
    requires v <= |log|
  {
    if v == 0 then 0 else Second(log[v - 1])
  }

  ghost predicate Caught(log: seq<Line>, r: Reader, v: nat) {
    Abreast(log, r, v) && AllStamped(log[..v]) && r.since == Resumes(log, v)
  }

  lemma StampedPrefix(log: seq<Line>, v: nat, end: nat, i: nat)
    requires v <= end <= |log| && i <= end && AllStamped(log[..v]) && AllStamped(log[v..end])
    ensures AllStamped(log[..i])
  {
    forall k | 0 <= k < i ensures log[..i][k].stamped {
      assert k < v ==> log[..v][k] == log[k];
      assert k >= v ==> log[v..end][k - v] == log[k];
    }
  }

  lemma SecondOf(line: Line)
    ensures Second(line) * SECOND <= line.time
  {
  }

  /** Order by second: the page after the lines up to `end` leaves nothing behind. */
  lemma OrderedCatchesUp(log: seq<Line>, r: Reader, n: Reader, v: nat, end: nat)
    requires Ordered(log) && Caught(log, r, v) && v < end <= |log|
    requires AllStamped(log[v..end]) && |n.visited| == end && n.since == Max(r.since, Second(log[end - 1]))
    ensures !Withdrawn(log, n) && AllStamped(log[..end]) && n.since == Resumes(log, end)
  {
    StampedPrefix(log, v, end, end);
    if v > 0 {
      StampedPrefix(log, v, end, v);
      assert AllStamped(log[..v - 1 + 1]);
      assert v - 1 < end - 1 ==> Second(log[v - 1]) <= Second(log[end - 1]);
    }
    assert AllStamped(log[..end - 1 + 1]);
    forall p | end <= p < |log| ensures log[p].time >= n.since * SECOND {
      assert Second(log[end - 1]) <= Second(log[p]);
      SecondOf(log[p]);
    }
  }

  /** A page that ends with line i puts every later line of an earlier second out of reach. */
  lemma FirstPageResumes(log: seq<Line>, i: nat)
    requires Dated(log) && i < |log| && AllStamped(log[..i + 1])
    ensures ReadStep(log, Fresh, Bytes(log[..i + 1])) == (Resume(Fresh, log[..i + 1]), Advanced)
  {
    hide Since, Fetch, NewLines, Bytes, Resume;
    var limit := Bytes(log[..i + 1]);
    SinceAll(log, 0);
    var c := FetchedLines(log, 0, limit, 0);
    BytesGrow(log, i + 1, |log|);
    assert log[..|log|] == log;
    BytesGrow(log, Min(c + 1, i + 1), i + 1);
    if c > i + 1 {
      BytesStrict(log, i + 1, c);
      assert false;
    }
    assert c == i + 1;
    assert Unread(log, Fresh, limit) == log[..i + 1];
    hide Unread;
  }

  lemma FirstPageWithdraws(log: seq<Line>, i: nat, j: nat)
    requires Dated(log) && i < j < |log| && AllStamped(log[..i + 1]) && Second(log[j]) < Second(log[i])
    ensures var (n, outcome) := ReadStep(log, Fresh, Bytes(log[..i + 1]));
      && outcome == Advanced && n.visited == log[..i + 1]
      && log[j].time < n.since * SECOND
  {
    hide ReadStep, Bytes, Kept, Times;
    FirstPageResumes(log, i);
    assert Last(log[..i + 1]) == log[i];
  }

  lemma BytesStrict(log: seq<Line>, a: nat, b: nat)
    requires a < b <= |log|
    ensures Bytes(log[..a]) < Bytes(log[..b])
  {
    BytesSplit(log, 0, a, b);
    assert log[0..a] == log[..a] && log[0..b] == log[..b] && log[a..b] != [];
  }

  /** A clock that steps back loses the line, whatever the number of pages, for one page size at least. */
  lemma StepBackLosesLine(log: seq<Line>, i: nat, j: nat, maxPages: nat, failures: seq<Failure>)
    requires Dated(log) && i < j < |log| && AllStamped(log[..i + 1]) && Second(log[j]) < Second(log[i])
    ensures var visited := Read(Setup(log, Bytes(log[..i + 1]), maxPages, failures)).0;
      Count(visited, log[j]) < Count(log, log[j])
    ensures maxPages > 0 && failures == [] ==> Withdraws(Setup(log, Bytes(log[..i + 1]), maxPages, failures))
  {
    var limit := Bytes(log[..i + 1]);
    var s := Setup(log, limit, maxPages, failures);
    FirstPageWithdraws(log, i, j);
    hide ReadStep, Bytes;
    var (n, outcome) := ReadStep(log, Fresh, limit);
    assert log[j] in multiset(log);
    if maxPages > 0 && FailureAt(failures, 0) == Fine {
      assert TakeTurn(s, Fresh, limit, 0) == Goes(n, limit);
      WithdrawnIsLost(log, n, i + 1, j);
      LostForGood(s, n, j, limit, 1);
      assert Withdrawn(log, n);
      hide Withdrawn, TakeTurn, Count;
      assert WithdrawsFrom(s, n, limit, 1);
      assert WithdrawsFrom(s, Fresh, limit, 0);
    }
  }

  lemma {:induction false} OrderedNeverWithdraws(s: Setup, r: Reader, v: nat, limit: nat, i: nat)
    requires Ordered(s.log) && Caught(s.log, r, v)
    ensures !WithdrawsFrom(s, r, limit, i)
    decreases s.maxPages - i
  {
    hide TakeTurn, Fills;
    var end := TurnAbreast(s, r, v, limit, i);
    if i < s.maxPages && TakeTurn(s, r, limit, i).Goes? {
      var Goes(n, next) := TakeTurn(s, r, limit, i);
      if v < end {
        OrderedCatchesUp(s.log, r, n, v, end);
      }
      hide Abreast, Ordered;
      OrderedNeverWithdraws(s, n, end, next, i + 1);
    }
  }

  /** Order within a second does not matter; order between seconds is all it takes, and it takes that. */
  lemma WithdrawsIff(log: seq<Line>)
    requires Dated(log)
    ensures (exists s: Setup :: s.log == log && Withdraws(s)) <==> !Ordered(log)
  {
    if Ordered(log) {
      forall s: Setup | s.log == log ensures !Withdraws(s) {
        FreshIsAbreast(log);
        OrderedNeverWithdraws(s, Fresh, 0, s.pageBytes, 0);
      }
    } else {
      var i: nat, j: nat :| i < j < |log| && AllStamped(log[..i + 1]) && Second(log[i]) > Second(log[j]);
      StepBackLosesLine(log, i, j, 1, []);
      assert Withdraws(Setup(log, Bytes(log[..i + 1]), 1, []));
    }
  }

  // ---- Why a log may not be readable ----

  /** The bytes a page repeats. */
  function Repeats(log: seq<Line>, v: nat): nat
    requires v <= |log|
  {
    Bytes(Since(log[..v], Resumes(log, v)))
  }

  ghost predicate FillsPage(log: seq<Line>, v: nat, end: nat, bytes: nat)
    requires v <= end <= |log|
  {
    Repeats(log, v) + Bytes(log[v..Min(end + 1, |log|)]) >= bytes
  }

  /** Next to what it repeats and the one line it cuts short, a page has room for g more bytes. */
  ghost predicate Gains(log: seq<Line>, pageBytes: nat, g: nat) {
    forall v, e :: 0 <= v <= e < |log| ==> Repeats(log, v) + Size(log[e]) + g <= pageBytes
  }

  /**
    There are fewer pages than lines, and the log is longer than the pages can hold: whatever each
    page is sure to gain, all of them gain no more than the log.
  */
  ghost predicate TooManyPages(log: seq<Line>, pageBytes: nat, maxPages: nat) {
    && maxPages <= |log| + 2
    && forall g: nat :: Gains(log, pageBytes, g) ==> (maxPages - 2) * g <= Bytes(log)
  }

  ghost predicate CannotPage(s: Setup) {
    || !AllStamped(s.log)
    || (exists i :: 0 <= i < |s.failures| && s.failures[i] == LineTooLong)
    || (exists v :: 0 <= v <= |s.log| && FillsPage(s.log, v, v, 4 * s.pageBytes))
    || TooManyPages(s.log, s.pageBytes, s.maxPages)
  }

  /** A truncated page that brings anything new brings at least the gain. */
  lemma PageGains(log: seq<Line>, pageBytes: nat, limit: nat, v: nat, end: nat, g: nat)
    requires v < end <= |log| && FillsPage(log, v, end, limit) && limit >= pageBytes && Gains(log, pageBytes, g)
    ensures Bytes(log[v..end]) >= g
  {
    var m := Min(end + 1, |log|);
    BytesSplit(log, v, end, m);
    if end < |log| {
      assert log[end..m] == [log[end]];
      BytesOne(log[end]);
    } else {
      assert log[end..m] == [];
      assert Repeats(log, v) + Size(log[end - 1]) + g <= pageBytes;
    }
  }

  /** What the pages that advanced have gained together. */
  ghost predicate Paid(log: seq<Line>, pageBytes: nat, v: nat, advances: nat) {
    && advances <= v <= |log|
    && forall g: nat :: Gains(log, pageBytes, g) ==> advances * g <= Bytes(log[..v])
  }

  lemma AdvancePays(log: seq<Line>, pageBytes: nat, limit: nat, v: nat, end: nat, advances: nat)
    requires v < end <= |log| && FillsPage(log, v, end, limit) && limit >= pageBytes
    requires Paid(log, pageBytes, v, advances)
    ensures Paid(log, pageBytes, end, advances + 1)
  {
    hide FillsPage, Gains, Bytes;
    BytesSplit(log, 0, v, end);
    assert log[0..v] == log[..v] && log[0..end] == log[..end];
    forall g: nat | Gains(log, pageBytes, g)
      ensures (advances + 1) * g <= Bytes(log[..end])
    {
      PageGains(log, pageBytes, limit, v, end, g);
      assert advances * g <= Bytes(log[..v]);
      assert (advances + 1) * g == advances * g + g;
    }
  }

  lemma Scaled(a: int, b: int, g: nat)
    requires a <= b
    ensures a * g <= b * g
  {
    assert (b - a) * g >= 0;
  }

  lemma PagesUsedUp(log: seq<Line>, pageBytes: nat, maxPages: nat, v: nat, advances: nat)
    requires Paid(log, pageBytes, v, advances) && maxPages <= advances + 2
    ensures TooManyPages(log, pageBytes, maxPages)
  {
    hide Gains;
    BytesGrow(log, v, |log|);
    assert log[..|log|] == log;
    hide Bytes;
    forall g: nat | Gains(log, pageBytes, g)
      ensures (maxPages - 2) * g <= Bytes(log)
    {
      assert advances * g <= Bytes(log[..v]);
      Scaled(maxPages - 2, advances, g);
    }
  }

  /** How often the limit has been doubled. */
  ghost predicate Grown(pageBytes: nat, limit: nat, growth: nat) {
    growth <= 2 && limit == (if growth == 0 then 1 else if growth == 1 then 2 else 4) * pageBytes
  }

  ghost predicate HasReason(s: Setup, status: Status) {
    && (status == Unpageable ==> CannotPage(s))
    && (status == Failed ==> exists k :: 0 <= k < |s.failures| && s.failures[k] == Unreachable)
  }

  /** The account of a read: pages are spent on advances and on growth. */
  ghost predicate Accounted(s: Setup, v: nat, limit: nat, i: nat, growth: nat) {
    Grown(s.pageBytes, limit, growth) && growth <= i && Paid(s.log, s.pageBytes, v, i - growth)
  }

  lemma OrderedIsDated(log: seq<Line>)
    requires Ordered(log)
    ensures Dated(log)
  {
  }

  lemma FillsIsFillsPage(log: seq<Line>, since: nat, v: nat, end: nat, bytes: nat)
    requires v <= end <= |log| && since == Resumes(log, v)
    ensures Fills(log, since, v, end, bytes) <==> FillsPage(log, v, end, bytes)
  {
  }

  lemma TurnReasons(s: Setup, r: Reader, v: nat, limit: nat, i: nat, growth: nat) returns (end: nat, growth': nat)
    requires Ordered(s.log) && Caught(s.log, r, v) && Accounted(s, v, limit, i, growth)
    ensures match TakeTurn(s, r, limit, i)
      case Over(_, status) => HasReason(s, status)
      case Goes(n, next) => Caught(s.log, n, end) && Accounted(s, end, next, i + 1, growth')
  {
    hide TakeTurn, Paid, Fills, FillsPage, AllStamped, TooManyPages, Abreast, Withdrawn, Second;
    OrderedIsDated(s.log);
    hide Ordered;
    end := TurnAbreast(s, r, v, limit, i);
    growth' := if v == end then growth + 1 else growth;
    FillsIsFillsPage(s.log, r.since, v, end, limit);
    FillsIsFillsPage(s.log, r.since, v, v, limit);
    if TakeTurn(s, r, limit, i).Goes? && v < end {
      OrderedCatchesUp(s.log, r, TakeTurn(s, r, limit, i).reader, v, end);
      AdvancePays(s.log, s.pageBytes, limit, v, end, i - growth);
    }
  }

  lemma {:induction false} ReadReasons(s: Setup, r: Reader, v: nat, limit: nat, i: nat, growth: nat)
    requires Ordered(s.log) && Caught(s.log, r, v) && Accounted(s, v, limit, i, growth)
    ensures HasReason(s, ReadFrom(s, r, limit, i).1)
    decreases s.maxPages - i
  {
    if i >= s.maxPages {
      PagesUsedUp(s.log, s.pageBytes, s.maxPages, v, i - growth);
    } else {
      hide Ordered, Caught, Accounted, HasReason, TakeTurn;
      var end, growth' := TurnReasons(s, r, v, limit, i, growth);
      if TakeTurn(s, r, limit, i).Goes? {
        var Goes(n, next) := TakeTurn(s, r, limit, i);
        ReadReasons(s, n, end, next, i + 1, growth');
      }
    }
  }

  /**
    A log that is ordered by second, at every page size: the visited lines are the beginning of the
    log, the whole log if the read succeeds, and it gives up for good only for a stated reason.
  */
  lemma OrderedReadsInFull(s: Setup)
    requires Ordered(s.log)
    ensures var (visited, status) := Read(s);
      && visited <= s.log
      && (status == Done ==> visited == s.log)
      && (status == Unpageable ==> CannotPage(s))
      && (status == Failed ==> exists i :: 0 <= i < |s.failures| && s.failures[i] == Unreachable)
  {
    FreshIsAbreast(s.log);
    ReadFromIff(s, Fresh, 0, s.pageBytes, 0);
    OrderedNeverWithdraws(s, Fresh, 0, s.pageBytes, 0);
    ReadReasons(s, Fresh, 0, s.pageBytes, 0, 0);
  }

  /** With as many pages as lines, only a second or a line that fills the largest page is in the way. */
  lemma EveryLineWithinReach(log: seq<Line>, pageBytes: nat)
    requires Ordered(log) && AllStamped(log)
    requires forall v :: 0 <= v <= |log| ==> !FillsPage(log, v, v, 4 * pageBytes)
    ensures Read(Setup(log, pageBytes, |log| + 3, [])) == (log, Done)
  {
    OrderedReadsInFull(Setup(log, pageBytes, |log| + 3, []));
  }

  lemma LongLineStalls(log: seq<Line>, limit: nat)
    requires Dated(log) && log != [] && Size(log[0]) > limit
    ensures ReadStep(log, Fresh, limit) == (Fresh, Stalled)
  {
    hide Since, Fetch, NewLines, Bytes;
    SinceAll(log, 0);
    var c := FetchedLines(log, 0, limit, 0);
    BytesGrow(log, 1, |log|);
    assert log[..1] == [log[0]] && log[..|log|] == log;
    BytesOne(log[0]);
    BytesGrow(log, Min(1, c), c);
    assert Unread(log, Fresh, limit) == [];
  }

  /** Such a line is never read, however many pages there are and whether or not the log is ordered. */
  lemma LongFirstLineUnread(s: Setup)
    requires Dated(s.log) && s.log != [] && Size(s.log[0]) > 4 * s.pageBytes
    ensures Read(s).0 == []
  {
    hide ReadStep;
    LongLineStalls(s.log, s.pageBytes);
    LongLineStalls(s.log, 2 * s.pageBytes);
    LongLineStalls(s.log, 4 * s.pageBytes);
    assert ReadFrom(s, Fresh, 4 * s.pageBytes, 2).0 == [];
    assert ReadFrom(s, Fresh, 2 * s.pageBytes, 1).0 == [];
  }

  /** If no second and no line takes more than a quarter of a page, a log of half that many pages can be read. */
  lemma EnoughPages(log: seq<Line>, pageBytes: nat, maxPages: nat)
    requires forall v :: 0 <= v <= |log| ==> Repeats(log, v) <= pageBytes / 4
    requires forall e :: 0 <= e < |log| ==> Size(log[e]) <= pageBytes / 4
    requires Bytes(log) < (maxPages - 2) * (pageBytes / 2)
    ensures !TooManyPages(log, pageBytes, maxPages)
  {
    assert Gains(log, pageBytes, pageBytes / 2);
  }

  // ---- A log out of time order ----

  const A := Line(5 * SECOND, true, "a")
  const B := Line(7 * SECOND, true, "b")
  const C := Line(6 * SECOND, true, "c")

  const Example := Setup([A, B, C], 4, 2, [])

  lemma ExampleAgain(r: Reader)
    requires r == Reader(7, [B.time], [A, B])
    ensures ReadStep([A, B, C], r, 4) == (r, Complete)
  {
    assert [A, B, C][..2] == [A, B] && [A, B][..1] == [A] && [A][..0] == [];
    assert Since([], 7) == [];
    assert Since([A], 7) == [];
    assert Since([A, B], 7) == [B];
    assert Since([A, B, C], 7) == [B];
    BytesOne(B);
    var c := FetchedLines([A, B, C], 7, 4, 1);
    assert [B.time][..0] == [];
    assert Kept([B.time], 7) == [B.time];
    hide Fetch, NewLines, Since, Kept;
    assert Unread([A, B, C], r, 4) == [];
    assert r.visited + [] == r.visited;
  }

  lemma ExampleTimes()
    ensures Kept(Times([A, B]), 7) == [B.time]
  {
    assert [A.time, B.time][..1] == [A.time] && [A.time][..0] == [];
    assert Kept([A.time], 7) == [];
    assert Kept([A.time, B.time], 7) == [B.time];
    assert [A, B][..1] == [A] && [A][..0] == [];
    assert Times([A]) == [A.time];
    assert Times([A, B]) == [A.time, B.time];
  }

  lemma ExampleBytes()
    ensures [A, B, C][..2] == [A, B] && Bytes([A, B]) == 4
  {
    hide Bytes;
    assert [A, B] == [A] + [B];
    BytesConcat([A], [B]);
    BytesOne(A);
    BytesOne(B);
  }

  lemma ExampleResumes()
    ensures Resume(Fresh, [A, B]) == Reader(7, [B.time], [A, B])
  {
    hide Kept, Times;
    ExampleTimes();
    assert [] + Times([A, B]) == Times([A, B]) && [] + [A, B] == [A, B];
  }

  lemma ExampleFirst()
    ensures ReadStep([A, B, C], Fresh, 4) == (Reader(7, [B.time], [A, B]), Advanced)
  {
    hide Bytes, ReadStep, Resume;
    ExampleBytes();
    ExampleResumes();
    FirstPageResumes([A, B, C], 1);
  }

  /**
    The clock steps back from the second line to the third. The first page ends after the second line,
    and the read then succeeds without the third.
  */
  lemma OutOfOrderLosesLine()
    ensures Read(Example) == ([A, B], Done) && Withdraws(Example)
  {
    hide ReadStep, Withdraws, Bytes;
    ExampleBytes();
    StepBackLosesLine([A, B, C], 1, 2, 2, []);
    ExampleFirst();
    var n := Reader(7, [B.time], [A, B]);
    ExampleAgain(n);
    assert TakeTurn(Example, Fresh, 4, 0) == Goes(n, 4);
    assert TakeTurn(Example, n, 4, 1) == Over([A, B], Done);
    assert ReadFrom(Example, n, 4, 1) == ([A, B], Done);
  }
}
