/**
  Which container failure a Job reports, and how much of its log
  (pkg/controller/job_controller.go).
*/
module FailureCause {
  import opened Prelude

  /** A container's terminated state; no finish time was recorded when `finishedAt` is None. */
  datatype Terminated = Terminated(exitCode: int, outOfMemory: bool, finishedAt: Option<int>)

  datatype Container = Container(name: string, terminated: Option<Terminated>)

  datatype Pod = Pod(name: string, init: seq<Container>, main: seq<Container>)

  predicate FailedContainer(c: Container) { c.terminated.Some? && c.terminated.value.exitCode != 0 }

  /** failsBefore. */
  predicate FailsBefore(a: Terminated, b: Terminated) {
    if a.outOfMemory != b.outOfMemory then a.outOfMemory
    else if a.finishedAt.None? then false
    else if b.finishedAt.None? then true
    else a.finishedAt.value < b.finishedAt.value
  }

  /** Neither failure outranks the other. */
  predicate Tied(a: Terminated, b: Terminated) { !FailsBefore(a, b) && !FailsBefore(b, a) }

  lemma StrictWeakOrder(a: Terminated, b: Terminated, c: Terminated)
    ensures !FailsBefore(a, a)
    ensures FailsBefore(a, b) ==> !FailsBefore(b, a)
    ensures FailsBefore(a, b) && FailsBefore(b, c) ==> FailsBefore(a, c)
    ensures Tied(a, b) && Tied(b, c) ==> Tied(a, c)
  {
  }

  /** The containers of all pods, in the order the scan visits them. */
  function AllContainers(pods: seq<Pod>): seq<(Pod, Container)> {
    if pods == [] then []
    else OfPod(pods[0], pods[0].init) + OfPod(pods[0], pods[0].main) + AllContainers(pods[1..])
  }

  function OfPod(pod: Pod, containers: seq<Container>): seq<(Pod, Container)> {
    seq(|containers|, i requires 0 <= i < |containers| => (pod, containers[i]))
  }

  /** `k` is the first failed container that no failed container outranks. */
  ghost predicate FirstCause(all: seq<(Pod, Container)>, k: nat) {
    && k < |all| && FailedContainer(all[k].1)
    && (forall j :: 0 <= j < |all| && FailedContainer(all[j].1) ==>
          !FailsBefore(all[j].1.terminated.value, all[k].1.terminated.value))
    && (forall j :: 0 <= j < k && FailedContainer(all[j].1) ==>
          FailsBefore(all[k].1.terminated.value, all[j].1.terminated.value))
  }

  /** The termination of a container that ended with an error. */
  predicate Ended(all: seq<(Pod, Container)>, j: nat) {
    j < |all| && all[j].1.terminated.Some? && all[j].1.terminated.value.exitCode != 0
  }

  function Failure(all: seq<(Pod, Container)>, j: nat): Terminated
    requires Ended(all, j)
  {
    all[j].1.terminated.value
  }

  /** A failure that counts as `k` does: both were out of memory, or neither. */
  ghost predicate OfItsKind(all: seq<(Pod, Container)>, k: nat, j: nat)
    requires Ended(all, k)
  {
    Ended(all, j) && Failure(all, j).outOfMemory == Failure(all, k).outOfMemory
  }

  /**
    In plain terms: an out-of-memory kill is reported if there is one; among its kind the cause is one
    that finished first, a recorded time before a missing one; and of those it is the first listed.
  */
  ghost predicate Earliest(all: seq<(Pod, Container)>, k: nat) {
    && Ended(all, k)
    && (forall j: nat :: Ended(all, j) && Failure(all, j).outOfMemory ==> Failure(all, k).outOfMemory)
    && (forall j: nat :: OfItsKind(all, k, j) && Failure(all, j).finishedAt.Some? ==>
          && Failure(all, k).finishedAt.Some?
          && Failure(all, k).finishedAt.value <= Failure(all, j).finishedAt.value)
    && (forall j: nat :: OfItsKind(all, k, j) && Failure(all, j).finishedAt == Failure(all, k).finishedAt ==> k <= j)
  }

  lemma EarliestIff(all: seq<(Pod, Container)>, k: nat)
    ensures FirstCause(all, k) <==> Earliest(all, k)
  {
    assert forall j: nat :: j < |all| ==> (Ended(all, j) <==> FailedContainer(all[j].1));
    if Earliest(all, k) {
      forall j: nat | j < |all| && FailedContainer(all[j].1)
        ensures !FailsBefore(all[j].1.terminated.value, all[k].1.terminated.value)
        ensures j < k ==> FailsBefore(all[k].1.terminated.value, all[j].1.terminated.value)
      {
        assert Ended(all, j) && (Failure(all, j).outOfMemory != Failure(all, k).outOfMemory || OfItsKind(all, k, j));
      }
    }
  }

  ghost predicate CauseOf(all: seq<(Pod, Container)>, cause: Option<(Pod, Container)>) {
    match cause
    case None => forall j :: 0 <= j < |all| ==> !FailedContainer(all[j].1)
    case Some(c) => exists k: nat :: FirstCause(all, k) && all[k] == c
  }

  /** One more container, and the scan's comparison with the best so far. */
  lemma {:induction false} Consider(
    seen: seq<(Pod, Container)>, cause: Option<(Pod, Container)>, next: (Pod, Container))
    requires CauseOf(seen, cause)
    ensures CauseOf(seen + [next],
      if FailedContainer(next.1)
         && (cause.None? || FailsBefore(next.1.terminated.value, cause.value.1.terminated.value))
      then Some(next) else cause)
  {
    var all := seen + [next];
    if FailedContainer(next.1) && cause.None? {
      assert FirstCause(all, |seen|);
    } else if cause.Some? {
      var k: nat :| FirstCause(seen, k) && seen[k] == cause.value;
      if FailedContainer(next.1) && FailsBefore(next.1.terminated.value, cause.value.1.terminated.value) {
        assert FirstCause(all, |seen|);
      } else {
        assert FirstCause(all, k);
      }
    }
  }

  /** The scan over one list of container statuses. */
  method ScanStatuses(
    ghost seen: seq<(Pod, Container)>, pod: Pod, statuses: seq<Container>, best: Option<(Pod, Container)>)
    returns (cause: Option<(Pod, Container)>)
    requires CauseOf(seen, best)
    ensures CauseOf(seen + OfPod(pod, statuses), cause)
  {
    cause := best;
    assert seen == seen + OfPod(pod, statuses)[..0];
    for j := 0 to |statuses|
      invariant CauseOf(seen + OfPod(pod, statuses)[..j], cause)
    {
      var cs := statuses[j];
      ghost var before := seen + OfPod(pod, statuses)[..j];
      Consider(before, cause, (pod, cs));
      assert before + [(pod, cs)] == seen + OfPod(pod, statuses)[..j + 1];
      if !FailedContainer(cs) {
        continue;
      }
      if cause.None? || FailsBefore(cs.terminated.value, cause.value.1.terminated.value) {
        cause := Some((pod, cs));
      }
    }
    assert OfPod(pod, statuses)[..|statuses|] == OfPod(pod, statuses);
  }

  /** failedContainerOf: the first failed container that none outranks, in pods and then list order. */
  method FailedContainerOf(pods: seq<Pod>) returns (cause: Option<(Pod, Container)>)
    ensures CauseOf(AllContainers(pods), cause)
    ensures cause.None? <==> forall j: nat :: !Ended(AllContainers(pods), j)
    ensures cause.Some? ==> exists k: nat :: Earliest(AllContainers(pods), k) && AllContainers(pods)[k] == cause.value
  {
    hide CauseOf, Earliest, Ended;
    cause := None;
    NoContainers();
    for i := 0 to |pods|
      invariant CauseOf(AllContainers(pods[..i]), cause)
    {
      var pod := pods[i];
      ghost var seen := AllContainers(pods[..i]);
      cause := ScanStatuses(seen, pod, pod.init, cause);
      cause := ScanStatuses(seen + OfPod(pod, pod.init), pod, pod.main, cause);
      AllContainersSnoc(pods[..i], pod);
      assert pods[..i] + [pod] == pods[..i + 1];
    }
    assert pods[..|pods|] == pods;
    CauseIsEarliest(AllContainers(pods), cause);
  }

  lemma NoContainers()
    ensures CauseOf(AllContainers([]), None)
  {
  }

  lemma NoneEndedIff(all: seq<(Pod, Container)>)
    ensures CauseOf(all, None) <==> forall j: nat :: !Ended(all, j)
  {
    assert forall j: nat :: j < |all| ==> (Ended(all, j) <==> FailedContainer(all[j].1));
    if CauseOf(all, None) {
      forall j: nat ensures !Ended(all, j) {
        if j < |all| {
          assert !FailedContainer(all[j].1);
        }
      }
    }
  }

  lemma CauseIsEarliest(all: seq<(Pod, Container)>, cause: Option<(Pod, Container)>)
    requires CauseOf(all, cause)
    ensures cause.None? <==> forall j: nat :: !Ended(all, j)
    ensures cause.Some? ==> exists k: nat :: Earliest(all, k) && all[k] == cause.value
  {
    NoneEndedIff(all);
    if cause.Some? {
      var k: nat :| FirstCause(all, k) && all[k] == cause.value;
      EarliestIff(all, k);
      assert Ended(all, k);
    }
  }

  /** Where the containers of a pod begin. */
  function Offset(pods: seq<Pod>, p: nat): nat
    requires p <= |pods|
  {
    if p == 0 then 0 else Offset(pods, p - 1) + |pods[p - 1].init| + |pods[p - 1].main|
  }

  /** Every container of every pod is listed once: pod after pod, init containers before main ones. */
  lemma {:induction false} AllContainersAt(pods: seq<Pod>, n: nat)
    requires n <= |pods|
    ensures |AllContainers(pods[..n])| == Offset(pods, n)
    ensures forall p: nat :: p < n ==> ListedAt(pods, p, AllContainers(pods[..n]))
  {
    if n > 0 {
      var last, before := pods[n - 1], AllContainers(pods[..n - 1]);
      AllContainersAt(pods, n - 1);
      assert pods[..n] == pods[..n - 1] + [last];
      AllContainersSnoc(pods[..n - 1], last);
      var all := AllContainers(pods[..n]);
      forall p: nat | p < n ensures ListedAt(pods, p, all) {
        if p < n - 1 {
          StaysListed(pods, p, before, all);
        }
      }
    }
  }

  /** The init containers of pod p, and then its main ones, from its offset on. */
  ghost predicate ListedAt(pods: seq<Pod>, p: nat, all: seq<(Pod, Container)>)
    requires p < |pods|
  {
    var at, pod := Offset(pods, p), pods[p];
    && at + |pod.init| + |pod.main| <= |all|
    && (forall i :: 0 <= i < |pod.init| ==> all[at + i] == (pod, pod.init[i]))
    && (forall i :: 0 <= i < |pod.main| ==> all[at + |pod.init| + i] == (pod, pod.main[i]))
  }

  lemma StaysListed(pods: seq<Pod>, p: nat, before: seq<(Pod, Container)>, all: seq<(Pod, Container)>)
    requires p < |pods| && before <= all && ListedAt(pods, p, before)
    ensures ListedAt(pods, p, all)
  {
  }

  lemma {:induction false} AllContainersSnoc(pods: seq<Pod>, pod: Pod)
    ensures AllContainers(pods + [pod]) == AllContainers(pods) + OfPod(pod, pod.init) + OfPod(pod, pod.main)
  {
    if pods == [] {
      assert [pod][1..] == [];
    } else {
      assert (pods + [pod])[1..] == pods[1..] + [pod];
      AllContainersSnoc(pods[1..], pod);
    }
  }

  /** The scan has only one answer. */
  lemma {:induction false} CauseIsUnique(
    all: seq<(Pod, Container)>, a: Option<(Pod, Container)>, b: Option<(Pod, Container)>)
    requires CauseOf(all, a) && CauseOf(all, b)
    ensures a == b
  {
  }

  /** A launcher failure listed first wins every tie with the workers listed after it. */
  lemma {:induction false} LauncherWinsTies(launchers: seq<Pod>, workers: seq<Pod>, cause: Option<(Pod, Container)>)
    requires CauseOf(AllContainers(launchers + workers), cause) && cause.Some?
    requires exists c ::
               && c in AllContainers(launchers) && FailedContainer(c.1) && cause.value.1.terminated.Some?
               && Tied(c.1.terminated.value, cause.value.1.terminated.value)
    ensures cause.value in AllContainers(launchers)
  {
    AllContainersConcat(launchers, workers);
    var all, first := AllContainers(launchers + workers), AllContainers(launchers);
    var tied :| tied in first && FailedContainer(tied.1)
      && Tied(tied.1.terminated.value, cause.value.1.terminated.value);
    var k :| 0 <= k < |first| && first[k] == tied;
    var c: nat :| FirstCause(all, c) && all[c] == cause.value;
    assert all[k] == first[k];
    assert c <= k;
    assert all[c] == first[c];
  }

  lemma {:induction false} AllContainersConcat(a: seq<Pod>, b: seq<Pod>)
    ensures AllContainers(a + b) == AllContainers(a) + AllContainers(b)
  {
    if a == [] {
      assert a + b == b;
    } else {
      assert (a + b)[1..] == a[1..] + b;
      AllContainersConcat(a[1..], b);
    }
  }

  lemma {:induction false} SomeFailure(all: seq<(Pod, Container)>, other: seq<(Pod, Container)>, c: (Pod, Container))
    requires CauseOf(all, Some(c)) && c in other
    ensures exists j :: 0 <= j < |other| && FailedContainer(other[j].1)
  {
  }

  /** With no ties between failures, the order in which pods and containers are listed does not matter. */
  lemma {:induction false} OrderIrrelevantWithoutTies(
    all: seq<(Pod, Container)>, other: seq<(Pod, Container)>,
    a: Option<(Pod, Container)>, b: Option<(Pod, Container)>)
    requires multiset(all) == multiset(other)
    requires forall x, y :: x in all && y in all && x != y && FailedContainer(x.1) && FailedContainer(y.1) ==>
      !Tied(x.1.terminated.value, y.1.terminated.value)
    requires CauseOf(all, a) && CauseOf(other, b)
    ensures a == b
  {
    forall x
      ensures x in all <==> x in other
    {
      assert x in all <==> x in multiset(all);
      assert x in other <==> x in multiset(other);
    }
    if a.Some? {
      SomeFailure(all, other, a.value);
    }
    if b.Some? {
      SomeFailure(other, all, b.value);
    }
    if a.Some? && b.Some? {
      var i: nat :| FirstCause(all, i) && all[i] == a.value;
      var j: nat :| FirstCause(other, j) && other[j] == b.value;
      assert b.value in other && a.value in all;
      var bi :| 0 <= bi < |all| && all[bi] == b.value;
      var aj :| 0 <= aj < |other| && other[aj] == a.value;
      assert Tied(a.value.1.terminated.value, b.value.1.terminated.value);
    }
  }

  // ---- The log tail ----

  /** One Read call: the bytes it returned, and whether it also returned an error. */
  datatype Read = Read(data: Bytes, end: End)
  datatype End = More | Eof | ReadError

  /** The last `max` elements, or all of them. */
  function Tail<T>(s: seq<T>, max: nat): (t: seq<T>)
    ensures |t| == Min(max, |s|)
  {
    if |s| > max then s[|s| - max..] else s
  }

  function DataOf(calls: seq<Read>): seq<Bytes> {
    seq(|calls|, i requires 0 <= i < |calls| => calls[i].data)
  }

  lemma TailOfTail<T>(s: seq<T>, more: seq<T>, max: nat)
    ensures Tail(Tail(s, max) + more, max) == Tail(s + more, max)
  {
  }

  /** Appends one chunk and trims from the front. */
  method Keep(buf: Bytes, data: Bytes, max: nat) returns (kept: Bytes)
    requires |buf| <= max
    ensures kept == Tail(buf + data, max) && |kept| <= max
  {
    kept := buf;
    if |data| > 0 {
      kept := kept + data;
      if |kept| > max {
        kept := kept[|kept| - max..];
      }
    } else {
      assert buf + data == buf;
    }
  }

  lemma ReadOneMore(calls: seq<Read>, count: nat)
    requires count < |calls|
    ensures Flatten(DataOf(calls[..count + 1])) == Flatten(DataOf(calls[..count])) + calls[count].data
  {
    FlattenSnoc(DataOf(calls[..count]), calls[count].data);
    assert DataOf(calls[..count + 1]) == DataOf(calls[..count]) + [calls[count].data];
  }

  /** The last `max` bytes of the first `count` reads together. */
  ghost function TailOfReads(calls: seq<Read>, count: nat, max: nat): Bytes
    requires count <= |calls|
  {
    Tail(Flatten(DataOf(calls[..count])), max)
  }

  lemma NothingRead(calls: seq<Read>, max: nat)
    ensures TailOfReads(calls, 0, max) == []
  {
    assert calls[..0] == [];
  }

  lemma TailStep(calls: seq<Read>, count: nat, max: nat)
    requires count < |calls|
    ensures Tail(TailOfReads(calls, count, max) + calls[count].data, max) == TailOfReads(calls, count + 1, max)
  {
    ReadOneMore(calls, count);
    TailOfTail(Flatten(DataOf(calls[..count])), calls[count].data, max);
    hide Tail, Flatten, DataOf;
  }

  /**
    readLogTail: the last `max` bytes of everything read up to and including the first call that
    reports the end or an error, however the stream was cut into reads.
  */
  method ReadLogTail(calls: seq<Read>, max: nat) returns (tail: Bytes, ok: bool, count: nat)
    requires exists i :: 0 <= i < |calls| && calls[i].end != More
    ensures 0 < count <= |calls| && calls[count - 1].end != More
    ensures forall i :: 0 <= i < count - 1 ==> calls[i].end == More
    ensures ok <==> calls[count - 1].end == Eof
    ensures tail == TailOfReads(calls, count, max)
  {
    NothingRead(calls, max);
    hide TailOfReads, Tail;
    var buf: Bytes := [];
    count := 0;
    ghost var stop :| 0 <= stop < |calls| && calls[stop].end != More;
    while true
      invariant 0 <= count <= stop
      invariant forall i :: 0 <= i < count ==> calls[i].end == More
      invariant buf == TailOfReads(calls, count, max) && |buf| <= max
      decreases |calls| - count
    {
      var r := calls[count];
      TailStep(calls, count, max);
      buf := Keep(buf, r.data, max);
      count := count + 1;
      if r.end != More {
        return buf, r.end == Eof, count;
      }
    }
  }
}
