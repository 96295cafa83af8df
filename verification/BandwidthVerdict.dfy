/**
  From provisional samples to the bandwidth a Job is judged by
  (pkg/controller/bandwidthmeasurement_controller.go, pkg/controller/job_threshold_helpers.go).

  A reconcile of the measurement reads any earlier version of its status. The Job is seen in the
  order it changed. A plain update takes effect only on the version it was read at; the other writes
  are applied to the stored version, whatever that is. Times are whole seconds, the precision in
  which the status keeps them.
*/
module BandwidthVerdict {
  import opened Prelude
  import opened BandwidthAggregate
  import LogPager

  // ---- The final read ----

  /** How logs are parsed, averages rounded, and how long a failed final read is retried. */
  datatype Config = Config(parse: LogPager.Line -> Option<Row>, round: real -> real, grace: nat, pageBytes: nat)

  /** The rows among the lines; `parse` stands for the log profile's pattern. */
  function RowsOf(parse: LogPager.Line -> Option<Row>, lines: seq<LogPager.Line>): seq<Row> {
    if lines == [] then []
    else
      var row := parse(Last(lines));
      RowsOf(parse, lines[..|lines| - 1]) + if row.Some? then [row.value] else []
  }

  method ParseLines(parse: LogPager.Line -> Option<Row>, lines: seq<LogPager.Line>) returns (rows: seq<Row>)
    ensures rows == RowsOf(parse, lines)
  {
    rows := [];
    for i := 0 to |lines|
      invariant rows == RowsOf(parse, lines[..i])
    {
      assert lines[..i + 1][..i] == lines[..i];
      var row := parse(lines[i]);
      if row.Some? {
        rows := rows + [row.value];
      }
    }
    assert lines[..|lines|] == lines;
  }

  /** The rows are what the parsed lines yield, in the order of the lines, and nothing else. */
  ghost predicate AreParsed(
    parse: LogPager.Line -> Option<Row>, lines: seq<LogPager.Line>, rows: seq<Row>, from: seq<nat>)
  {
    && |from| == |rows|
    && (forall i :: 0 <= i < |from| ==> from[i] < |lines| && parse(lines[from[i]]) == Some(rows[i]))
    && (forall i, j :: 0 <= i < j < |from| ==> from[i] < from[j])
    && (forall k: nat :: k < |lines| ==> (k in from <==> parse(lines[k]).Some?))
  }

  lemma {:induction false} RowsAreParsed(parse: LogPager.Line -> Option<Row>, lines: seq<LogPager.Line>)
    returns (from: seq<nat>)
    ensures AreParsed(parse, lines, RowsOf(parse, lines), from)
  {
    from := [];
    if lines != [] {
      hide AreParsed;
      var init, last := lines[..|lines| - 1], |lines| - 1;
      var before := RowsAreParsed(parse, init);
      assert lines == init + [lines[last]];
      OneMoreLine(parse, init, lines[last], RowsOf(parse, init), before);
      from := before + if parse(lines[last]).Some? then [last] else [];
    }
  }

  lemma OneMoreLine(
    parse: LogPager.Line -> Option<Row>, init: seq<LogPager.Line>, line: LogPager.Line, rows: seq<Row>, from: seq<nat>)
    requires AreParsed(parse, init, rows, from)
    ensures var row := parse(line);
      AreParsed(parse, init + [line],
                rows + (if row.Some? then [row.value] else []), from + if row.Some? then [|init|] else [])
  {
    var lines, more := init + [line], from + if parse(line).Some? then [|init|] else [];
    forall k: nat | k < |lines| ensures k in more <==> parse(lines[k]).Some? {
      assert k in more <==> k in from || (k == |init| && parse(line).Some?);
    }
  }

  /** DefaultMaxPages. */
  const MAX_PAGES := 64

  function Reading(cfg: Config, log: seq<LogPager.Line>, failures: seq<LogPager.Failure>): LogPager.Setup {
    LogPager.Setup(log, cfg.pageBytes, MAX_PAGES, failures)
  }

  /** What readFinalResults returns for a log that it reads to the end: the aggregate of the lines it visits. */
  ghost predicate IsFinalReadOf(cfg: Config, results: seq<Result>, log: seq<LogPager.Line>) {
    var (lines, status) := LogPager.Read(Reading(cfg, log, []));
    status == LogPager.Done && IsAggregateOf(cfg.round, results, RowsOf(cfg.parse, lines))
  }

  /** The aggregate of the whole log. */
  ghost predicate IsWhole(cfg: Config, results: seq<Result>, log: seq<LogPager.Line>) {
    IsAggregateOf(cfg.round, results, RowsOf(cfg.parse, log))
  }

  lemma FinalReadIsWhole(cfg: Config, results: seq<Result>, log: seq<LogPager.Line>)
    requires IsFinalReadOf(cfg, results, log) && LogPager.Ordered(log)
    ensures IsWhole(cfg, results, log)
  {
    LogPager.OrderedReadsInFull(Reading(cfg, log, []));
  }

  /**
    readFinalResults: every row of the lines that are read, averaged and rounded once. Those are all
    rows of a log that is ordered by second, and then a failure that is not retried has its reason.
  */
  method ReadFinalResults(cfg: Config, log: seq<LogPager.Line>, failures: seq<LogPager.Failure>)
    returns (results: Option<seq<Result>>, retryable: bool)
    ensures results.Some? ==> IsFinalReadOf(cfg, results.value, log)
    ensures results.None? ==> (retryable <==> LogPager.Read(Reading(cfg, log, failures)).1 == LogPager.Failed)
    ensures LogPager.Ordered(log) ==>
      && (results.Some? ==> IsWhole(cfg, results.value, log))
      && (results.None? && !retryable ==> LogPager.CannotPage(Reading(cfg, log, failures)))
  {
    hide LogPager.CannotPage, LogPager.Ordered, LogPager.ReadFrom, IsAggregateOf;
    var lines, status := LogPager.ReadAll(log, cfg.pageBytes, MAX_PAGES, failures);
    if LogPager.Ordered(log) {
      LogPager.OrderedReadsInFull(Reading(cfg, log, failures));
    }
    if status != LogPager.Done {
      return None, status == LogPager.Failed;
    }
    LogPager.DoneMetNoFailure(Reading(cfg, log, failures), LogPager.Fresh, cfg.pageBytes, 0);
    var rows := ParseLines(cfg.parse, lines);
    var aggregate := AggregatePages(cfg.round, [rows]);
    assert Flatten([rows]) == rows by { assert [rows][1..] == []; assert rows + [] == rows; }
    results, retryable := Some(aggregate), false;
  }

  // ---- The status ----

  datatype Measuring = Unset | Active | Waiting(since: int) | Inactive

  datatype Reason = FromFullLog | NoData | LogsUnavailable | AfterFailure

  datatype Status = Status(results: seq<Result>, measuring: Measuring, complete: Option<Reason>)

  datatype Phase = Running | Succeeded | Failed

  datatype Job = Job(uid: nat, phase: Phase)

  /** A complete read of a finished pod's log, made for a Job instance. */
  datatype Read = Read(uid: nat, pod: nat)

  /**
    `logs` holds the log of every finished pod. `firstFailed` is when a final read first failed for
    a reason that may pass, `gaveUp` when such a failure completed the measurement.
  */
  datatype World = World(
    versions: seq<Status>, annotation: Option<nat>, job: Option<Job>, nextUid: nat,
    logs: seq<seq<LogPager.Line>>, finalReads: seq<Read>, now: int, firstFailed: Option<int>, gaveUp: Option<int>)

  datatype Step =
    | Sample(view: nat, results: seq<Result>, lost: bool)
    | NoteProfile(view: nat, lost: bool)
    | FinalRead(view: nat, pod: nat, results: seq<Result>, lost: bool)
    | FinalReadFails(view: nat, retryable: bool, lost: bool)
    | JobFailedRead(view: nat, best: seq<Result>, lost: bool)
    | JobMissing(view: nat, lost: bool)
    // The environment
    | Wait(seconds: nat)
    | PodFinishes(log: seq<LogPager.Line>)
    | JobEnds(failed: bool)
    | JobReplaced
    | JobDeleted

  /** measuresJob: a measurement without the annotation is taken at its name. */
  predicate Measures(annotation: Option<nat>, uid: nat) { annotation.None? || annotation.value == uid }

  /** sawJob: a measurement that was created for a Job instance, or has measured one. */
  predicate SawJob(annotation: Option<nat>, s: Status) {
    annotation.Some? || s.results != [] || s.measuring != Unset
  }

  function Initial(annotated: bool): World {
    World(
      [Status([], Unset, None)], if annotated then Some(0) else None, Some(Job(0, Running)), 1, [], [], 0, None, None)
  }

  function Store(w: World, s: Status): World { w.(versions := w.versions + [s]) }

  /** finalizeTerminal: a measurement that is complete stays as it is. */
  function Finalize(w: World, reason: Reason, results: Option<seq<Result>>, lost: bool): World
    requires |w.versions| > 0
  {
    var s := Last(w.versions);
    if lost || s.complete.Some? then w
    else Store(w, Status(if results.Some? then results.value else s.results, Inactive, Some(reason)))
  }

  /** The stored measurement, edited in place by the callbacks of its status writes. */
  class Measurement {
    var results: seq<Result>
    var measuring: Measuring
    var complete: Option<Reason>

    function Value(): Status
      reads this
    {
      Status(results, measuring, complete)
    }

    constructor ()
      ensures Value() == Status([], Unset, None)
    {
      results, measuring, complete := [], Unset, None;
    }

    /** The callback of finalizeTerminal; `changed` is whether there is anything to write. */
    method FinalizeTerminal(reason: Reason, final: Option<seq<Result>>) returns (changed: bool)
      modifies this
      ensures changed == old(complete).None?
      ensures !changed ==> Value() == old(Value())
      ensures changed ==>
        Value() == Status(if final.Some? then final.value else old(results), Inactive, Some(reason))
    {
      if complete.Some? {
        return false;
      }
      if final.Some? {
        results := final.value;
      }
      measuring := Inactive;
      complete := Some(reason);
      return true;
    }

    /** The callback of markFinalReadPending. */
    method MarkFinalReadPending(now: int) returns (changed: bool)
      modifies this`measuring
      ensures changed == !old(measuring).Waiting?
      ensures measuring == if changed then Waiting(now) else old(measuring)
    {
      if measuring.Waiting? {
        return false;
      }
      measuring := Waiting(now);
      return true;
    }
  }

  /** The reconcile is about a Job in this phase that the measurement is for. */
  predicate For(w: World, phase: Phase) {
    w.job.Some? && w.job.value.phase == phase && Measures(w.annotation, w.job.value.uid)
  }

  predicate Reads(w: World, view: nat) { view < |w.versions| && w.versions[view].complete.None? }

  /** handleJobSucceeded after a failed read. */
  function DoFinalReadFails(cfg: Config, w: World, view: nat, retryable: bool, lost: bool): World
    requires |w.versions| > 0 && view < |w.versions|
  {
    var s := w.versions[view];
    var since := if s.measuring.Waiting? then s.measuring.since else w.now;
    var w1 := if retryable && w.firstFailed.None? then w.(firstFailed := Some(w.now)) else w;
    if retryable && cfg.grace - (w.now - since) > 0 then
      // markFinalReadPending
      var stored := Last(w.versions);
      if lost || stored.measuring.Waiting? then w1 else Store(w1, stored.(measuring := Waiting(w.now)))
    else
      var w2 := Finalize(w1, LogsUnavailable, None, lost);
      if retryable && w2 != w1 then w2.(gaveUp := Some(w.now)) else w2
  }

  ghost function DoFinalRead(cfg: Config, w: World, view: nat, pod: nat, results: seq<Result>, lost: bool): World
    requires |w.versions| > 0 && w.job.Some?
  {
    if pod >= |w.logs| || !IsFinalReadOf(cfg, results, w.logs[pod]) then w
    else
      Finalize(w.(finalReads := w.finalReads + [Read(w.job.value.uid, pod)]),
               if results == [] then NoData else FromFullLog, Some(results), lost)
  }

  ghost function Controller(cfg: Config, w: World, step: Step): (n: World)
    requires |w.versions| > 0
    ensures w.versions <= n.versions && w.annotation == n.annotation
  {
    match step
    case Sample(view, results, lost) =>
      if Reads(w, view) && For(w, Running) && view == |w.versions| - 1 && !lost
      then Store(w, Status(results, Active, None)) else w
    case NoteProfile(view, lost) =>
      if Reads(w, view) && For(w, Running) && !lost then Store(w, Last(w.versions).(measuring := Inactive)) else w
    case FinalRead(view, pod, results, lost) =>
      if Reads(w, view) && For(w, Succeeded) then DoFinalRead(cfg, w, view, pod, results, lost) else w
    case FinalReadFails(view, retryable, lost) =>
      if Reads(w, view) && For(w, Succeeded) then DoFinalReadFails(cfg, w, view, retryable, lost) else w
    // One attempt; without rows the provisional results stay.
    case JobFailedRead(view, best, lost) =>
      if Reads(w, view) && For(w, Failed)
      then Finalize(w, AfterFailure, if best == [] then None else Some(best), lost) else w
    case JobMissing(view, lost) =>
      if Reads(w, view) &&
         (if w.job.None? then SawJob(w.annotation, w.versions[view]) else !Measures(w.annotation, w.job.value.uid))
      then Finalize(w, LogsUnavailable, None, lost) else w
    case _ => w
  }

  function Environment(w: World, step: Step): (n: World)
    ensures w.versions == n.versions && w.annotation == n.annotation
  {
    match step
    case Wait(seconds) => w.(now := w.now + seconds)
    case PodFinishes(log) => w.(logs := w.logs + [log])
    case JobEnds(failed) =>
      if w.job.Some? && w.job.value.phase == Running
      then w.(job := Some(w.job.value.(phase := if failed then Failed else Succeeded))) else w
    case JobReplaced => w.(job := Some(Job(w.nextUid, Running)), nextUid := w.nextUid + 1)
    case JobDeleted => w.(job := None)
    case _ => w
  }

  predicate IsEnvironment(step: Step) {
    step.Wait? || step.PodFinishes? || step.JobEnds? || step.JobReplaced? || step.JobDeleted?
  }

  ghost function Next(cfg: Config, w: World, step: Step): (n: World)
    requires |w.versions| > 0
    ensures w.versions <= n.versions && w.annotation == n.annotation
  {
    if IsEnvironment(step) then Environment(w, step) else Controller(cfg, w, step)
  }

  ghost function Run(cfg: Config, annotated: bool, trace: Trace<Step>): (w: World)
    ensures |w.versions| > 0
  {
    match trace
    case Start => Initial(annotated)
    case After(before, step) => Next(cfg, Run(cfg, annotated, before), step)
  }

  // ---- Complete is absorbing ----

  /** What the measurement measured; the Measuring condition is not part of it. */
  function Outcome(s: Status): (seq<Result>, Option<Reason>) { (s.results, s.complete) }

  lemma NextKeepsComplete(cfg: Config, w: World, step: Step)
    requires |w.versions| > 0 && Last(w.versions).complete.Some?
    ensures var n := Next(cfg, w, step);
      Outcome(Last(n.versions)) == Outcome(Last(w.versions))
  {
  }

  /** The first terminal write wins: no later step, from whatever version, changes the outcome. */
  lemma {:induction false} CompleteIsFinal(cfg: Config, annotated: bool, trace: Trace<Step>, more: seq<Step>)
    requires Last(Run(cfg, annotated, trace).versions).complete.Some?
    ensures Outcome(Last(Run(cfg, annotated, Extend(trace, more)).versions)) ==
      Outcome(Last(Run(cfg, annotated, trace).versions))
    decreases |more|
  {
    hide Next;
    if more != [] {
      NextKeepsComplete(cfg, Run(cfg, annotated, trace), more[0]);
      CompleteIsFinal(cfg, annotated, After(trace, more[0]), more[1..]);
    }
  }

  // ---- Final results come from a full log ----

  ghost predicate FromRead(cfg: Config, w: World, s: Status, r: Read) {
    && r.pod < |w.logs| && IsFinalReadOf(cfg, s.results, w.logs[r.pod]) && s.results != []
    && Measures(w.annotation, r.uid)
  }

  ghost predicate Backed(cfg: Config, w: World, s: Status) {
    exists k :: 0 <= k < |w.finalReads| && FromRead(cfg, w, s, w.finalReads[k])
  }

  ghost predicate ReadsInv(cfg: Config, w: World) {
    && |w.versions| > 0
    && forall i :: 0 <= i < |w.versions| && w.versions[i].complete == Some(FromFullLog) ==>
         Backed(cfg, w, w.versions[i])
  }

  lemma BackedStays(cfg: Config, w: World, n: World, s: Status)
    requires Backed(cfg, w, s)
    requires w.logs <= n.logs && w.finalReads <= n.finalReads && w.annotation == n.annotation
    ensures Backed(cfg, n, s)
  {
  }

  lemma NextGrows(cfg: Config, w: World, step: Step)
    requires |w.versions| > 0
    ensures var n := Next(cfg, w, step);
      w.logs <= n.logs && w.finalReads <= n.finalReads && w.annotation == n.annotation && w.versions <= n.versions
  {
  }

  /** The version a step adds, if any, is final only through a complete read. */
  lemma AddedIsBacked(cfg: Config, w: World, step: Step)
    requires ReadsInv(cfg, w)
    ensures var n := Next(cfg, w, step);
      && |n.versions| <= |w.versions| + 1
      && (|n.versions| > |w.versions| && Last(n.versions).complete == Some(FromFullLog) ==>
            Backed(cfg, n, Last(n.versions)))
  {
    hide IsFinalReadOf;
    var n := Next(cfg, w, step);
    if |n.versions| > |w.versions| && Last(n.versions).complete == Some(FromFullLog) {
      if step.FinalRead? {
        var k := |w.finalReads|;
        assert FromRead(cfg, n, Last(n.versions), n.finalReads[k]);
      } else {
        BackedStays(cfg, w, n, Last(w.versions));
        assert Last(n.versions).results == Last(w.versions).results;
      }
    }
  }

  lemma GrowthKeepsReads(cfg: Config, w: World, n: World)
    requires ReadsInv(cfg, w)
    requires w.logs <= n.logs && w.finalReads <= n.finalReads && w.annotation == n.annotation
    requires w.versions <= n.versions && |n.versions| <= |w.versions| + 1
    requires |n.versions| > |w.versions| && Last(n.versions).complete == Some(FromFullLog) ==>
      Backed(cfg, n, Last(n.versions))
    ensures ReadsInv(cfg, n)
  {
    hide Backed;
    forall i | 0 <= i < |n.versions| && n.versions[i].complete == Some(FromFullLog)
      ensures Backed(cfg, n, n.versions[i])
    {
      if i < |w.versions| {
        assert n.versions[i] == w.versions[i];
        BackedStays(cfg, w, n, w.versions[i]);
      }
    }
  }

  lemma NextKeepsReads(cfg: Config, w: World, step: Step)
    requires ReadsInv(cfg, w)
    ensures ReadsInv(cfg, Next(cfg, w, step))
  {
    hide Next, Backed;
    AddedIsBacked(cfg, w, step);
    NextGrows(cfg, w, step);
    GrowthKeepsReads(cfg, w, Next(cfg, w, step));
  }

  lemma {:induction false} RunKeepsReads(cfg: Config, annotated: bool, trace: Trace<Step>)
    ensures ReadsInv(cfg, Run(cfg, annotated, trace))
  {
    hide Next;
    if trace.After? {
      RunKeepsReads(cfg, annotated, trace.before);
      NextKeepsReads(cfg, Run(cfg, annotated, trace.before), trace.step);
    }
  }

  // ---- The verdict ----

  /** BandwidthFinal. */
  predicate BandwidthFinal(s: Status) { s.complete == Some(FromFullLog) && s.results != [] }

  ghost predicate IsPeak(m: real, values: seq<real>) {
    && m >= 0.0 && (forall i :: 0 <= i < |values| ==> values[i] <= m)
    && (m == 0.0 || m in values)
  }

  function BusOf(results: seq<Result>): (b: seq<real>)
    ensures |b| == |results| && forall i :: 0 <= i < |results| ==> b[i] == results[i].bus
  {
    if results == [] then [] else BusOf(results[..|results| - 1]) + [Last(results).bus]
  }

  /** MaxBusBandwidth. */
  method MaxBusBandwidth(results: seq<Result>) returns (m: real)
    ensures IsPeak(m, BusOf(results))
  {
    m := 0.0;
    for i := 0 to |results|
      invariant m >= 0.0 && forall k :: 0 <= k < i ==> results[k].bus <= m
      invariant m == 0.0 || exists k :: 0 <= k < i && results[k].bus == m
    {
      if results[i].bus > m {
        m := results[i].bus;
      }
    }
    if m != 0.0 {
      ghost var k :| 0 <= k < |results| && results[k].bus == m;
      assert BusOf(results)[k] == m;
    }
  }

  /** Whether a measurement's results take part in the verdict on a Job instance. */
  predicate Judged(w: World, uid: nat)
    requires |w.versions| > 0
  {
    Measures(w.annotation, uid) && BandwidthFinal(Last(w.versions))
  }

  /**
    In every run, results that a verdict is reached from are the aggregate of one finished pod's log
    as it was read, the whole log if it is ordered by second, whatever was sampled before. If the
    measurement names its Job instance, that log was read for the very instance being judged.
  */
  lemma VerdictRestsOnFullLog(cfg: Config, annotated: bool, trace: Trace<Step>, uid: nat) returns (r: Read)
    requires Judged(Run(cfg, annotated, trace), uid)
    ensures var w := Run(cfg, annotated, trace);
      && r in w.finalReads && r.pod < |w.logs|
      && IsFinalReadOf(cfg, Last(w.versions).results, w.logs[r.pod])
      && (LogPager.Ordered(w.logs[r.pod]) ==> IsWhole(cfg, Last(w.versions).results, w.logs[r.pod]))
      && (annotated ==> r.uid == uid)
  {
    RunKeepsReads(cfg, annotated, trace);
    AnnotationIsFixed(cfg, annotated, trace);
    hide Run, IsFinalReadOf, IsWhole, LogPager.Ordered;
    var w := Run(cfg, annotated, trace);
    var last := w.versions[|w.versions| - 1];
    assert Backed(cfg, w, last);
    var k :| 0 <= k < |w.finalReads| && FromRead(cfg, w, last, w.finalReads[k]);
    r := w.finalReads[k];
    if LogPager.Ordered(w.logs[r.pod]) {
      FinalReadIsWhole(cfg, last.results, w.logs[r.pod]);
    }
  }

  lemma {:induction false} AnnotationIsFixed(cfg: Config, annotated: bool, trace: Trace<Step>)
    ensures Run(cfg, annotated, trace).annotation == if annotated then Some(0) else None
  {
    hide Controller, Environment;
    if trace.After? {
      AnnotationIsFixed(cfg, annotated, trace.before);
    }
  }

  // ---- How a measurement ends without its Job succeeding ----

  /**
    In every run: the one final read for a failed Job completes an open measurement that is for that Job,
    with what it found, or the provisional results if it found no row; for any other it does nothing.
  */
  lemma FailureDecides(cfg: Config, annotated: bool, trace: Trace<Step>, best: seq<Result>)
    requires Last(Run(cfg, annotated, trace).versions).complete.None?
    ensures var w := Run(cfg, annotated, trace);
      var n := Run(cfg, annotated, After(trace, JobFailedRead(|w.versions| - 1, best, false)));
      var own := w.job.Some? && (w.annotation.None? || w.annotation.value == w.job.value.uid);
      if own && w.job.value.phase == Failed then
        n == w.(versions := w.versions +
          [Status(if best == [] then Last(w.versions).results else best, Inactive, Some(AfterFailure))])
      else n == w
  {
    hide IsFinalReadOf, DoFinalRead, DoFinalReadFails;
  }

  /**
    In every run: an open measurement completes without final results, and keeps its provisional ones, if
    and only if another Job has its name, or its Job is gone and it shows that there was one.
  */
  lemma MissingDecides(cfg: Config, annotated: bool, trace: Trace<Step>)
    requires Last(Run(cfg, annotated, trace).versions).complete.None?
    ensures var w := Run(cfg, annotated, trace);
      var n, s := Run(cfg, annotated, After(trace, JobMissing(|w.versions| - 1, false))), Last(w.versions);
      if (w.job.Some? && w.annotation.Some? && w.annotation.value != w.job.value.uid)
         || (w.job.None? && (w.annotation.Some? || s.results != [] || s.measuring != Unset)) then
        n == w.(versions := w.versions + [Status(s.results, Inactive, Some(LogsUnavailable))])
      else n == w
  {
    hide IsFinalReadOf, DoFinalRead, DoFinalReadFails;
  }

  /** So does one that carries the annotation, when its Job is deleted. */
  lemma DeletedJobCompletes(cfg: Config, trace: Trace<Step>)
    requires Last(Run(cfg, true, trace).versions).complete.None?
    ensures var w := Run(cfg, true, trace);
      var n := Run(cfg, true, After(After(trace, JobDeleted), JobMissing(|w.versions| - 1, false)));
      Last(n.versions) == Status(Last(w.versions).results, Inactive, Some(LogsUnavailable))
  {
    hide Controller;
    var deleted := After(trace, JobDeleted);
    assert Run(cfg, true, deleted) == Run(cfg, true, trace).(job := None);
    AnnotationIsFixed(cfg, true, deleted);
    MissingDecides(cfg, true, deleted);
    hide Run;
  }

  // ---- The grace period of the final read ----

  ghost predicate GraceInv(cfg: Config, w: World) {
    && |w.versions| > 0
    && (w.firstFailed.Some? ==> w.firstFailed.value <= w.now)
    && (forall i :: 0 <= i < |w.versions| && w.versions[i].measuring.Waiting? ==>
          w.firstFailed.Some? && w.firstFailed.value <= w.versions[i].measuring.since <= w.now)
    && (w.gaveUp.Some? ==> w.firstFailed.Some? && w.gaveUp.value >= w.firstFailed.value + cfg.grace)
  }

  lemma FailureKeepsGrace(cfg: Config, w: World, view: nat, retryable: bool, lost: bool)
    requires GraceInv(cfg, w) && view < |w.versions|
    ensures GraceInv(cfg, DoFinalReadFails(cfg, w, view, retryable, lost))
  {
  }

  lemma NextKeepsGrace(cfg: Config, w: World, step: Step)
    requires GraceInv(cfg, w)
    ensures GraceInv(cfg, Next(cfg, w, step))
  {
    hide IsFinalReadOf, DoFinalReadFails;
    if step.FinalReadFails? && step.view < |w.versions| {
      FailureKeepsGrace(cfg, w, step.view, step.retryable, step.lost);
    }
  }

  lemma {:induction false} RunKeepsGrace(cfg: Config, annotated: bool, trace: Trace<Step>)
    ensures GraceInv(cfg, Run(cfg, annotated, trace))
  {
    hide Next;
    if trace.After? {
      RunKeepsGrace(cfg, annotated, trace.before);
      NextKeepsGrace(cfg, Run(cfg, annotated, trace.before), trace.step);
    }
  }

  /** No failure that may pass completes the measurement before the grace period is over. */
  lemma NeverGivesUpEarly(cfg: Config, annotated: bool, trace: Trace<Step>)
    requires Run(cfg, annotated, trace).gaveUp.Some?
    ensures var w := Run(cfg, annotated, trace);
      w.firstFailed.Some? && w.gaveUp.value >= w.firstFailed.value + cfg.grace
  {
    hide Run;
    RunKeepsGrace(cfg, annotated, trace);
  }

  /**
    No failure that may pass completes the measurement before the first such failure plus the grace
    period, and `gaveUp` records when one does.
  */
  lemma FailedReadCompletesLate(cfg: Config, annotated: bool, trace: Trace<Step>, step: Step)
    requires step.FinalReadFails? && step.retryable
    requires Last(Run(cfg, annotated, trace).versions).complete.None?
    requires Last(Run(cfg, annotated, After(trace, step)).versions).complete.Some?
    ensures var w, n := Run(cfg, annotated, trace), Run(cfg, annotated, After(trace, step));
      && n.firstFailed == (if w.firstFailed.Some? then w.firstFailed else Some(w.now))
      && w.now >= n.firstFailed.value + cfg.grace && n.gaveUp == Some(w.now)
  {
    hide IsFinalReadOf, Run;
    RunKeepsGrace(cfg, annotated, trace);
    RunAfter(cfg, annotated, trace, step);
    StepCompletesLate(cfg, Run(cfg, annotated, trace), step);
  }

  lemma RunAfter(cfg: Config, annotated: bool, trace: Trace<Step>, step: Step)
    ensures Run(cfg, annotated, After(trace, step)) == Next(cfg, Run(cfg, annotated, trace), step)
  {
    hide Next;
  }

  lemma StepCompletesLate(cfg: Config, w: World, step: Step)
    requires GraceInv(cfg, w) && step.FinalReadFails? && step.retryable
    requires Last(w.versions).complete.None? && Last(Next(cfg, w, step).versions).complete.Some?
    ensures var n := Next(cfg, w, step);
      && n.firstFailed == (if w.firstFailed.Some? then w.firstFailed else Some(w.now))
      && w.now >= n.firstFailed.value + cfg.grace && n.gaveUp == Some(w.now)
  {
    hide IsFinalReadOf, DoFinalRead;
  }

  /** The instance the measurement was created for has succeeded, or is gone, once the wait has begun. */
  ghost predicate WaitInv(w: World) {
    && |w.versions| > 0 && w.nextUid >= 1 && w.annotation == Some(0)
    && (Last(w.versions).measuring.Waiting? && Last(w.versions).complete.None? ==>
          w.job.None? || w.job.value.uid != 0 || w.job.value.phase == Succeeded)
  }

  lemma NextKeepsWait(cfg: Config, w: World, step: Step)
    requires WaitInv(w)
    ensures var n := Next(cfg, w, step);
      && WaitInv(n)
      && (Last(w.versions).measuring.Waiting? && Last(w.versions).complete.None? ==>
            Last(n.versions).complete.Some? || Last(n.versions).measuring == Last(w.versions).measuring)
  {
    hide IsFinalReadOf;
  }

  lemma {:induction false} RunKeepsWait(cfg: Config, trace: Trace<Step>)
    ensures WaitInv(Run(cfg, true, trace))
  {
    hide Next;
    if trace.After? {
      RunKeepsWait(cfg, trace.before);
      NextKeepsWait(cfg, Run(cfg, true, trace.before), trace.step);
    }
  }

  /** The stored start of the wait stays until the measurement completes, whatever else happens. */
  lemma {:induction false} WaitIsFixed(cfg: Config, trace: Trace<Step>, more: seq<Step>)
    requires var s := Last(Run(cfg, true, trace).versions); s.measuring.Waiting? && s.complete.None?
    ensures var s := Last(Run(cfg, true, Extend(trace, more)).versions);
      s.complete.Some? || s.measuring == Last(Run(cfg, true, trace).versions).measuring
    decreases |more|
  {
    hide Next;
    if more != [] {
      var w := Run(cfg, true, trace);
      RunKeepsWait(cfg, trace);
      NextKeepsWait(cfg, w, more[0]);
      var longer := After(trace, more[0]);
      if Last(Run(cfg, true, longer).versions).complete.Some? {
        CompleteIsFinal(cfg, true, longer, more[1..]);
      } else {
        WaitIsFixed(cfg, longer, more[1..]);
      }
    }
  }

  /** How long handleJobSucceeded asks to wait after a failed read that may pass. */
  function RequeueAfter(grace: nat, since: int, now: int, interval: nat): int { Min(grace - (now - since), interval) }

  /** A failed final read of the stored version, which waits. */
  lemma FailedReadAtDeadline(cfg: Config, w: World)
    requires |w.versions| > 0 && Last(w.versions).measuring.Waiting? && Last(w.versions).complete.None?
    requires For(w, Succeeded)
    ensures var n := Next(cfg, w, FinalReadFails(|w.versions| - 1, true, false));
      Last(n.versions).complete ==
        if w.now >= Last(w.versions).measuring.since + cfg.grace then Some(LogsUnavailable) else None
  {
    hide IsFinalReadOf;
    var step := FinalReadFails(|w.versions| - 1, true, false);
    assert Next(cfg, w, step) == DoFinalReadFails(cfg, w, |w.versions| - 1, true, false);
  }

  /**
    Once the wait has been stored, and whatever happens in between: a final read of the succeeded Job
    that reads the stored version and fails for a reason that may pass completes the measurement
    exactly from the start of the wait plus the grace period on. Before that the reconcile comes back
    after the interval or at that instant, whichever is first.
  */
  lemma GivesUpExactlyAtDeadline(cfg: Config, trace: Trace<Step>, more: seq<Step>, interval: nat)
    requires var s := Last(Run(cfg, true, trace).versions); s.measuring.Waiting? && s.complete.None?
    requires var w := Run(cfg, true, Extend(trace, more)); Last(w.versions).complete.None? && For(w, Succeeded)
    ensures var since := Last(Run(cfg, true, trace).versions).measuring.since;
      var w := Run(cfg, true, Extend(trace, more));
      var n := Run(cfg, true, After(Extend(trace, more), FinalReadFails(|w.versions| - 1, true, false)));
      && (Last(n.versions).complete == Some(LogsUnavailable) <==> w.now >= since + cfg.grace)
      && (Last(n.versions).complete.None? <==> w.now < since + cfg.grace)
      && (w.now < since + cfg.grace ==>
            var wait := RequeueAfter(cfg.grace, since, w.now, interval);
            && wait <= interval && w.now + wait <= since + cfg.grace && (interval > 0 ==> wait > 0)
            && (wait == interval || w.now + wait == since + cfg.grace))
  {
    hide IsFinalReadOf, Extend, Next;
    WaitIsFixed(cfg, trace, more);
    var longer := Extend(trace, more);
    var w := Run(cfg, true, longer);
    var step := FinalReadFails(|w.versions| - 1, true, false);
    assert Run(cfg, true, After(longer, step)) == Next(cfg, w, step);
    hide Run;
    FailedReadAtDeadline(cfg, w);
  }

  // ---- Without the annotation ----

  function Replacements(more: seq<Step>): nat {
    if more == [] then 0 else (if more[0].JobReplaced? then 1 else 0) + Replacements(more[1..])
  }

  lemma {:induction false} RunNumbersJobs(cfg: Config, annotated: bool, trace: Trace<Step>)
    ensures var w := Run(cfg, annotated, trace); w.job.Some? ==> w.job.value.uid + 1 == w.nextUid
  {
    hide Next;
    if trace.After? {
      RunNumbersJobs(cfg, annotated, trace.before);
      NextNumber(cfg, Run(cfg, annotated, trace.before), trace.step);
    }
  }

  lemma {:induction false} ReplacementsCount(cfg: Config, annotated: bool, trace: Trace<Step>, more: seq<Step>)
    ensures Run(cfg, annotated, Extend(trace, more)).nextUid == Run(cfg, annotated, trace).nextUid + Replacements(more)
    decreases |more|
  {
    if more != [] {
      NextNumber(cfg, Run(cfg, annotated, trace), more[0]);
      hide Next;
      ReplacementsCount(cfg, annotated, After(trace, more[0]), more[1..]);
    }
  }

  lemma NextNumber(cfg: Config, w: World, step: Step)
    requires |w.versions| > 0
    ensures Next(cfg, w, step).nextUid == w.nextUid + if step.JobReplaced? then 1 else 0
    ensures var n := Next(cfg, w, step);
      n.job.Some? ==>
        if step.JobReplaced? then n.job.value.uid + 1 == n.nextUid
        else w.job.Some? && n.job.value.uid == w.job.value.uid
  {
    if IsEnvironment(step) {
      hide Controller;
    } else {
      ControllerLeavesJobs(cfg, w, step);
      hide Controller;
    }
  }

  lemma ControllerLeavesJobs(cfg: Config, w: World, step: Step)
    requires |w.versions| > 0
    ensures var n := Controller(cfg, w, step); n.nextUid == w.nextUid && n.job == w.job
  {
    hide IsFinalReadOf;
  }

  lemma SameInstanceIff(cfg: Config, annotated: bool, trace: Trace<Step>, more: seq<Step>)
    requires Run(cfg, annotated, trace).job.Some? && Run(cfg, annotated, Extend(trace, more)).job.Some?
    ensures Run(cfg, annotated, Extend(trace, more)).job.value.uid == Run(cfg, annotated, trace).job.value.uid <==>
      Replacements(more) == 0
  {
    hide Run;
    RunNumbersJobs(cfg, annotated, trace);
    RunNumbersJobs(cfg, annotated, Extend(trace, more));
    ReplacementsCount(cfg, annotated, trace, more);
  }

  /** The step that completes a measurement from the full log is a final read for the Job it finds. */
  lemma CompletingRead(cfg: Config, w: World, step: Step)
    requires |w.versions| > 0 && Last(w.versions).complete.None?
    requires Last(Next(cfg, w, step).versions).complete == Some(FromFullLog)
    ensures var n := Next(cfg, w, step);
      && n.job.Some? && n.finalReads != [] && Last(n.finalReads).uid == n.job.value.uid
      && FromRead(cfg, n, Last(n.versions), Last(n.finalReads))
  {
    OnlyFinalReadCompletes(cfg, w, step);
    hide IsFinalReadOf, Next;
  }

  lemma OnlyFinalReadCompletes(cfg: Config, w: World, step: Step)
    requires |w.versions| > 0 && Last(w.versions).complete.None?
    requires Last(Next(cfg, w, step).versions).complete == Some(FromFullLog)
    ensures step.FinalRead? && For(w, Succeeded)
    ensures Next(cfg, w, step) == DoFinalRead(cfg, w, step.view, step.pod, step.results, step.lost)
  {
    hide DoFinalRead, Measures;
  }

  /**
    With or without the annotation: once a step has completed the measurement from the full log, the
    results stay as they are, and the instance they judge later on is the one whose log they were read
    from if and only if the Job was not replaced since. Without the annotation they do judge it.
  */
  lemma JudgedInstanceIff(cfg: Config, annotated: bool, trace: Trace<Step>, step: Step, more: seq<Step>)
    requires Last(Run(cfg, annotated, trace).versions).complete.None?
    requires Last(Run(cfg, annotated, After(trace, step)).versions).complete == Some(FromFullLog)
    requires Run(cfg, annotated, Extend(After(trace, step), more)).job.Some?
    ensures var n := Run(cfg, annotated, After(trace, step));
      var later := Run(cfg, annotated, Extend(After(trace, step), more));
      && n.finalReads != [] && FromRead(cfg, n, Last(n.versions), Last(n.finalReads))
      && Outcome(Last(later.versions)) == Outcome(Last(n.versions))
      && (Last(n.finalReads).uid == later.job.value.uid <==> Replacements(more) == 0)
      && (!annotated ==> Judged(later, later.job.value.uid))
  {
    hide Next, FromRead;
    CompletingRead(cfg, Run(cfg, annotated, trace), step);
    var longer := After(trace, step);
    CompleteIsFinal(cfg, annotated, longer, more);
    SameInstanceIff(cfg, annotated, longer, more);
    AnnotationIsFixed(cfg, annotated, Extend(longer, more));
    HasResults(cfg, Run(cfg, annotated, longer));
  }

  lemma HasResults(cfg: Config, n: World)
    requires |n.versions| > 0 && n.finalReads != [] && FromRead(cfg, n, Last(n.versions), Last(n.finalReads))
    ensures Last(n.versions).results != []
  {
  }

  /** A sample, or the note about a missing profile, of a Job that runs. */
  predicate MeasuresAgain(w: World, step: Step) {
    && For(w, Running) && (step.Sample? || step.NoteProfile?)
    && !step.lost && Reads(w, step.view) && (step.Sample? ==> step.view == |w.versions| - 1)
  }

  predicate Waits(w: World)
    requires |w.versions| > 0
  {
    Last(w.versions).measuring.Waiting? && Last(w.versions).complete.None?
  }

  lemma WaitHeldStepIff(cfg: Config, w: World, step: Step)
    requires |w.versions| > 0 && Waits(w)
    ensures var n := Next(cfg, w, step);
      Last(n.versions).complete.Some? || Last(n.versions).measuring == Last(w.versions).measuring <==>
      !MeasuresAgain(w, step)
  {
    hide IsFinalReadOf;
  }

  /** Until the measurement completes, the start of the wait stays as it is. */
  ghost predicate WaitHeld(cfg: Config, annotated: bool, trace: Trace<Step>, more: seq<Step>)
    decreases |more|
  {
    more != [] ==>
      var w, longer := Run(cfg, annotated, trace), After(trace, more[0]);
      var n := Run(cfg, annotated, longer);
      || Last(n.versions).complete.Some?
      || (Last(n.versions).measuring == Last(w.versions).measuring && WaitHeld(cfg, annotated, longer, more[1..]))
  }

  ghost predicate NeverMeasuresAgain(cfg: Config, annotated: bool, trace: Trace<Step>, more: seq<Step>)
    decreases |more|
  {
    more != [] ==>
      var longer := After(trace, more[0]);
      && !MeasuresAgain(Run(cfg, annotated, trace), more[0])
      && (Last(Run(cfg, annotated, longer).versions).complete.None? ==>
            NeverMeasuresAgain(cfg, annotated, longer, more[1..]))
  }

  /**
    With or without the annotation: the wait is kept until completion if and only if no Job that
    still runs is measured in the meantime. For an annotated measurement none is (WaitIsFixed).
  */
  lemma {:induction false} WaitHeldIff(cfg: Config, annotated: bool, trace: Trace<Step>, more: seq<Step>)
    requires Waits(Run(cfg, annotated, trace))
    ensures WaitHeld(cfg, annotated, trace, more) <==> NeverMeasuresAgain(cfg, annotated, trace, more)
    decreases |more|
  {
    hide Next, MeasuresAgain;
    if more != [] {
      WaitHeldStepIff(cfg, Run(cfg, annotated, trace), more[0]);
      var longer := After(trace, more[0]);
      var n := Run(cfg, annotated, longer);
      if Last(n.versions).complete.None? && Last(n.versions).measuring.Waiting? {
        WaitHeldIff(cfg, annotated, longer, more[1..]);
      }
    }
  }

  lemma Then(cfg: Config, trace: Trace<Step>, step: Step) returns (longer: Trace<Step>)
    ensures Run(cfg, false, longer) == Next(cfg, Run(cfg, false, trace), step)
  {
    longer := After(trace, step);
  }

  lemma FirstInstanceSucceeds(cfg: Config, log: seq<LogPager.Line>) returns (trace: Trace<Step>)
    ensures Run(cfg, false, trace) == World(
      [Status([], Unset, None)], None, Some(Job(0, Succeeded)), 1, [log], [], 0, None, None)
  {
    assert Run(cfg, false, Start) == Initial(false);
    hide Run, Controller;
    trace := Then(cfg, Start, PodFinishes(log));
    trace := Then(cfg, trace, JobEnds(false));
    assert [] + [log] == [log];
  }

  /** The first instance has succeeded, and its log is read in full. */
  lemma FirstInstanceMeasured(cfg: Config, log: seq<LogPager.Line>, results: seq<Result>) returns (trace: Trace<Step>)
    requires IsFinalReadOf(cfg, results, log) && results != []
    ensures var w := Run(cfg, false, trace);
      && w.annotation == None && w.nextUid == 1 && w.finalReads == [Read(0, 0)]
      && Last(w.versions) == Status(results, Inactive, Some(FromFullLog))
  {
    hide Run, IsFinalReadOf;
    trace := FirstInstanceSucceeds(cfg, log);
    trace := Then(cfg, trace, FinalRead(0, 0, results, false));
    assert [] + [Read(0, 0)] == [Read(0, 0)];
  }

  /** A measurement without the annotation may judge a Job instance that succeeded by the log of an earlier one. */
  lemma UnannotatedMayJudgeAnother(
    cfg: Config, log: seq<LogPager.Line>, results: seq<Result>)
    returns (trace: Trace<Step>)
    requires IsFinalReadOf(cfg, results, log) && results != []
    ensures var w := Run(cfg, false, trace);
      && w.job == Some(Job(1, Succeeded)) && Judged(w, 1)
      && w.finalReads == [Read(0, 0)] && Last(w.versions).results == results
  {
    hide Run, IsFinalReadOf;
    trace := FirstInstanceMeasured(cfg, log, results);
    trace := Then(cfg, trace, JobReplaced);
    trace := Then(cfg, trace, JobEnds(false));
  }

  lemma FirstInstanceWaits(cfg: Config) returns (trace: Trace<Step>)
    requires cfg.grace > 0
    ensures Run(cfg, false, trace) == World(
      [Status([], Unset, None), Status([], Waiting(0), None)],
      None, Some(Job(0, Succeeded)), 1, [], [], 0, Some(0), None)
  {
    assert Run(cfg, false, Start) == Initial(false);
    hide Run, IsFinalReadOf;
    trace := Then(cfg, Start, JobEnds(false));
    trace := Then(cfg, trace, FinalReadFails(0, true, false));
  }

  /** Nor does its wait stay fixed: a sample of the next instance ends it. */
  lemma UnannotatedWaitMayEnd(cfg: Config) returns (trace: Trace<Step>)
    requires cfg.grace > 0
    ensures var w := Run(cfg, false, trace);
      && |w.versions| == 3 && w.versions[1].measuring == Waiting(0) && w.versions[2] == Status([], Active, None)
  {
    hide Run, IsFinalReadOf;
    trace := FirstInstanceWaits(cfg);
    trace := Then(cfg, trace, JobReplaced);
    trace := Then(cfg, trace, Sample(1, [], false));
  }
}
