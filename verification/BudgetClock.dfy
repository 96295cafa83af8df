/**
  The pausable run-time budget of a Job (pkg/controller/job_controller.go, ADR-083).

  In memory a time is a number of nanoseconds; a status field stores whole seconds. The
  controller's clock does not run backwards.
*/
module BudgetClock {
  import opened Prelude

  const SECOND := 1_000_000_000

  /** Storing a time in a status field drops the fraction of a second. */
  function Stored(time: int): int { time / SECOND }

  /** The clock fields of Job.status, in whole seconds. */
  datatype Clock = Clock(start: Option<int>, blockedSince: Option<int>, resumed: Option<int>)

  const Fresh := Clock(None, None, None)

  /** What a status write does to the clock; `at` is the time the reconcile captured. */
  datatype Event =
    | Running(at: int)    // the workload is seen running
    | Blocked(at: int)    // a pod is seen unschedulable
    | Unblocked(at: int)  // no pod is unschedulable any more
    | Restarted(at: int)  // restartFromCheckpoint

  /** resumeFromSchedulingBlock, on values. */
  function Resume(c: Clock, now: int): Clock
    requires c.blockedSince.Some?
  {
    var start :=
      if c.start.None? then None else
      var pausedFrom := Max(c.blockedSince.value, c.start.value) * SECOND;
      var paused := now - pausedFrom;
      if paused > 0 then Some(Stored(c.start.value * SECOND + paused)) else c.start;
    Clock(start, None, Some(Stored(now)))
  }

  /**
    The callback of each write, applied to the stored Job. Because a conflict re-applies the
    callback to a Job the reconcile never saw, `Running` can meet a clock that is blocked.
  */
  function Apply(c: Clock, e: Event): Clock {
    match e
    case Running(at) => if c.start.Some? then c else c.(start := Some(Stored(at)))
    case Blocked(at) => if c.blockedSince.Some? then c else c.(blockedSince := Some(Stored(at)))
    case Unblocked(at) => if c.blockedSince.None? then c else Resume(c, at)
    case Restarted(_) => Fresh
  }

  /** The status object the reconciler edits in place. */
  class JobClock {
    var start: Option<int>
    var blockedSince: Option<int>
    var resumed: Option<int>

    function Value(): Clock reads this { Clock(start, blockedSince, resumed) }

    constructor ()
      ensures Value() == Fresh
    {
      start, blockedSince, resumed := None, None, None;
    }

    method ObserveRunning(now: int)
      modifies this
      ensures Value() == Apply(old(Value()), Running(now))
    {
      if start == None {
        start := Some(Stored(now));
      }
    }

    method MarkBlocked(now: int)
      modifies this
      ensures Value() == Apply(old(Value()), Blocked(now))
    {
      if blockedSince == None {
        blockedSince := Some(Stored(now));
      }
    }

    method ResumeFromSchedulingBlock(now: int)
      requires blockedSince.Some?
      modifies this
      ensures Value() == Apply(old(Value()), Unblocked(now))
    {
      if start.Some? {
        var pausedFrom := blockedSince.value * SECOND;
        if start.value > blockedSince.value {
          pausedFrom := start.value * SECOND;
        }
        var paused := now - pausedFrom;
        if paused > 0 {
          start := Some(Stored(start.value * SECOND + paused));
        }
      }
      blockedSince := None;
      resumed := Some(Stored(now));
    }

    method RestartFromCheckpoint()
      modifies this
      ensures Value() == Fresh
    {
      start := None;
      blockedSince := None;
      resumed := None;
    }
  }

  /** The budget the Workflow controller charges at second `now`: paused at the marker while one is set. */
  function Consumed(c: Clock, now: int): int
    requires c.start.Some?
  {
    Max(0, (if c.blockedSince.Some? then c.blockedSince.value else now) - c.start.value)
  }

  // ---- Reference: which seconds count, read off the history of writes ----

  /**
    What happened since the last restart: when the workload was first seen running, the blocked
    episodes that have ended, and the one that has not.
  */
  datatype History = History(first: Option<int>, episodes: seq<(int, int)>, open: Option<int>)

  const Empty := History(None, [], None)

  function Record(h: History, e: Event): History {
    match e
    case Running(at) => if h.first.Some? then h else h.(first := Some(Stored(at)))
    case Blocked(at) => if h.open.Some? then h else h.(open := Some(Stored(at)))
    case Unblocked(at) =>
      if h.open.None? then h
      else History(h.first, h.episodes + [(h.open.value, Stored(at))], None)
    case Restarted(_) => Empty
  }

  predicate InEpisode(h: History, second: int) {
    exists i :: 0 <= i < |h.episodes| && h.episodes[i].0 <= second < h.episodes[i].1
  }

  /** The seconds before `until`, since the workload first ran, that no ended episode covers. */
  function Unpaused(h: History, until: int): set<int> {
    if h.first.None? then {} else set s | s in Range(h.first.value, until) && !InEpisode(h, s)
  }

  /** The seconds before `now` during which the workload had been seen running and no marker was set. */
  function ActiveSeconds(h: History, now: int): set<int> {
    Unpaused(h, if h.open.Some? then Min(now, h.open.value) else now)
  }

  function Replay(events: seq<Event>): (Clock, History) {
    if events == [] then (Fresh, Empty)
    else
      var (c, h) := Replay(events[..|events| - 1]);
      (Apply(c, Last(events)), Record(h, Last(events)))
  }

  ghost predicate Chronological(events: seq<Event>) {
    forall i, j :: 0 <= i < j < |events| ==> events[i].at <= events[j].at
  }

  // ---- Proof ----

  /** Clock and history agree, up to second `last`. */
  ghost predicate Agree(c: Clock, h: History, last: int) {
    && h.open == c.blockedSince
    && (h.first.Some? <==> c.start.Some?)
    && (forall i :: 0 <= i < |h.episodes| ==> h.episodes[i].1 <= last)
    && (h.open.Some? ==> h.open.value <= last && forall i :: 0 <= i < |h.episodes| ==> h.episodes[i].1 <= h.open.value)
    && (c.start.Some? ==>
          && h.first.value <= last && c.start.value <= last
          && var upTo := if h.open.Some? then h.open.value else last;
             |Unpaused(h, upTo)| == Max(0, upTo - c.start.value))
    && (c.resumed.Some? ==> c.resumed.value <= last)
    && (forall i :: 0 <= i < |h.episodes| ==> c.resumed.Some? && h.episodes[i].1 <= c.resumed.value)
  }

  /** Past the last episode, every second counts. */
  lemma Extend(h: History, from: int, until: int)
    requires h.first.Some? && h.first.value <= from <= until
    requires forall i :: 0 <= i < |h.episodes| ==> h.episodes[i].1 <= from
    ensures |Unpaused(h, until)| == |Unpaused(h, from)| + until - from
  {
    assert Unpaused(h, until) == Unpaused(h, from) + Range(from, until);
  }

  /** Ending an episode removes exactly its own seconds. */
  lemma CloseEpisode(h: History, from: int, to: int)
    requires h.first.Some? && from <= to && h.first.value <= to
    ensures Unpaused(h.(episodes := h.episodes + [(from, to)]), to) == Unpaused(h, Min(from, to))
  {
    var closed := h.(episodes := h.episodes + [(from, to)]);
    forall s
      ensures InEpisode(closed, s) <==> InEpisode(h, s) || from <= s < to
    {
      if InEpisode(h, s) {
        var i :| 0 <= i < |h.episodes| && h.episodes[i].0 <= s < h.episodes[i].1;
        assert closed.episodes[i] == h.episodes[i];
      }
      assert closed.episodes[|h.episodes|] == (from, to);
    }
  }

  /** Shifting in nanoseconds and storing the result shifts by the stored times. */
  lemma StoredShift(seconds: int, pausedFrom: int, now: int)
    ensures Stored(seconds * SECOND + (now - pausedFrom * SECOND)) == seconds + Stored(now) - pausedFrom
  {
  }

  lemma StoredMonotone(a: int, b: int)
    requires a <= b
    ensures Stored(a) <= Stored(b)
  {
  }

  lemma StepRunning(c: Clock, h: History, last: int, e: Event)
    requires Agree(c, h, last) && last <= Stored(e.at) && e.Running?
    ensures Agree(Apply(c, e), Record(h, e), Stored(e.at))
  {
    var at := Stored(e.at);
    if h.first.Some? && h.open.None? {
      Extend(h, last, at);
    } else if h.first.None? {
      assert Unpaused(Record(h, e), if h.open.Some? then h.open.value else at) == {};
    }
  }

  lemma StepBlocked(c: Clock, h: History, last: int, e: Event)
    requires Agree(c, h, last) && last <= Stored(e.at) && e.Blocked?
    ensures Agree(Apply(c, e), Record(h, e), Stored(e.at))
  {
    var at, n, c' := Stored(e.at), Record(h, e), Apply(c, e);
    if h.open.None? {
      if h.first.Some? {
        Extend(h, last, at);
      }
      SameEpisodes(n, h, at);
    }
    hide Unpaused, InEpisode;
    assert n.episodes == h.episodes && c'.resumed == c.resumed && c'.start == c.start && n.first == h.first;
    forall i | 0 <= i < |n.episodes|
      ensures n.episodes[i].1 <= n.open.value <= at
      ensures c'.resumed.Some? && n.episodes[i].1 <= c'.resumed.value
    {
      assert n.episodes[i] == h.episodes[i];
    }
  }

  /** The shift of the start is as long as the episode that ends, as far as it lies after the start. */
  lemma ShiftedStart(c: Clock, h: History, last: int, e: Event)
    requires Agree(c, h, last) && last <= Stored(e.at) && e.Unblocked? && h.open.Some? && h.first.Some?
    ensures var n, at := Apply(c, e), Stored(e.at);
      && n.start == Some(c.start.value + at - Max(h.open.value, c.start.value)) && n.blockedSince == None
      && n.resumed == Some(at)
  {
    StoredShift(c.start.value, Max(c.blockedSince.value, c.start.value), e.at);
  }

  lemma ClosedSeconds(c: Clock, h: History, last: int, e: Event)
    requires Agree(c, h, last) && last <= Stored(e.at) && e.Unblocked? && h.open.Some? && h.first.Some?
    ensures |Unpaused(Record(h, e), Stored(e.at))| == Max(0, h.open.value - c.start.value)
  {
    var at := Stored(e.at);
    CloseEpisode(h, h.open.value, at);
    SameEpisodes(Record(h, e), h.(episodes := h.episodes + [(h.open.value, at)]), at);
    hide Unpaused;
  }

  lemma StepUnblocked(c: Clock, h: History, last: int, e: Event)
    requires Agree(c, h, last) && last <= Stored(e.at) && e.Unblocked?
    ensures Agree(Apply(c, e), Record(h, e), Stored(e.at))
  {
    if h.first.Some? && h.open.None? {
      Extend(h, last, Stored(e.at));
    } else if h.first.Some? {
      ShiftedStart(c, h, last, e);
      ClosedSeconds(c, h, last, e);
      hide Unpaused, Apply, Stored;
    }
  }

  lemma SameEpisodes(a: History, b: History, until: int)
    requires a.first == b.first && a.episodes == b.episodes
    ensures Unpaused(a, until) == Unpaused(b, until)
  {
    assert forall s :: InEpisode(a, s) <==> InEpisode(b, s);
  }

  lemma Step(c: Clock, h: History, last: int, e: Event)
    requires Agree(c, h, last) && last <= Stored(e.at)
    ensures Agree(Apply(c, e), Record(h, e), Stored(e.at))
  {
    match e
    case Running(_) => StepRunning(c, h, last, e);
    case Blocked(_) => StepBlocked(c, h, last, e);
    case Unblocked(_) => StepUnblocked(c, h, last, e);
    case Restarted(_) =>
  }

  lemma {:induction false} Run(events: seq<Event>)
    requires Chronological(events) && events != []
    ensures Agree(Replay(events).0, Replay(events).1, Stored(Last(events).at))
  {
    var init := events[..|events| - 1];
    if init == [] {
      Step(Fresh, Empty, Stored(Last(events).at), Last(events));
    } else {
      Run(init);
      StoredMonotone(Last(init).at, Last(events).at);
      Step(Replay(init).0, Replay(init).1, Stored(Last(init).at), Last(events));
    }
  }

  // ---- What every run keeps ----

  /**
    Budget conservation. After any number of blocked episodes and restarts, the budget charged
    is the number of seconds the workload had been seen running with no marker set: a block
    neither extends the budget nor uses it up.
  */
  lemma BudgetConserved(events: seq<Event>, now: int)
    requires Chronological(events)
    requires events != [] ==> Stored(Last(events).at) <= now
    ensures var (c, h) := Replay(events);
      && (c.start.Some? <==> h.first.Some?)
      && (c.start.Some? ==> Consumed(c, now) == |ActiveSeconds(h, now)|)
  {
    if events != [] {
      Run(events);
      var (c, h) := Replay(events);
      if h.first.Some? && h.open.None? {
        Extend(h, Stored(Last(events).at), now);
      }
    }
  }

  /** isJobTimedOut, for a Job that has a workload; `now` and `timeout` in nanoseconds. */
  predicate TimedOut(c: Clock, now: int, timeout: nat) {
    if c.blockedSince.Some? then
      || now - c.blockedSince.value * SECOND > timeout
      || (c.start.Some? && (c.blockedSince.value - c.start.value) * SECOND > timeout)
    else
      c.start.Some? && now - c.start.value * SECOND > timeout
  }

  /** The time the workload has been active: whole active seconds, and the begun one if it is active. */
  function ActiveTime(h: History, now: int): int {
    |ActiveSeconds(h, Stored(now))| * SECOND + if h.first.Some? && h.open.None? then now % SECOND else 0
  }

  /**
    A Job times out exactly when its active time exceeds the timeout, or when the episode it is in
    has by itself lasted longer than the timeout.
  */
  lemma TimeoutIsExact(events: seq<Event>, now: int, timeout: nat)
    requires Chronological(events)
    requires events != [] ==> Last(events).at <= now
    ensures var (c, h) := Replay(events);
      TimedOut(c, now, timeout) <==>
        || ActiveTime(h, now) > timeout
        || (h.open.Some? && now - h.open.value * SECOND > timeout)
  {
    if events != [] {
      StoredMonotone(Last(events).at, now);
      BudgetConserved(events, Stored(now));
      Run(events);
    }
  }

  /** startupStallAnchor, given the measurement's base time: a clamp over the two Job times. */
  method StartupStallAnchor(base: int, workloadStart: Option<int>, schedulingResumed: Option<int>) returns (since: int)
    ensures since >= base
    ensures workloadStart.Some? ==> since >= workloadStart.value
    ensures schedulingResumed.Some? ==> since >= schedulingResumed.value
    ensures since == base || Some(since) == workloadStart || Some(since) == schedulingResumed
  {
    since := base;
    var clamps := [workloadStart, schedulingResumed];
    for i := 0 to 2
      invariant since >= base
      invariant since == base || exists j :: 0 <= j < i && clamps[j] == Some(since)
      invariant forall j :: 0 <= j < i && clamps[j].Some? ==> since >= clamps[j].value
    {
      if clamps[i].Some? && clamps[i].value > since {
        since := clamps[i].value;
      }
    }
    assert workloadStart == clamps[0] && schedulingResumed == clamps[1];
  }

  /**
    The startup-stall budget holds no queued and no blocked second. The stall check runs only
    while no marker is set; every second from an anchor at or after both clamps is then active.
  */
  lemma StartupBudgetIsActive(events: seq<Event>, since: int, now: int, second: int)
    requires Chronological(events)
    requires var (c, h) := Replay(events);
      && c.blockedSince.None? && c.start.Some?
      && since >= c.start.value && (c.resumed.Some? ==> since >= c.resumed.value)
    requires since <= second < now
    ensures second in ActiveSeconds(Replay(events).1, now)
  {
    if events == [] {
      assert false;
    }
    Run(events);
    StartAfterFirst(events);
  }

  /** The stored start never precedes the second the workload was first seen running. */
  lemma {:induction false} StartAfterFirst(events: seq<Event>)
    requires Chronological(events)
    ensures var (c, h) := Replay(events); c.start.Some? && h.first.Some? ==> h.first.value <= c.start.value
  {
    if events != [] {
      var init := events[..|events| - 1];
      StartAfterFirst(init);
      if init != [] {
        Run(init);
      }
      var c := Replay(init).0;
      if Last(events).Unblocked? && c.start.Some? && c.blockedSince.Some? {
        StoredShift(c.start.value, Max(c.blockedSince.value, c.start.value), Last(events).at);
      }
    }
  }
}
