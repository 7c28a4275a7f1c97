/** Runs of rolls and news: what keeps every stale bucket behind its watermark, column by column, and runs
    in which one is lost. */
module RollupRuns {
  import opened Wrappers
  import opened HourUsage
  import opened Rollup

  // ----- the invariant is what runs need -----

  /** A job nobody has heard of before starts at `time`. */
  function FreshStart(id: int, time: int): Start {
    Start(id, false, time, time, time, Share(0, 0, 0, 1), 1)
  }

  lemma FreshStartTouches(c: Calendar, jobs: map<int, Job>, id: int, time: int)
    requires GoodCalendar(c) && id !in jobs && time != 0
    ensures c.hour(time) in TouchedHours(c, Allocated, None, StartedRow(jobs, FreshStart(id, time)))
  {
    var j := StartedRow(jobs, FreshStart(id, time));
    assert Counted(c, Allocated, j, time);
    assert !SameAt(c, Allocated, None, j, time);
  }

  /** Of the states with no stale bucket before its watermark, the safe ones are exactly those in which
      none comes about by the start of a new job, whenever that was. */
  lemma SafeIffFreshStartsCovered(c: Calendar, s: State, id: int)
    requires GoodCalendar(c) && Nested(c, s) && Covered(c, s) && 1 < s.last && id !in s.jobs
    ensures Safe(c, s) <==>
      forall time {:trigger FreshStart(id, time)} :: 0 < time ==>
        Covered(c, JobStart(c, Allocated, s, FreshStart(id, time)))
  {
    if Safe(c, s) {
      forall time | 0 < time
        ensures Covered(c, JobStart(c, Allocated, s, FreshStart(id, time)))
      {
        OrdinaryIsTimely(c, s, Started(FreshStart(id, time)));
        NewsKeepsFitIff(c, Allocated, s, Started(FreshStart(id, time)));
      }
    } else {
      var time := UncoveringStart(c, s, id);
      assert !Covered(c, JobStart(c, Allocated, s, FreshStart(id, time)));
    }
  }

  lemma StartAtLastUncovers(c: Calendar, s: State, id: int)
    requires GoodCalendar(c) && 0 < s.last && id !in s.jobs
    requires c.hour(s.last) < c.hour(s.hourly) || c.day(s.last) < c.day(s.daily) || c.month(s.last) < c.month(s.monthly)
    ensures !Covered(c, JobStart(c, Allocated, s, FreshStart(id, s.last)))
  {
    var time := s.last;
    FreshStartTouches(c, s.jobs, id, time);
    FloorsOfHour(c, time);
    var t := JobStart(c, Allocated, s, FreshStart(id, time));
    assert t.hourly == s.hourly && t.daily == s.daily && t.monthly == s.monthly;
    hide TouchedHours, GoodCalendar;
    assert c.hour(time) in t.hours && c.day(c.hour(time)) in t.days && c.month(c.hour(time)) in t.months;
  }

  lemma UncoveringStart(c: Calendar, s: State, id: int) returns (time: int)
    requires GoodCalendar(c) && Covered(c, s) && !Safe(c, s) && 1 < s.last && id !in s.jobs
    ensures 0 < time && !Covered(c, JobStart(c, Allocated, s, FreshStart(id, time)))
  {
    if c.hour(s.last) < c.hour(s.hourly) || c.day(s.last) < c.day(s.daily) || c.month(s.last) < c.month(s.monthly) {
      time := s.last;
      StartAtLastUncovers(c, s, id);
    } else {
      time := s.last - 1;
      hide TouchedHours, GoodCalendar;
    }
  }

  // ----- news that is always in time for the allocated column -----

  /** A start is heard of once, or again without change, and an end with the start on record. */
  predicate Ordinary(jobs: map<int, Job>, e: News) {
    match e
    case Started(job) =>
      || job.id !in jobs
      || Waiting(jobs, job.id)
      || StartedRow(jobs, job) == Some(jobs[job.id])
    case Ended(job, end) =>
      || end == 0 || job.id !in jobs
      || (jobs[job.id].end == 0 && jobs[job.id].start == job.start)
      || EndedRow(jobs[job.id], job.start, end) == jobs[job.id]
    case Resumed(_, _) => false
    case Flushed(_, _) => false
  }

  /** A row that gets its start, no earlier than `limit`, books nothing before it. */
  lemma StartsLate(c: Calendar, a: Option<Job>, j: Job, limit: int)
    requires (a.Some? ==> a.value.start == 0) && (j.start == 0 || limit <= j.start)
    ensures SameUpTo(c, Allocated, a, Some(j), limit)
  {
  }

  lemma MarkAfterStart(c: Calendar, s: State, e: Start)
    requires GoodCalendar(c) && Fit(c, s) && !KnownTimes(s.jobs, e)
    ensures Mark(c, StartPulled(s, e)) <= CheckTime(e)
  {
    PullBackKeepsFit(c, s, CheckTime(e));
  }

  lemma StartIsTimely(c: Calendar, s: State, e: Start)
    requires GoodCalendar(c) && Fit(c, s) && Ordinary(s.jobs, Started(e))
    ensures StartTimely(c, Allocated, s, e)
  {
    if !KnownTimes(s.jobs, e) {
      MarkAfterStart(c, s, e);
    }
    hide Fit, GoodCalendar, Mark, StartPulled, SameUpTo;
    var mark, j := Mark(c, StartPulled(s, e)), StartedRow(s.jobs, e);
    if j.Some? {
      if e.id in s.jobs && j == Some(s.jobs[e.id]) {
        SameRow(c, j.value, mark);
      } else {
        StartsLate(c, Row(s.jobs, e.id), j.value, mark);
      }
    }
  }

  predicate Waiting(jobs: map<int, Job>, id: int) {
    id in jobs && jobs[id].start == 0 && jobs[id].end == 0
  }

  lemma EndIsTimely(c: Calendar, j: Job, start: int, end: int, limit: int)
    requires end != 0 && j.end == 0 && j.start == start && limit <= end
    ensures SameUpTo(c, Allocated, Some(j), Some(EndedRow(j, start, end)), limit)
  {
  }

  lemma MarkAfterEnd(c: Calendar, s: State, e: Start, end: int)
    requires GoodCalendar(c) && Fit(c, s)
    ensures Mark(c, PullBack(s, end)) <= end && Mark(c, StartPulled(PullBack(s, end), e)) <= end
    ensures Fit(c, PullBack(s, end))
  {
    PullBackKeepsFit(c, s, end);
  }

  lemma KnownEndIsTimely(c: Calendar, s: State, e: Start, end: int)
    requires GoodCalendar(c) && Fit(c, s) && Ordinary(s.jobs, Ended(e, end)) && end != 0 && e.id in s.jobs
    ensures Timely(c, Allocated, s, Ended(e, end))
  {
    MarkAfterEnd(c, s, e, end);
    hide Fit, GoodCalendar, Mark, SameUpTo, EndedRow;
    var limit := Mark(c, PullBack(s, end));
    if s.jobs[e.id].end == 0 && s.jobs[e.id].start == e.start {
      EndIsTimely(c, s.jobs[e.id], e.start, end, limit);
    } else {
      SameRow(c, s.jobs[e.id], limit);
    }
  }

  lemma UnknownEndIsTimely(c: Calendar, s: State, e: Start, end: int)
    requires GoodCalendar(c) && Fit(c, s) && end != 0 && e.id !in s.jobs
    ensures Timely(c, Allocated, s, Ended(e, end))
  {
    if !e.indexed {
      var p := PullBack(s, end);
      MarkAfterEnd(c, s, e, end);
      StartIsTimely(c, p, e);
      EndOfUnknownIs(c, Allocated, s, e, end);
      StartOfUnknown(c, p, e);
      hide *;
      var j := StartedRow(s.jobs, e).value;
      EndIsTimely(c, j, e.start, end, Mark(c, StartPulled(p, e)));
    }
  }

  lemma StartOfUnknown(c: Calendar, s: State, e: Start)
    requires e.id !in s.jobs && !e.indexed && StartTimely(c, Allocated, s, e)
    ensures var j := StartedRow(s.jobs, e);
      j.Some? && j.value.end == 0 && j.value.start == e.start &&
        SameUpTo(c, Allocated, None, j, Mark(c, StartPulled(s, e)))
  {
  }

  lemma OrdinaryIsTimely(c: Calendar, s: State, e: News)
    requires GoodCalendar(c) && Fit(c, s) && Ordinary(s.jobs, e)
    ensures Timely(c, Allocated, s, e)
  {
    match e
    case Started(job) => StartIsTimely(c, s, job);
    case Ended(job, end) =>
      if end != 0 {
        if job.id in s.jobs {
          KnownEndIsTimely(c, s, job, end);
        } else {
          UnknownEndIsTimely(c, s, job, end);
        }
      }
  }

  lemma SameRow(c: Calendar, j: Job, limit: int)
    ensures SameUpTo(c, Allocated, Some(j), Some(j), limit)
  {
  }

  // ----- the reserved column -----

  /** What a row that stops waiting at `known` books against one that waits. */
  lemma ReservedFromEligible(c: Calendar, a: Job, j: Job, limit: int)
    requires GoodCalendar(c) && Known(a) == 0 && Known(j) != 0 && (j.end == 0 || j.end == Known(j))
    ensures SameUpTo(c, Reserved, Some(a), Some(j), limit) <==>
      j.share.resv != 0 || Known(j) <= j.eligible || limit <= j.eligible
  {
    HourReached(c, j.end, c.hour(j.end));
  }

  /** The start of a waiting job books reserved time from its eligible time on: that is in time exactly
      when the eligible time is not before the hour of the watermarks as the start leaves them. */
  lemma ReservedStartIff(c: Calendar, s: State, e: Start)
    requires GoodCalendar(c) && Fit(c, s) && Waiting(s.jobs, e.id) && e.indexed && e.start != 0
    ensures Timely(c, Reserved, s, Started(e)) <==>
      var eligible := s.jobs[e.id].eligible;
      e.share.resv != 0 || e.start <= eligible || Mark(c, PullBack(s, e.start)) <= eligible
  {
    ReservedFromEligible(c, s.jobs[e.id], StartedRow(s.jobs, e).value, Mark(c, PullBack(s, e.start)));
    hide Fit, GoodCalendar, Mark, SameUpTo, PullBack;
  }

  /** So does the end of a job that never started. */
  lemma ReservedEndIff(c: Calendar, s: State, e: Start, end: int)
    requires GoodCalendar(c) && Fit(c, s) && Waiting(s.jobs, e.id) && e.start == 0 < end
    ensures Timely(c, Reserved, s, Ended(e, end)) <==>
      var eligible := s.jobs[e.id].eligible;
      s.jobs[e.id].share.resv != 0 || end <= eligible || Mark(c, PullBack(s, end)) <= eligible
  {
    ReservedFromEligible(c, s.jobs[e.id], EndedRow(s.jobs[e.id], e.start, end), Mark(c, PullBack(s, end)));
    hide Fit, GoodCalendar, Mark, SameUpTo, PullBack;
  }

  lemma EndBooksNoWaiting(c: Calendar, j: Job, end: int, limit: int)
    requires GoodCalendar(c) && j.end == 0 && 0 < j.start <= end
    ensures SameUpTo(c, Reserved, Some(j), Some(EndedRow(j, j.start, end)), limit)
  {
    HourReached(c, end, c.hour(end));
  }

  /** The end of a job that has started touches no reserved time. */
  lemma ReservedEndOfStarted(c: Calendar, s: State, e: Start, end: int)
    requires GoodCalendar(c) && e.id in s.jobs
    requires s.jobs[e.id].end == 0 && s.jobs[e.id].start == e.start && 0 < e.start <= end
    ensures Timely(c, Reserved, s, Ended(e, end))
  {
    EndBooksNoWaiting(c, s.jobs[e.id], end, Mark(c, PullBack(s, end)));
    hide GoodCalendar, Mark, SameUpTo, PullBack;
  }

  // ----- any run -----

  datatype Event =
    | RollUsage(sentStart: int, sentEnd: int)
    | Told(news: News)

  /** An event and the time it is dealt with. */
  datatype Timed = Timed(now: int, event: Event)

  ghost function Next(c: Calendar, col: Column, s: State, e: Timed): State {
    match e.event
    case RollUsage(sentStart, sentEnd) => Roll(c, s, sentStart, sentEnd, e.now)
    case Told(news) => Hear(c, col, s, news)
  }

  /** Rolls and news meet their conditions, whatever the clock says. */
  ghost predicate Proper(c: Calendar, col: Column, s: State, e: Timed) {
    match e.event
    case RollUsage(sentStart, sentEnd) => RollOk(c, s, sentStart, sentEnd, e.now)
    case Told(news) => Timely(c, col, s, news)
  }

  ghost predicate ProperRun(c: Calendar, col: Column, s: State, run: seq<Timed>)
    decreases |run|
  {
    run == [] || (Proper(c, col, s, run[0]) && ProperRun(c, col, Next(c, col, s, run[0]), run[1..]))
  }

  ghost function After(c: Calendar, col: Column, s: State, run: seq<Timed>): State
    decreases |run|
  {
    if run == [] then s else After(c, col, Next(c, col, s, run[0]), run[1..])
  }

  /** A roll from the watermarks on has just been done: everything before its end is right. */
  ghost predicate JustRolled(c: Calendar, s: State, e: Timed) {
    e.event.RollUsage? && e.event.sentStart == 0 ==> UpToDate(c, s, RollTime(e.event.sentEnd, e.now))
  }

  /** An event that meets its condition keeps the state safe. */
  lemma NextIsFit(c: Calendar, col: Column, s: State, e: Timed)
    requires GoodCalendar(c) && Fit(c, s) && Proper(c, col, s, e)
    ensures Fit(c, Next(c, col, s, e)) && JustRolled(c, Next(c, col, s, e), e)
  {
    hide Safe, Nested, RollOk, Timely, GoodCalendar, UpToDate, Roll, Hear;
    match e.event
    case RollUsage(sentStart, sentEnd) => RollKeepsFit(c, s, sentStart, sentEnd, e.now);
    case Told(news) => NewsKeepsFitIff(c, col, s, news);
  }

  /** In either column, however long the run: no stale bucket starts before the floor of its watermark, and
      each roll from the watermarks on leaves every bucket before its end up to date. */
  lemma {:induction false} RunStaysCovered(c: Calendar, col: Column, s: State, run: seq<Timed>)
    requires GoodCalendar(c) && Fit(c, s) && ProperRun(c, col, s, run)
    ensures Covered(c, After(c, col, s, run)) && Safe(c, After(c, col, s, run))
    ensures run != [] ==> JustRolled(c, After(c, col, s, run), run[|run| - 1])
    decreases |run|
  {
    if run != [] {
      NextIsFit(c, col, s, run[0]);
      RunStaysCovered(c, col, Next(c, col, s, run[0]), run[1..]);
      assert |run| > 1 ==> run[1..][|run| - 2] == run[|run| - 1];
    }
  }

  /** What the controller and the daemon usually do: plain rolls, by a clock that does not go back, and starts
      and ends as they come. */
  ghost predicate UsualRun(c: Calendar, s: State, clock: int, run: seq<Timed>)
    decreases |run|
  {
    run == [] ||
    (&& clock <= run[0].now
     && (match run[0].event
         case RollUsage(sentStart, sentEnd) => sentStart == 0 == sentEnd
         case Told(news) => Ordinary(s.jobs, news))
     && UsualRun(c, Next(c, Allocated, s, run[0]), run[0].now, run[1..]))
  }

  /** For the allocated column every such run is proper, however late starts and ends are heard of. */
  lemma {:induction false} UsualRunIsProper(c: Calendar, s: State, clock: int, run: seq<Timed>)
    requires GoodCalendar(c) && Fit(c, s) && s.last <= clock && UsualRun(c, s, clock, run)
    ensures ProperRun(c, Allocated, s, run)
    decreases |run|
  {
    if run != [] {
      var e := run[0];
      match e.event {
        case RollUsage(sentStart, sentEnd) => RollFromMarksIff(c, s, 0, e.now);
        case Told(news) => OrdinaryIsTimely(c, s, news);
      }
      LastByTheClock(c, s, e);
      hide Fit, Timely, RollOk, GoodCalendar, Ordinary, Next;
      NextIsFit(c, Allocated, s, e);
      UsualRunIsProper(c, Next(c, Allocated, s, e), e.now, run[1..]);
    }
  }

  lemma LastByTheClock(c: Calendar, s: State, e: Timed)
    requires GoodCalendar(c) && s.last <= e.now && (e.event.RollUsage? ==> e.event.sentEnd == 0)
    requires e.event.Told? ==> e.event.news.Started? || e.event.news.Ended?
    ensures Next(c, Allocated, s, e).last <= e.now
  {
    hide TouchedHours, Outside, Recomputed;
  }

  // ----- the first roll of a process, and rolls with times given -----

  /** The stale buckets lie behind the watermarks, and these are not ahead of the clock. */
  ghost predicate ReadyToRoll(c: Calendar, s: State, now: int) {
    Covered(c, s) && Nested(c, s) && c.hour(s.hourly) <= c.hour(now)
  }

  /** The first plain roll of a process, whatever its variable in memory holds, makes the state safe. */
  lemma FirstRollIsFit(c: Calendar, s: State, now: int)
    requires GoodCalendar(c) && ReadyToRoll(c, s, now)
    ensures Fit(c, Roll(c, s, 0, 0, now)) && UpToDate(c, Roll(c, s, 0, 0, now), now)
  {
    FloorsOfHour(c, now);
    FloorsBelow(c, s.hourly, now);
    RolledUpToDate(c, s, 0, now);
    var t := Roll(c, s, 0, 0, now);
    LevelUpToDate(c.hour, s.hourly, now, c.hour(now), t.hours);
    LevelUpToDate(c.day, s.daily, now, c.hour(now), t.days);
    LevelUpToDate(c.month, s.monthly, now, c.hour(now), t.months);
    hide Outside, Recomputed, Level, CoveredFrom;
    assert c.day(t.hourly) == c.day(now) && c.month(t.hourly) == c.month(now);
  }

  lemma LevelUpToDate(f: int -> int, mark: int, now: int, newLast: int, stale: iset<int>)
    requires Floor(f) && f(newLast) == f(now) && f(mark) <= f(now) && CoveredFrom(f, now, stale)
    ensures Level(f, NewMark(mark, f(mark), f(now), 0), newLast, stale)
    ensures f(NewMark(mark, f(mark), f(now), 0)) == f(now)
  {
    assert f(f(now)) == f(now) && f(newLast - 1) <= f(newLast);
  }

  /** Before it, with 0 in memory, nothing is pulled back: the start of a new job is covered exactly when
      no watermark has passed its hour, day and month. */
  lemma NewsBeforeFirstRollIff(c: Calendar, s: State, id: int, time: int)
    requires GoodCalendar(c) && Covered(c, s) && s.last == 0 < time && id !in s.jobs
    ensures Covered(c, JobStart(c, Allocated, s, FreshStart(id, time))) <==>
      c.hour(s.hourly) <= c.hour(time) && c.day(s.daily) <= c.day(time) && c.month(s.monthly) <= c.month(time)
  {
    var hours := TouchedHours(c, Allocated, None, StartedRow(s.jobs, FreshStart(id, time)));
    FreshStartHours(c, s.jobs, id, time);
    FloorsOfHour(c, time);
    var t := JobStart(c, Allocated, s, FreshStart(id, time));
    assert t == Added(c, s, hours).(jobs := t.jobs);
    hide TouchedHours, FreshStart, JobStart, StartPulled, StartedRow;
    AddedCoveredIff(c, s, hours, time);
  }

  lemma AddedCoveredIff(c: Calendar, s: State, hours: iset<int>, time: int)
    requires GoodCalendar(c) && Covered(c, s) && c.hour(time) in hours && forall h <- hours :: c.hour(time) <= h
    ensures Covered(c, Added(c, s, hours)) <==>
      c.hour(s.hourly) <= c.hour(time) && c.day(s.daily) <= c.day(time) && c.month(s.monthly) <= c.month(time)
  {
    var t := Added(c, s, hours);
    FloorsOfHour(c, time);
    CoveredByHours(c, hours, time);
    hide GoodCalendar;
    assert c.hour(time) in t.hours && c.day(c.hour(time)) in t.days && c.month(c.hour(time)) in t.months;
  }

  lemma CoveredByHours(c: Calendar, hours: iset<int>, time: int)
    requires GoodCalendar(c) && forall h <- hours :: c.hour(time) <= h
    ensures forall h <- hours :: c.day(time) <= c.day(h) && c.month(time) <= c.month(h)
  {
    forall h | h in hours
      ensures c.day(time) <= c.day(h) && c.month(time) <= c.month(h)
    {
      HourBelow(c, time, h);
    }
  }

  /** The start of a new job touches the hour it starts in and none before. */
  lemma FreshStartHours(c: Calendar, jobs: map<int, Job>, id: int, time: int)
    requires GoodCalendar(c) && id !in jobs && time != 0
    ensures var hours := TouchedHours(c, Allocated, None, StartedRow(jobs, FreshStart(id, time)));
      c.hour(time) in hours && forall h <- hours :: c.hour(time) <= h
  {
    var j := StartedRow(jobs, FreshStart(id, time));
    FreshStartTouches(c, jobs, id, time);
    StartsLate(c, None, j.value, c.hour(time));
    SameUpToSuffices(c, Allocated, None, j, c.hour(time));
    TouchedFrom(c, Allocated, None, j, c.hour(time));
  }

  /** A roll to a given end leaves the variable in memory behind, where late starts no longer pull the
      watermarks back.  Later starts stay covered exactly when the end is not before the hour of the hourly
      watermark. */
  lemma RollToGivenEndIff(c: Calendar, s: State, sentEnd: int, now: int, id: int)
    requires GoodCalendar(c) && Fit(c, s) && sentEnd != 0 && 1 < c.hour(sentEnd) && id !in s.jobs
    ensures c.hour(s.hourly) <= c.hour(sentEnd) <==>
      forall time {:trigger FreshStart(id, time)} :: 0 < time ==>
        Covered(c, JobStart(c, Allocated, Roll(c, s, 0, sentEnd, now), FreshStart(id, time)))
  {
    var t := Roll(c, s, 0, sentEnd, now);
    RollKeepsNested(c, s, 0, sentEnd, now);
    GivenEndStaysCovered(c, s, sentEnd, now);
    SafeIffFreshStartsCovered(c, t, id);
    if c.hour(s.hourly) <= c.hour(sentEnd) {
      RollFromMarksIff(c, s, sentEnd, now);
      RollKeepsSafe(c, s, 0, sentEnd, now);
    } else {
      FloorsOfHour(c, sentEnd);
      assert !Level(c.hour, t.hourly, t.last, t.hours);
    }
  }

  lemma GivenEndStaysCovered(c: Calendar, s: State, sentEnd: int, now: int)
    requires Covered(c, s) && sentEnd != 0
    ensures Covered(c, Roll(c, s, 0, sentEnd, now))
  {
  }
}
