/** The rollup watermarks: which usage buckets `roll_usage` recomputes, and how late news about a job
    moves the watermarks back. */
module Rollup {
  import opened Wrappers
  import opened HourUsage

  /** `global_last_rollup`, the row of the last-ran table, the job rows, and the buckets whose stored usage
      (in one column) does not reflect those rows, each named by its start. */
  datatype State = State(last: int, hourly: int, daily: int, monthly: int, jobs: map<int, Job>,
                         hours: iset<int>, days: iset<int>, months: iset<int>)

  // ----- rolling -----

  ghost function Outside(stale: iset<int>, start: int, end: int): iset<int> {
    iset b | b in stale && !(start <= b < end)
  }

  ghost predicate HoldsStale(fine: iset<int>, floor: int -> int, b: int) {
    exists f :: f in fine && floor(f) == b
  }

  /** A coarse bucket is recomputed from fine ones: it is right afterwards unless one of those is stale. */
  ghost function Recomputed(coarse: iset<int>, start: int, end: int, fine: iset<int>, floor: int -> int): iset<int> {
    iset b | b in coarse && (!(start <= b < end) || HoldsStale(fine, floor, b))
  }

  /** The time a roll ends at, before it is cut down to an hour. */
  function RollTime(sentEnd: int, now: int): int {
    if sentEnd != 0 then sentEnd else now
  }

  function RollFrom(sentStart: int, mark: int): int {
    if sentStart != 0 then sentStart else mark
  }

  /** A watermark after a roll of its buckets from `start` to `end`. */
  function NewMark(mark: int, start: int, end: int, sentEnd: int): int {
    if end > start && sentEnd == 0 then end else mark
  }

  /** `roll_usage(sentStart, sentEnd)` at time `now`, all three rollups succeeding. */
  ghost function Roll(c: Calendar, s: State, sentStart: int, sentEnd: int, now: int): State {
    var hourStart := c.hour(RollFrom(sentStart, s.hourly));
    var dayStart := c.day(RollFrom(sentStart, s.daily));
    var monthStart := c.month(RollFrom(sentStart, s.monthly));
    var hourEnd := c.hour(RollTime(sentEnd, now));
    var dayEnd := c.day(hourEnd);
    var monthEnd := c.month(dayEnd);
    var hours := Outside(s.hours, hourStart, hourEnd);
    var days := Recomputed(s.days, dayStart, dayEnd, hours, c.day);
    var months := Recomputed(s.months, monthStart, monthEnd, days, c.month);
    State(hourEnd,
          NewMark(s.hourly, hourStart, hourEnd, sentEnd),
          NewMark(s.daily, dayStart, dayEnd, sentEnd),
          NewMark(s.monthly, monthStart, monthEnd, sentEnd),
          s.jobs, hours, days, months)
  }

  // ----- news about jobs -----

  /** What `job_start` is told; `indexed` when the controller knows the row's index already. */
  datatype Start = Start(id: int, indexed: bool, begin: int, submit: int, start: int, share: Share, reqCpus: int)

  /** The time a job start is judged by: its start, else its begin, else its submit time. */
  function CheckTime(e: Start): int {
    if e.start != 0 then e.start else if e.begin != 0 then e.begin else e.submit
  }

  predicate KnownTimes(jobs: map<int, Job>, e: Start) {
    e.id in jobs && jobs[e.id].eligible == e.begin && jobs[e.id].start == e.start
  }

  /** The row after the INSERT or UPDATE of `job_start`; an INSERT that meets the row already there keeps
      its times and CPUs, an UPDATE of a missing row changes nothing. */
  function StartedRow(jobs: map<int, Job>, e: Start): Option<Job> {
    if e.id in jobs then
      if e.indexed then Some(jobs[e.id].(start := e.start, share := e.share))
      else Some(jobs[e.id].(share := e.share.(cpus := jobs[e.id].share.cpus)))
    else if e.indexed then None
    else Some(Job(if e.begin != 0 then e.begin else e.submit, e.start, 0, e.share, e.reqCpus, []))
  }

  /** A job that ends before it started never started. */
  function EndedRow(j: Job, start: int, end: int): Job {
    j.(start := if start > end then 0 else start, end := end)
  }

  function Row(jobs: map<int, Job>, id: int): Option<Job> {
    if id in jobs then Some(jobs[id]) else None
  }

  /** A row is written: the hours it now books otherwise, and their days and months, are stale. */
  ghost function Put(c: Calendar, col: Column, s: State, id: int, j: Job): State {
    var hours := TouchedHours(c, col, Row(s.jobs, id), Some(j));
    s.(jobs := s.jobs[id := j],
       hours := s.hours + hours,
       days := s.days + (iset h | h in hours :: c.day(h)),
       months := s.months + (iset h | h in hours :: c.month(h)))
  }

  ghost function PullBack(s: State, time: int): State {
    if time < s.last then s.(last := time, hourly := time, daily := time, monthly := time) else s
  }

  /** The watermarks are left alone for a job already known with these times. */
  ghost function StartPulled(s: State, e: Start): State {
    if CheckTime(e) < s.last && KnownTimes(s.jobs, e) then s else PullBack(s, CheckTime(e))
  }

  ghost function JobStart(c: Calendar, col: Column, s: State, e: Start): State {
    match StartedRow(s.jobs, e)
    case None => StartPulled(s, e)
    case Some(j) => Put(c, col, StartPulled(s, e), e.id, j)
  }

  /** `job_complete`: without an end time nothing happens; a job the controller has no index of and the
      table no row is started first. */
  ghost function EndPulled(c: Calendar, col: Column, s: State, e: Start, end: int): State {
    var p := PullBack(s, end);
    if e.indexed || e.id in s.jobs then p else JobStart(c, col, p, e)
  }

  ghost function JobEnd(c: Calendar, col: Column, s: State, e: Start, end: int): State {
    if end == 0 then s
    else
      var q := EndPulled(c, col, s, e, end);
      if e.id in q.jobs then Put(c, col, q, e.id, EndedRow(q.jobs[e.id], e.start, end)) else q
  }

  /** News about a job.  The last two pull nothing back. */
  datatype News =
    | Started(job: Start)
    | Ended(job: Start, end: int)
    | Resumed(id: int, pause: Pause)
    | Flushed(id: int, time: int)

  ghost function Hear(c: Calendar, col: Column, s: State, e: News): State {
    match e
    case Started(job) => JobStart(c, col, s, job)
    case Ended(job, end) => JobEnd(c, col, s, job, end)
    case Resumed(id, pause) => if id in s.jobs then Put(c, col, s, id, WithPause(s.jobs[id], pause)) else s
    case Flushed(id, time) =>
      if id in s.jobs && s.jobs[id].end == 0 then Put(c, col, s, id, s.jobs[id].(end := time)) else s
  }

  // ----- what holds between the calls -----

  ghost predicate CoveredFrom(f: int -> int, mark: int, stale: iset<int>) {
    forall b <- stale :: f(mark) <= b
  }

  /** Every stale bucket starts no earlier than the floor of its watermark. */
  ghost predicate Covered(c: Calendar, s: State) {
    && CoveredFrom(c.hour, s.hourly, s.hours)
    && CoveredFrom(c.day, s.daily, s.days)
    && CoveredFrom(c.month, s.monthly, s.months)
  }

  /** Covered, and so that news keeps it covered: news not pulling back lies behind the watermark, and
      news that does pulls it to no later than any stale bucket. */
  ghost predicate Level(f: int -> int, mark: int, last: int, stale: iset<int>) {
    && f(mark) <= f(last)
    && CoveredFrom(f, mark, stale) && CoveredFrom(f, last - 1, stale)
  }

  ghost predicate Safe(c: Calendar, s: State) {
    && Level(c.hour, s.hourly, s.last, s.hours)
    && Level(c.day, s.daily, s.last, s.days)
    && Level(c.month, s.monthly, s.last, s.months)
  }

  /** The coarser watermarks lag behind the hourly one. */
  ghost predicate Nested(c: Calendar, s: State) {
    c.day(s.daily) <= c.day(s.hourly) && c.month(s.monthly) <= c.month(s.hourly)
  }

  ghost predicate Fit(c: Calendar, s: State) {
    Safe(c, s) && Nested(c, s)
  }

  /** No bucket that ends by the floor of `time` is stale. */
  ghost predicate UpToDate(c: Calendar, s: State, time: int) {
    CoveredFrom(c.hour, time, s.hours) && CoveredFrom(c.day, time, s.days) && CoveredFrom(c.month, time, s.months)
  }

  lemma FloorsBelow(c: Calendar, a: int, b: int)
    requires GoodCalendar(c) && c.hour(a) <= c.hour(b)
    ensures c.day(a) <= c.day(b) && c.month(a) <= c.month(b)
  {
    assert c.day(c.hour(a)) <= c.day(c.hour(b));
    assert c.month(c.day(a)) <= c.month(c.day(b));
  }

  lemma FloorsOfHour(c: Calendar, t: int)
    requires GoodCalendar(c)
    ensures c.hour(c.hour(t)) == c.hour(t)
    ensures c.day(c.hour(t)) == c.day(t) == c.day(c.day(t))
    ensures c.month(c.hour(t)) == c.month(t) == c.month(c.day(t)) == c.month(c.month(t))
  {
    assert c.month(c.day(c.hour(t))) == c.month(c.hour(t));
  }

  // ----- when a roll is safe -----

  /** The first bucket that can be stale. */
  function FirstStale(f: int -> int, mark: int, last: int): int {
    Max(f(mark), f(last - 1))
  }

  /** The condition a roll has to meet for the buckets of one size, on the arguments and the watermarks. */
  predicate LevelRolls(f: int -> int, mark: int, last: int, sentStart: int, sentEnd: int, time: int, newLast: int) {
    var start, end := f(RollFrom(sentStart, mark)), f(time);
    var moves := end > start && sentEnd == 0;
    && (moves || f(mark) <= end)
    && (start <= FirstStale(f, mark, last) || (!moves && f(newLast - 1) <= FirstStale(f, mark, last)))
  }

  predicate RollOk(c: Calendar, s: State, sentStart: int, sentEnd: int, now: int) {
    var time := RollTime(sentEnd, now);
    && LevelRolls(c.hour, s.hourly, s.last, sentStart, sentEnd, time, c.hour(time))
    && LevelRolls(c.day, s.daily, s.last, sentStart, sentEnd, time, c.hour(time))
    && LevelRolls(c.month, s.monthly, s.last, sentStart, sentEnd, time, c.hour(time))
  }

  /** One size of buckets: those left stale were outside the roll, or lie behind what it could set right. */
  lemma LevelRolled(f: int -> int, mark: int, last: int, stale: iset<int>, sentStart: int, sentEnd: int, time: int,
                    newLast: int, rest: iset<int>)
    requires Floor(f) && Level(f, mark, last, stale) && f(newLast) == f(time)
    requires LevelRolls(f, mark, last, sentStart, sentEnd, time, newLast)
    requires var start, end := f(RollFrom(sentStart, mark)), f(time);
      forall b <- rest :: b in stale && (start <= b < end ==> f(newLast - 1) <= b && (sentEnd == 0 ==> end <= b))
    ensures Level(f, NewMark(mark, f(RollFrom(sentStart, mark)), f(time), sentEnd), newLast, rest)
  {
    var start, end := f(RollFrom(sentStart, mark)), f(time);
    assert f(end) == end && f(newLast - 1) <= f(newLast);
  }

  /** A stale fine bucket keeps a coarse one stale only behind the end of the roll. */
  lemma CoarseFollows(f: int -> int, g: int -> int, mark: int, coarseMark: int, sentStart: int, sentEnd: int, time: int,
                      newLast: int, fine: iset<int>, b: int)
    requires Floor(f) && Floor(g) && (forall t {:trigger g(f(t))} :: g(f(t)) == g(t)) && f(newLast) == f(time)
    requires Level(f, NewMark(mark, f(RollFrom(sentStart, mark)), f(time), sentEnd), newLast, fine)
    requires HoldsStale(fine, g, b)
    requires g(RollFrom(sentStart, coarseMark)) <= b
    requires sentStart == 0 ==> CoveredFrom(f, mark, fine)
    ensures g(newLast - 1) <= b && (sentEnd == 0 ==> g(time) <= b)
  {
    var h :| h in fine && g(h) == b;
    assert g(f(newLast - 1)) <= g(h);
    assert g(f(time)) == g(time) && f(f(time)) == f(time);
    if f(time) <= h {
      assert g(f(time)) <= g(h);
    } else if sentStart != 0 && f(time) <= f(sentStart) {
      assert g(f(time)) <= g(f(sentStart)) == g(sentStart);
    }
  }

  /** Of coarse buckets too, when the fine ones are in order. */
  lemma CoarseRolled(f: int -> int, g: int -> int, mark: int, coarseMark: int, last: int, stale: iset<int>,
                     sentStart: int, sentEnd: int, time: int, newLast: int, fine: iset<int>)
    requires Floor(f) && Floor(g) && (forall t {:trigger g(f(t))} :: g(f(t)) == g(t))
    requires f(newLast) == f(time) && g(newLast) == g(time)
    requires Level(f, NewMark(mark, f(RollFrom(sentStart, mark)), f(time), sentEnd), newLast, fine)
    requires sentStart == 0 ==> CoveredFrom(f, mark, fine)
    requires Level(g, coarseMark, last, stale) && LevelRolls(g, coarseMark, last, sentStart, sentEnd, time, newLast)
    ensures Level(g, NewMark(coarseMark, g(RollFrom(sentStart, coarseMark)), g(time), sentEnd), newLast,
                  Recomputed(stale, g(RollFrom(sentStart, coarseMark)), g(time), fine, g))
    ensures CoveredFrom(g, coarseMark, Recomputed(stale, g(RollFrom(sentStart, coarseMark)), g(time), fine, g))
  {
    var start := g(RollFrom(sentStart, coarseMark));
    var rest := Recomputed(stale, start, g(time), fine, g);
    forall b | start <= b && HoldsStale(fine, g, b)
      ensures g(newLast - 1) <= b && (sentEnd == 0 ==> g(time) <= b)
    {
      CoarseFollows(f, g, mark, coarseMark, sentStart, sentEnd, time, newLast, fine, b);
    }
    LevelRolled(g, coarseMark, last, stale, sentStart, sentEnd, time, newLast, rest);
  }

  lemma StillCovered(f: int -> int, mark: int, last: int, stale: iset<int>, rest: iset<int>)
    requires Level(f, mark, last, stale) && rest <= stale
    ensures CoveredFrom(f, mark, rest)
  {
  }

  lemma HoursRolled(c: Calendar, s: State, sentStart: int, sentEnd: int, now: int)
    requires GoodCalendar(c) && Safe(c, s) && RollOk(c, s, sentStart, sentEnd, now)
    ensures var t := Roll(c, s, sentStart, sentEnd, now);
      Level(c.hour, t.hourly, t.last, t.hours) && CoveredFrom(c.hour, s.hourly, t.hours)
  {
    var time, t := RollTime(sentEnd, now), Roll(c, s, sentStart, sentEnd, now);
    LevelRolled(c.hour, s.hourly, s.last, s.hours, sentStart, sentEnd, time, t.last, t.hours);
    StillCovered(c.hour, s.hourly, s.last, s.hours, t.hours);
  }

  lemma RollKeepsSafe(c: Calendar, s: State, sentStart: int, sentEnd: int, now: int)
    requires GoodCalendar(c) && Safe(c, s) && RollOk(c, s, sentStart, sentEnd, now)
    ensures Safe(c, Roll(c, s, sentStart, sentEnd, now))
  {
    var time, t := RollTime(sentEnd, now), Roll(c, s, sentStart, sentEnd, now);
    FloorsOfHour(c, time);
    HoursRolled(c, s, sentStart, sentEnd, now);
    hide LevelRolls, Level, NewMark, CoveredFrom, RollFrom, Recomputed, Outside;
    CoarseRolled(c.hour, c.day, s.hourly, s.daily, s.last, s.days, sentStart, sentEnd, time, t.last, t.hours);
    CoarseRolled(c.day, c.month, s.daily, s.monthly, s.last, s.months, sentStart, sentEnd, time, t.last, t.days);
  }

  /** A roll that meets its condition leaves the state safe, with the watermarks nested; one from the
      watermarks on leaves every bucket before its end up to date. */
  lemma RollKeepsFit(c: Calendar, s: State, sentStart: int, sentEnd: int, now: int)
    requires GoodCalendar(c) && Fit(c, s)
    requires RollOk(c, s, sentStart, sentEnd, now)
    ensures Fit(c, Roll(c, s, sentStart, sentEnd, now))
    ensures sentStart == 0 ==> UpToDate(c, Roll(c, s, sentStart, sentEnd, now), RollTime(sentEnd, now))
  {
    FloorsOfHour(c, RollTime(sentEnd, now));
    RollKeepsSafe(c, s, sentStart, sentEnd, now);
    RollKeepsNested(c, s, sentStart, sentEnd, now);
    RolledUpToDate(c, s, sentEnd, now);
    hide RollOk, UpToDate, Nested, NewMark, RollFrom, Recomputed, Outside;
  }

  lemma MarkStaysBehind(f: int -> int, g: int -> int, mark: int, coarseMark: int, sentStart: int, now: int)
    requires Floor(f) && Floor(g) && (forall t {:trigger g(f(t))} :: g(f(t)) == g(t)) && g(coarseMark) <= g(mark)
    requires f(now) > f(RollFrom(sentStart, mark)) || f(mark) <= f(now)
    requires g(now) > g(RollFrom(sentStart, coarseMark)) || g(coarseMark) <= g(now)
    ensures g(NewMark(coarseMark, g(RollFrom(sentStart, coarseMark)), g(now), 0))
         <= g(NewMark(mark, f(RollFrom(sentStart, mark)), f(now), 0))
  {
    assert g(f(now)) == g(now) && g(f(mark)) == g(mark) && g(g(now)) == g(now);
    if sentStart != 0 && f(now) <= f(sentStart) {
      assert g(f(now)) <= g(f(sentStart)) == g(sentStart);
    }
    if f(now) <= f(mark) {
      assert g(f(now)) <= g(f(mark));
    }
  }

  lemma MonthOfHour(c: Calendar, t: int)
    requires GoodCalendar(c)
    ensures c.month(c.hour(t)) == c.month(t)
  {
    FloorsOfHour(c, t);
  }

  lemma RollKeepsNested(c: Calendar, s: State, sentStart: int, sentEnd: int, now: int)
    requires GoodCalendar(c) && Nested(c, s) && (sentEnd == 0 ==> RollOk(c, s, sentStart, sentEnd, now))
    ensures Nested(c, Roll(c, s, sentStart, sentEnd, now))
  {
    var time := RollTime(sentEnd, now);
    FloorsOfHour(c, time);
    forall t {:trigger c.month(c.hour(t))}
      ensures c.month(c.hour(t)) == c.month(t)
    {
      MonthOfHour(c, t);
    }
    if sentEnd == 0 {
      MarkStaysBehind(c.hour, c.day, s.hourly, s.daily, sentStart, now);
      MarkStaysBehind(c.hour, c.month, s.hourly, s.monthly, sentStart, now);
    }
  }

  lemma RolledUpToDate(c: Calendar, s: State, sentEnd: int, now: int)
    requires GoodCalendar(c) && Covered(c, s)
    ensures UpToDate(c, Roll(c, s, 0, sentEnd, now), RollTime(sentEnd, now))
  {
    var time := RollTime(sentEnd, now);
    var t := Roll(c, s, 0, sentEnd, now);
    FloorsOfHour(c, time);
    assert CoveredFrom(c.hour, time, t.hours);
    forall b | b in t.days
      ensures c.day(time) <= b
    {
      if h :| h in t.hours && c.day(h) == b {
        assert c.day(c.hour(time)) <= c.day(h);
      }
    }
    forall b | b in t.months
      ensures c.month(time) <= b
    {
      if d :| d in t.days && c.month(d) == b {
        assert c.month(c.day(time)) <= c.month(d);
      }
    }
  }

  // ----- and only then -----

  ghost predicate SameMarks(s: State, u: State) {
    s.last == u.last && s.hourly == u.hourly && s.daily == u.daily && s.monthly == u.monthly && s.jobs == u.jobs
  }

  lemma LevelRollFails(f: int -> int, mark: int, last: int, sentStart: int, sentEnd: int, time: int, newLast: int,
                       rest: iset<int>)
    requires Floor(f) && f(mark) <= f(last) && f(newLast) == f(time)
    requires !LevelRolls(f, mark, last, sentStart, sentEnd, time, newLast)
    requires var first, start := FirstStale(f, mark, last), f(RollFrom(sentStart, mark));
      !(start <= first < f(time)) ==> first in rest
    ensures Level(f, mark, last, iset{FirstStale(f, mark, last)})
    ensures !Level(f, NewMark(mark, f(RollFrom(sentStart, mark)), f(time), sentEnd), newLast, rest)
  {
    var first := FirstStale(f, mark, last);
    assert f(f(mark)) == f(mark) && f(f(time)) == f(time);
  }

  /** The condition is exact: with these watermarks, and whatever is stale, the roll leaves a safe state
      if and only if it is met. */
  lemma RollKeepsFitIff(c: Calendar, s: State, sentStart: int, sentEnd: int, now: int)
    requires GoodCalendar(c) && Fit(c, s)
    ensures RollOk(c, s, sentStart, sentEnd, now) <==>
      forall u: State {:trigger Fit(c, u)} :: SameMarks(s, u) && Fit(c, u) ==>
        Fit(c, Roll(c, u, sentStart, sentEnd, now))
  {
    if RollOk(c, s, sentStart, sentEnd, now) {
      forall u: State | SameMarks(s, u) && Fit(c, u)
        ensures Fit(c, Roll(c, u, sentStart, sentEnd, now))
      {
        RollKeepsFit(c, u, sentStart, sentEnd, now);
      }
    } else {
      var u := BadForRoll(c, s, sentStart, sentEnd, now);
      assert Fit(c, u);
    }
  }

  lemma BadForRoll(c: Calendar, s: State, sentStart: int, sentEnd: int, now: int) returns (u: State)
    requires GoodCalendar(c) && Fit(c, s) && !RollOk(c, s, sentStart, sentEnd, now)
    ensures SameMarks(s, u) && Fit(c, u) && !Safe(c, Roll(c, u, sentStart, sentEnd, now))
  {
    var time := RollTime(sentEnd, now);
    FloorsOfHour(c, time);
    u := s.(hours := iset{}, days := iset{}, months := iset{});
    if !LevelRolls(c.hour, s.hourly, s.last, sentStart, sentEnd, time, c.hour(time)) {
      u := u.(hours := iset{FirstStale(c.hour, s.hourly, s.last)});
      LevelRollFails(c.hour, s.hourly, s.last, sentStart, sentEnd, time, c.hour(time),
                     Roll(c, u, sentStart, sentEnd, now).hours);
    } else if !LevelRolls(c.day, s.daily, s.last, sentStart, sentEnd, time, c.hour(time)) {
      u := u.(days := iset{FirstStale(c.day, s.daily, s.last)});
      LevelRollFails(c.day, s.daily, s.last, sentStart, sentEnd, time, c.hour(time),
                     Roll(c, u, sentStart, sentEnd, now).days);
    } else {
      u := u.(months := iset{FirstStale(c.month, s.monthly, s.last)});
      LevelRollFails(c.month, s.monthly, s.last, sentStart, sentEnd, time, c.hour(time),
                     Roll(c, u, sentStart, sentEnd, now).months);
    }
  }

  lemma LevelFromMark(f: int -> int, mark: int, last: int, sentEnd: int, time: int, newLast: int)
    ensures LevelRolls(f, mark, last, 0, sentEnd, time, newLast) <==>
      f(mark) <= f(time) || (sentEnd == 0 && f(time) > f(mark))
  {
  }

  /** From the watermarks on, with or without an end given: the roll must not end in an hour before that
      of the hourly watermark. */
  lemma RollFromMarksIff(c: Calendar, s: State, sentEnd: int, now: int)
    requires GoodCalendar(c) && Fit(c, s)
    ensures RollOk(c, s, 0, sentEnd, now) <==> c.hour(s.hourly) <= c.hour(RollTime(sentEnd, now))
    ensures sentEnd == 0 && s.last <= now ==> RollOk(c, s, 0, sentEnd, now)
  {
    var time := RollTime(sentEnd, now);
    LevelFromMark(c.hour, s.hourly, s.last, sentEnd, time, c.hour(time));
    LevelFromMark(c.day, s.daily, s.last, sentEnd, time, c.hour(time));
    LevelFromMark(c.month, s.monthly, s.last, sentEnd, time, c.hour(time));
    hide LevelRolls;
    if c.hour(s.hourly) <= c.hour(time) {
      FloorsBelow(c, s.hourly, time);
    }
  }

  /** A start given without an end passes over what is stale before it. */
  lemma LostByGivenStart(c: Calendar, s: State, sentStart: int, now: int, b: int)
    requires GoodCalendar(c) && sentStart != 0 && b in s.hours && b < c.hour(sentStart) < c.hour(now)
    ensures !Covered(c, Roll(c, s, sentStart, 0, now))
  {
    assert b in Roll(c, s, sentStart, 0, now).hours && c.hour(c.hour(now)) == c.hour(now);
  }

  // ----- when news is safe -----

  /** The first hour news may touch. */
  function Mark(c: Calendar, s: State): int {
    FirstStale(c.hour, s.hourly, s.last)
  }

  lemma PullBackKeepsFit(c: Calendar, s: State, time: int)
    requires GoodCalendar(c) && Fit(c, s)
    ensures Fit(c, PullBack(s, time))
    ensures Mark(c, PullBack(s, time)) <= c.hour(time)
  {
  }

  lemma JobsStay(s: State, time: int)
    ensures PullBack(s, time).jobs == s.jobs
  {
  }

  ghost function Added(c: Calendar, s: State, hours: iset<int>): State {
    s.(hours := s.hours + hours,
       days := s.days + (iset h | h in hours :: c.day(h)),
       months := s.months + (iset h | h in hours :: c.month(h)))
  }

  lemma AddedLevel(f: int -> int, mark: int, last: int, stale: iset<int>, more: iset<int>)
    requires Level(f, mark, last, stale)
    ensures Level(f, mark, last, stale + more) <==> CoveredFrom(f, mark, more) && CoveredFrom(f, last - 1, more)
  {
    assert forall b <- more :: b in stale + more;
  }

  lemma AddedKeepsFitIff(c: Calendar, s: State, hours: iset<int>)
    requires GoodCalendar(c) && Fit(c, s)
    ensures Fit(c, Added(c, s, hours)) <==> forall h <- hours :: Mark(c, s) <= h
  {
    var days, months := iset h | h in hours :: c.day(h), iset h | h in hours :: c.month(h);
    AddedLevel(c.hour, s.hourly, s.last, s.hours, hours);
    AddedLevel(c.day, s.daily, s.last, s.days, days);
    AddedLevel(c.month, s.monthly, s.last, s.months, months);
    MarkCovers(c, s, hours);
    if forall h <- hours :: Mark(c, s) <= h {
      AddedCoarse(c, s, hours);
    }
    hide Level, GoodCalendar, CoveredFrom, Mark;
  }

  lemma MarkCovers(c: Calendar, s: State, hours: iset<int>)
    ensures (forall h <- hours :: Mark(c, s) <= h) <==>
      CoveredFrom(c.hour, s.hourly, hours) && CoveredFrom(c.hour, s.last - 1, hours)
  {
  }

  lemma AddedCoarse(c: Calendar, s: State, hours: iset<int>)
    requires GoodCalendar(c) && Nested(c, s) && forall h <- hours :: Mark(c, s) <= h
    ensures var days, months := iset h | h in hours :: c.day(h), iset h | h in hours :: c.month(h);
      && CoveredFrom(c.day, s.daily, days) && CoveredFrom(c.day, s.last - 1, days)
      && CoveredFrom(c.month, s.monthly, months) && CoveredFrom(c.month, s.last - 1, months)
  {
    forall h | h in hours
      ensures c.day(s.daily) <= c.day(h) && c.day(s.last - 1) <= c.day(h)
      ensures c.month(s.monthly) <= c.month(h) && c.month(s.last - 1) <= c.month(h)
    {
      HourBelow(c, s.hourly, h);
      HourBelow(c, s.last - 1, h);
    }
  }

  lemma HourBelow(c: Calendar, t: int, h: int)
    requires GoodCalendar(c) && c.hour(t) <= h
    ensures c.day(t) <= c.day(h) && c.month(t) <= c.month(h)
  {
    FloorsOfHour(c, t);
  }

  lemma PutIsAdded(c: Calendar, col: Column, s: State, id: int, j: Job)
    ensures Fit(c, Put(c, col, s, id, j)) == Fit(c, Added(c, s, TouchedHours(c, col, Row(s.jobs, id), Some(j))))
  {
    hide TouchedHours, Row;
  }

  lemma MarkIsHour(c: Calendar, s: State)
    requires GoodCalendar(c)
    ensures c.hour(Mark(c, s)) == Mark(c, s)
  {
  }

  /** Writing a row keeps the state safe exactly when the row books the same up to the mark. */
  lemma PutKeepsFitIff(c: Calendar, col: Column, s: State, id: int, j: Job)
    requires GoodCalendar(c) && Fit(c, s)
    ensures Fit(c, Put(c, col, s, id, j)) <==> SameBefore(c, col, Row(s.jobs, id), Some(j), Mark(c, s))
  {
    var hours := TouchedHours(c, col, Row(s.jobs, id), Some(j));
    PutIsAdded(c, col, s, id, j);
    MarkIsHour(c, s);
    hide *;
    AddedKeepsFitIff(c, s, hours);
    TouchedFrom(c, col, Row(s.jobs, id), Some(j), Mark(c, s));
  }

  /** ... which is a comparison of the times on record with the new ones. */
  lemma TimelyPutIff(c: Calendar, col: Column, s: State, id: int, j: Job)
    requires GoodCalendar(c) && Fit(c, s) && SamePauses(Row(s.jobs, id), Some(j))
    ensures SameUpTo(c, col, Row(s.jobs, id), Some(j), Mark(c, s)) ==> Fit(c, Put(c, col, s, id, j))
    ensures PlainPauses(Row(s.jobs, id), Some(j)) && Fit(c, Put(c, col, s, id, j)) ==>
      SameUpTo(c, col, Row(s.jobs, id), Some(j), Mark(c, s))
  {
    var a, b, mark := Row(s.jobs, id), Some(j), Mark(c, s);
    hide Fit, SameUpTo, SameBefore, PlainPauses, Put, Mark;
    PutKeepsFitIff(c, col, s, id, j);
    if SameUpTo(c, col, a, b, mark) {
      SameUpToSuffices(c, col, a, b, mark);
    }
    if PlainPauses(a, b) && Fit(c, Put(c, col, s, id, j)) {
      SameUpToIsNeeded(c, col, a, b, mark);
    }
  }

  ghost predicate StartTimely(c: Calendar, col: Column, s: State, e: Start) {
    match StartedRow(s.jobs, e)
    case None => true
    case Some(j) => SameUpTo(c, col, Row(s.jobs, e.id), Some(j), Mark(c, StartPulled(s, e)))
  }

  /** The condition news has to meet: before the hour of the watermarks as it leaves them, the row books
      the same as before.  All of it are times the controller and the database know. */
  ghost predicate Timely(c: Calendar, col: Column, s: State, e: News) {
    match e
    case Started(job) => StartTimely(c, col, s, job)
    case Ended(job, end) =>
      end == 0 ||
      (var p := PullBack(s, end);
       if job.id in s.jobs then
         SameUpTo(c, col, Row(s.jobs, job.id), Some(EndedRow(s.jobs[job.id], job.start, end)), Mark(c, p))
       else
         var row := StartedRow(s.jobs, job);
         job.indexed ||
         (StartTimely(c, col, p, job)
          && SameUpTo(c, col, row, Some(EndedRow(row.value, job.start, end)), Mark(c, StartPulled(p, job)))))
    case Resumed(id, pause) => id in s.jobs ==> PauseFree(c, col, s.jobs[id], pause, Mark(c, s))
    case Flushed(id, time) =>
      id in s.jobs && s.jobs[id].end == 0 ==>
        SameUpTo(c, col, Row(s.jobs, id), Some(s.jobs[id].(end := time)), Mark(c, s))
  }

  /** No two suspensions of a job overlap. */
  ghost predicate AllApart(jobs: map<int, Job>) {
    forall id <- jobs :: PausesApart(jobs[id].pauses)
  }

  /** Nor do they with one that is told. */
  ghost predicate ToldApart(jobs: map<int, Job>, e: News) {
    AllApart(jobs) && (e.Resumed? && e.id in jobs ==> PausesApart(WithPause(jobs[e.id], e.pause).pauses))
  }

  lemma SamePausesPlain(jobs: map<int, Job>, id: int, j: Job)
    requires if id in jobs then j.pauses == jobs[id].pauses else j.pauses == []
    ensures SamePauses(Row(jobs, id), Some(j)) && (AllApart(jobs) ==> PlainPauses(Row(jobs, id), Some(j)))
  {
  }

  lemma StartKeepsFitIff(c: Calendar, col: Column, s: State, e: Start)
    requires GoodCalendar(c) && Fit(c, s)
    ensures StartTimely(c, col, s, e) ==> Fit(c, JobStart(c, col, s, e))
    ensures AllApart(s.jobs) && Fit(c, JobStart(c, col, s, e)) ==> StartTimely(c, col, s, e)
  {
    StartPulledKeepsFit(c, s, e);
    if StartedRow(s.jobs, e).Some? {
      StartPutIff(c, col, s, e);
    }
  }

  lemma StartPutIff(c: Calendar, col: Column, s: State, e: Start)
    requires GoodCalendar(c) && Fit(c, StartPulled(s, e)) && StartedRow(s.jobs, e).Some?
    ensures var p, a, j := StartPulled(s, e), Row(s.jobs, e.id), StartedRow(s.jobs, e);
      && (SameUpTo(c, col, a, j, Mark(c, p)) ==> Fit(c, Put(c, col, p, e.id, j.value)))
      && (AllApart(s.jobs) && Fit(c, Put(c, col, p, e.id, j.value)) ==> SameUpTo(c, col, a, j, Mark(c, p)))
  {
    assert StartPulled(s, e).jobs == s.jobs;
    SamePausesPlain(s.jobs, e.id, StartedRow(s.jobs, e).value);
    hide *;
    TimelyPutIff(c, col, StartPulled(s, e), e.id, StartedRow(s.jobs, e).value);
  }

  /** Stale buckets are only added by writing a row. */
  lemma PutWasFit(c: Calendar, col: Column, s: State, id: int, j: Job)
    requires Fit(c, Put(c, col, s, id, j))
    ensures Fit(c, s)
  {
    var t := Put(c, col, s, id, j);
    assert s.hours <= t.hours && s.days <= t.days && s.months <= t.months;
  }

  lemma EndOfKnownIff(c: Calendar, col: Column, s: State, e: Start, end: int)
    requires GoodCalendar(c) && Fit(c, s) && end != 0 && e.id in s.jobs
    ensures Timely(c, col, s, Ended(e, end)) ==> Fit(c, JobEnd(c, col, s, e, end))
    ensures AllApart(s.jobs) && Fit(c, JobEnd(c, col, s, e, end)) ==> Timely(c, col, s, Ended(e, end))
  {
    PullBackKeepsFit(c, s, end);
    SamePausesPlain(s.jobs, e.id, EndedRow(s.jobs[e.id], e.start, end));
    hide Fit, SameUpTo, AllApart, PlainPauses, SamePauses, Put, Mark, Row;
    TimelyPutIff(c, col, PullBack(s, end), e.id, EndedRow(s.jobs[e.id], e.start, end));
  }

  /** Two writes of a row, one after the other. */
  lemma SecondPutIff(c: Calendar, col: Column, p: State, q: State, id: int, first: Job, second: Job)
    requires GoodCalendar(c) && q == Put(c, col, p, id, first) && first.pauses == second.pauses == []
    requires Fit(c, p) && id !in p.jobs
    ensures Fit(c, Put(c, col, q, id, second)) <==>
      && SameUpTo(c, col, None, Some(first), Mark(c, p))
      && SameUpTo(c, col, Some(first), Some(second), Mark(c, p))
  {
    assert Row(p.jobs, id) == None && Row(q.jobs, id) == Some(first) && Mark(c, q) == Mark(c, p);
    assert PlainPauses(None, Some(first)) && PlainPauses(Some(first), Some(second));
    hide Fit, SameUpTo, Put, Mark, GoodCalendar, PausesApart, PlainPauses, Row;
    TimelyPutIff(c, col, p, id, first);
    if Fit(c, Put(c, col, q, id, second)) {
      PutWasFit(c, col, q, id, second);
    }
    if Fit(c, q) {
      TimelyPutIff(c, col, q, id, second);
    }
  }

  /** The end of an unknown job in terms of its two writes. */
  lemma EndOfUnknownIs(c: Calendar, col: Column, s: State, e: Start, end: int)
    requires end != 0 && e.id !in s.jobs && !e.indexed
    ensures var j, t := StartedRow(s.jobs, e).value, StartPulled(PullBack(s, end), e);
      && j.pauses == [] && e.id !in t.jobs
      && JobEnd(c, col, s, e, end) == Put(c, col, Put(c, col, t, e.id, j), e.id, EndedRow(j, e.start, end))
      && (Timely(c, col, s, Ended(e, end)) <==>
            SameUpTo(c, col, None, Some(j), Mark(c, t)) &&
              SameUpTo(c, col, Some(j), Some(EndedRow(j, e.start, end)), Mark(c, t)))
  {
    hide SameUpTo, Mark, TouchedHours;
  }

  lemma StartPulledKeepsFit(c: Calendar, s: State, e: Start)
    requires GoodCalendar(c) && Fit(c, s)
    ensures Fit(c, StartPulled(s, e))
  {
    PullBackKeepsFit(c, s, CheckTime(e));
  }

  lemma EndOfUnknownIff(c: Calendar, col: Column, s: State, e: Start, end: int)
    requires GoodCalendar(c) && Fit(c, s) && end != 0 && e.id !in s.jobs && !e.indexed
    ensures Timely(c, col, s, Ended(e, end)) <==> Fit(c, JobEnd(c, col, s, e, end))
  {
    EndOfUnknownIs(c, col, s, e, end);
    hide *;
    var p := PullBack(s, end);
    var j, t := StartedRow(s.jobs, e).value, StartPulled(p, e);
    PullBackKeepsFit(c, s, end);
    StartPulledKeepsFit(c, p, e);
    SecondPutIff(c, col, t, Put(c, col, t, e.id, j), e.id, j, EndedRow(j, e.start, end));
  }

  /** News that meets its condition leaves the state safe, and as long as no suspensions of a job overlap,
      only such news does. */
  lemma NewsKeepsFitIff(c: Calendar, col: Column, s: State, e: News)
    requires GoodCalendar(c) && Fit(c, s)
    ensures Timely(c, col, s, e) ==> Fit(c, Hear(c, col, s, e))
    ensures ToldApart(s.jobs, e) ==> (Timely(c, col, s, e) <==> Fit(c, Hear(c, col, s, e)))
  {
    hide Fit, GoodCalendar, SameUpTo, Put, Mark, PullBack, PauseFree, PausesApart, PlainPauses, SamePauses, Row;
    match e
    case Started(job) => StartKeepsFitIff(c, col, s, job);
    case Ended(job, end) =>
      if end != 0 {
        if job.id in s.jobs {
          EndOfKnownIff(c, col, s, job, end);
        } else if job.indexed {
          PullBackKeepsFit(c, s, end);
          assert JobEnd(c, col, s, job, end) == PullBack(s, end) by { JobsStay(s, end); }
        } else {
          EndOfUnknownIff(c, col, s, job, end);
        }
      }
    case Resumed(id, pause) =>
      if id in s.jobs {
        ResumedKeepsFitIff(c, col, s, id, pause);
      }
    case Flushed(id, time) =>
      if id in s.jobs && s.jobs[id].end == 0 {
        SamePausesPlain(s.jobs, id, s.jobs[id].(end := time));
        TimelyPutIff(c, col, s, id, s.jobs[id].(end := time));
      }
  }

  lemma ResumedKeepsFitIff(c: Calendar, col: Column, s: State, id: int, pause: Pause)
    requires GoodCalendar(c) && Fit(c, s) && id in s.jobs
    ensures var j, t := s.jobs[id], Put(c, col, s, id, WithPause(s.jobs[id], pause));
      && (PauseFree(c, col, j, pause, Mark(c, s)) ==> Fit(c, t))
      && (PausesApart(WithPause(j, pause).pauses) && Fit(c, t) ==> PauseFree(c, col, j, pause, Mark(c, s)))
  {
    assert Row(s.jobs, id) == Some(s.jobs[id]);
    hide Fit, Put, Mark, PauseFree, SameBefore, WithPause, Row;
    PutKeepsFitIff(c, col, s, id, WithPause(s.jobs[id], pause));
    PauseFreeIff(c, col, s.jobs[id], pause, Mark(c, s));
  }
}
