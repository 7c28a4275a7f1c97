/** What a roll, a start and an end leave in the job rows and the watermarks, column by column. */
module RollupNews {
  import opened Wrappers
  import opened HourUsage
  import opened Rollup

  ghost predicate OthersStay(jobs: map<int, Job>, id: int, after: map<int, Job>) {
    forall k {:trigger k in after} :: k != id ==> (k in after <==> k in jobs) && (k in jobs ==> after[k] == jobs[k])
  }

  ghost predicate MarksStay(s: State, t: State) {
    t.last == s.last && t.hourly == s.hourly && t.daily == s.daily && t.monthly == s.monthly
  }

  ghost predicate MarksAreAt(t: State, time: int) {
    t.last == time && t.hourly == time && t.daily == time && t.monthly == time
  }

  // ----- a start -----

  /** A known row gets the start, the account, the wckey, the reservation and the CPUs allocated when the
      controller knows its index; else its times and CPUs stay. */
  ghost predicate KnownStarted(was: Job, e: Start, j: Job) {
    && j.eligible == was.eligible && j.end == was.end && j.reqCpus == was.reqCpus && j.pauses == was.pauses
    && j.share.assoc == e.share.assoc && j.share.wckey == e.share.wckey && j.share.resv == e.share.resv
    && (e.indexed ==> j.start == e.start && j.share.cpus == e.share.cpus)
    && (!e.indexed ==> j.start == was.start && j.share.cpus == was.share.cpus)
  }

  /** A new row is eligible from the begin time on, or from its submission when it has none. */
  ghost predicate NewStarted(e: Start, j: Job) {
    && (e.begin != 0 ==> j.eligible == e.begin) && (e.begin == 0 ==> j.eligible == e.submit)
    && j.start == e.start && j.end == 0 && j.share == e.share && j.reqCpus == e.reqCpus && j.pauses == []
  }

  ghost predicate StartStored(jobs: map<int, Job>, e: Start, after: map<int, Job>) {
    && OthersStay(jobs, e.id, after)
    && (e.id in after <==> e.id in jobs || !e.indexed)
    && (e.id in jobs && e.id in after ==> KnownStarted(jobs[e.id], e, after[e.id]))
    && (e.id !in jobs && e.id in after ==> NewStarted(e, after[e.id]))
  }

  lemma StartStores(c: Calendar, col: Column, s: State, e: Start)
    ensures StartStored(s.jobs, e, JobStart(c, col, s, e).jobs)
  {
    hide TouchedHours;
  }

  /** The time the job is judged by is its start, before it starts its begin time, without one its
      submission. */
  ghost predicate JudgedBy(e: Start, time: int) {
    || (e.start != 0 && time == e.start)
    || (e.start == 0 && e.begin != 0 && time == e.begin)
    || (e.start == 0 && e.begin == 0 && time == e.submit)
  }

  /** The watermarks go back to that time when it was rolled already, unless the job is on record with
      these very times. */
  ghost predicate StartMarks(s: State, e: Start, t: State) {
    forall time :: JudgedBy(e, time) ==>
      if time < s.last && !(e.id in s.jobs && s.jobs[e.id].eligible == e.begin && s.jobs[e.id].start == e.start)
      then MarksAreAt(t, time)
      else MarksStay(s, t)
  }

  lemma StartMarksAre(c: Calendar, col: Column, s: State, e: Start)
    ensures StartMarks(s, e, JobStart(c, col, s, e))
  {
    hide TouchedHours;
  }

  // ----- an end -----

  /** The end is stored with the start, which is 0 when it lies behind the end; nothing else changes. */
  ghost predicate EndWritten(was: Job, start: int, end: int, j: Job) {
    && j.end == end && (start <= end ==> j.start == start) && (end < start ==> j.start == 0)
    && j.eligible == was.eligible && j.share == was.share && j.reqCpus == was.reqCpus && j.pauses == was.pauses
  }

  /** A job that is not on record is first stored as one that starts, unless the controller knows an index. */
  ghost predicate EndStored(jobs: map<int, Job>, e: Start, end: int, after: map<int, Job>) {
    && OthersStay(jobs, e.id, after)
    && (e.id in after <==> e.id in jobs || (!e.indexed && end != 0))
    && (e.id in jobs && e.id in after ==>
         if end == 0 then after[e.id] == jobs[e.id] else EndWritten(jobs[e.id], e.start, end, after[e.id]))
    && (e.id !in jobs && e.id in after ==>
         exists row: Job :: NewStarted(e, row) && EndWritten(row, e.start, end, after[e.id]))
  }

  lemma EndStores(c: Calendar, col: Column, s: State, e: Start, end: int)
    ensures EndStored(s.jobs, e, end, JobEnd(c, col, s, e, end).jobs)
  {
    hide TouchedHours;
    if end != 0 && e.id !in s.jobs && !e.indexed {
      var row := StartedRow(s.jobs, e).value;
      assert NewStarted(e, row) && EndWritten(row, e.start, end, JobEnd(c, col, s, e, end).jobs[e.id]);
    }
  }

  /** The watermarks go back to an end that was rolled already, and from there to the time of a start that
      is stored with it. */
  ghost predicate EndMarks(s: State, e: Start, end: int, t: State) {
    if end == 0 then MarksStay(s, t)
    else if e.indexed || e.id in s.jobs then (if end < s.last then MarksAreAt(t, end) else MarksStay(s, t))
    else
      forall time :: JudgedBy(e, time) ==>
        if time < end && time < s.last then MarksAreAt(t, time)
        else if end < s.last then MarksAreAt(t, end)
        else MarksStay(s, t)
  }

  lemma EndMarksAre(c: Calendar, col: Column, s: State, e: Start, end: int)
    ensures EndMarks(s, e, end, JobEnd(c, col, s, e, end))
  {
    hide TouchedHours;
  }

  // ----- what news makes stale -----

  ghost predicate IsStale(c: Calendar, t: State, x: int) {
    c.hour(x) in t.hours && c.day(x) in t.days && c.month(x) in t.months
  }

  /** Where a row now books a second otherwise, the hour, the day and the month of that second are stale. */
  ghost predicate ChangesAreStale(c: Calendar, col: Column, s: State, t: State) {
    && s.hours <= t.hours && s.days <= t.days && s.months <= t.months
    && forall id, x {:trigger SameAt(c, col, Row(s.jobs, id), Row(t.jobs, id), x)} ::
         !SameAt(c, col, Row(s.jobs, id), Row(t.jobs, id), x) ==> IsStale(c, t, x)
  }

  lemma NothingChanges(c: Calendar, col: Column, s: State, t: State)
    requires t.jobs == s.jobs && t.hours == s.hours && t.days == s.days && t.months == s.months
    ensures ChangesAreStale(c, col, s, t)
  {
  }

  lemma SameAsItself(c: Calendar, col: Column, j: Option<Job>, x: int)
    ensures SameAt(c, col, j, j, x)
  {
  }

  lemma PutMarks(c: Calendar, col: Column, s: State, id: int, j: Job, x: int)
    requires GoodCalendar(c) && !SameAt(c, col, Row(s.jobs, id), Some(j), x)
    ensures IsStale(c, Put(c, col, s, id, j), x)
  {
    assert c.hour(x) in TouchedHours(c, col, Row(s.jobs, id), Some(j));
    FloorsOfHour(c, x);
    hide TouchedHours, SameAt, GoodCalendar;
  }

  lemma PutRows(c: Calendar, col: Column, s: State, id: int, j: Job)
    ensures var t := Put(c, col, s, id, j);
      && s.hours <= t.hours && s.days <= t.days && s.months <= t.months && Row(t.jobs, id) == Some(j)
      && forall k :: k != id ==> Row(t.jobs, k) == Row(s.jobs, k)
  {
    hide TouchedHours;
  }

  lemma PutIsStale(c: Calendar, col: Column, s: State, id: int, j: Job)
    requires GoodCalendar(c)
    ensures ChangesAreStale(c, col, s, Put(c, col, s, id, j))
  {
    hide Put, Row, SameAt, GoodCalendar;
    PutRows(c, col, s, id, j);
    forall x | !SameAt(c, col, Row(s.jobs, id), Some(j), x)
      ensures IsStale(c, Put(c, col, s, id, j), x)
    {
      PutMarks(c, col, s, id, j, x);
    }
    forall k, x
      ensures SameAt(c, col, Row(s.jobs, k), Row(s.jobs, k), x)
    {
      SameAsItself(c, col, Row(s.jobs, k), x);
    }
  }

  lemma StaleInTurn(c: Calendar, col: Column, s: State, t: State, u: State)
    requires ChangesAreStale(c, col, s, t) && ChangesAreStale(c, col, t, u)
    ensures ChangesAreStale(c, col, s, u)
  {
    forall id, x | !SameAt(c, col, Row(s.jobs, id), Row(u.jobs, id), x)
      ensures IsStale(c, u, x)
    {
      var a, b, d := Row(s.jobs, id), Row(t.jobs, id), Row(u.jobs, id);
      assert !SameAt(c, col, a, b, x) || !SameAt(c, col, b, d, x);
    }
  }

  lemma NewsIsStale(c: Calendar, col: Column, s: State, e: News)
    requires GoodCalendar(c)
    ensures ChangesAreStale(c, col, s, Hear(c, col, s, e))
  {
    hide Put, ChangesAreStale, GoodCalendar;
    NothingChanges(c, col, s, s);
    match e
    case Started(job) => StartIsStale(c, col, s, job);
    case Ended(job, end) => EndIsStale(c, col, s, job, end);
    case Resumed(id, pause) =>
      if id in s.jobs {
        PutIsStale(c, col, s, id, WithPause(s.jobs[id], pause));
      }
    case Flushed(id, time) =>
      if id in s.jobs && s.jobs[id].end == 0 {
        PutIsStale(c, col, s, id, s.jobs[id].(end := time));
      }
  }

  lemma StartIsStale(c: Calendar, col: Column, s: State, e: Start)
    requires GoodCalendar(c)
    ensures ChangesAreStale(c, col, s, JobStart(c, col, s, e))
  {
    hide Put, ChangesAreStale, GoodCalendar, StartedRow;
    var p := StartPulled(s, e);
    NothingChanges(c, col, s, p);
    if StartedRow(s.jobs, e).Some? {
      PutIsStale(c, col, p, e.id, StartedRow(s.jobs, e).value);
      StaleInTurn(c, col, s, p, JobStart(c, col, s, e));
    }
  }

  lemma EndIsStale(c: Calendar, col: Column, s: State, e: Start, end: int)
    requires GoodCalendar(c)
    ensures ChangesAreStale(c, col, s, JobEnd(c, col, s, e, end))
  {
    hide Put, ChangesAreStale, GoodCalendar, JobStart;
    NothingChanges(c, col, s, s);
    if end != 0 {
      var p, q := PullBack(s, end), EndPulled(c, col, s, e, end);
      NothingChanges(c, col, s, p);
      if q != p {
        StartIsStale(c, col, p, e);
        StaleInTurn(c, col, s, p, q);
      }
      if e.id in q.jobs {
        var t := Put(c, col, q, e.id, EndedRow(q.jobs[e.id], e.start, end));
        PutIsStale(c, col, q, e.id, EndedRow(q.jobs[e.id], e.start, end));
        StaleInTurn(c, col, s, q, t);
      }
    }
  }

  // ----- a roll -----

  /** A roll without an end moves every watermark to the floor of the hour it ends in when that is later
      than the floor the roll starts at; a roll with an end moves none.  No job row changes. */
  ghost predicate MarkRolls(f: int -> int, mark: int, sentStart: int, sentEnd: int, hourEnd: int, after: int) {
    && (sentEnd != 0 ==> after == mark)
    && (sentEnd == 0 && sentStart == 0 ==> after == if f(mark) < f(hourEnd) then f(hourEnd) else mark)
    && (sentEnd == 0 && sentStart != 0 ==> after == if f(sentStart) < f(hourEnd) then f(hourEnd) else mark)
  }

  ghost predicate Rolled(c: Calendar, s: State, sentStart: int, sentEnd: int, now: int, t: State) {
    && t.jobs == s.jobs && t.last == c.hour(if sentEnd == 0 then now else sentEnd)
    && MarkRolls(c.hour, s.hourly, sentStart, sentEnd, t.last, t.hourly)
    && MarkRolls(c.day, s.daily, sentStart, sentEnd, t.last, t.daily)
    && MarkRolls(c.month, s.monthly, sentStart, sentEnd, t.last, t.monthly)
  }

  lemma RollIs(c: Calendar, s: State, sentStart: int, sentEnd: int, now: int)
    requires GoodCalendar(c)
    ensures Rolled(c, s, sentStart, sentEnd, now, Roll(c, s, sentStart, sentEnd, now))
  {
    FloorsOfHour(c, RollTime(sentEnd, now));
  }

  /** A roll computes the buckets from the floor it starts at to the floor it ends at: no other changes, and
      none of them is stale afterwards, but those that hold a stale smaller one. */
  ghost predicate BucketsRolled(f: int -> int, stale: iset<int>, mark: int, sentStart: int, hourEnd: int,
                                fine: iset<int>, after: iset<int>) {
    var start, end := f(if sentStart == 0 then mark else sentStart), f(hourEnd);
    && after <= stale
    && (forall b <- stale :: b < start || end <= b ==> b in after)
    && (forall b <- after :: start <= b < end ==> exists h :: h in fine && f(h) == b)
  }

  ghost predicate AllRolled(c: Calendar, s: State, sentStart: int, t: State) {
    && BucketsRolled(c.hour, s.hours, s.hourly, sentStart, t.last, iset{}, t.hours)
    && BucketsRolled(c.day, s.days, s.daily, sentStart, t.last, t.hours, t.days)
    && BucketsRolled(c.month, s.months, s.monthly, sentStart, t.last, t.days, t.months)
  }

  lemma BucketsAreRolled(f: int -> int, stale: iset<int>, mark: int, sentStart: int, hourEnd: int, fine: iset<int>)
    ensures var start := f(RollFrom(sentStart, mark));
      && BucketsRolled(f, stale, mark, sentStart, hourEnd, fine, Recomputed(stale, start, f(hourEnd), fine, f))
      && BucketsRolled(f, stale, mark, sentStart, hourEnd, iset{}, Outside(stale, start, f(hourEnd)))
  {
  }

  lemma RolledBuckets(c: Calendar, s: State, sentStart: int, sentEnd: int, now: int)
    requires GoodCalendar(c)
    ensures AllRolled(c, s, sentStart, Roll(c, s, sentStart, sentEnd, now))
  {
    var t := Roll(c, s, sentStart, sentEnd, now);
    FloorsOfHour(c, RollTime(sentEnd, now));
    BucketsAreRolled(c.hour, s.hours, s.hourly, sentStart, t.last, iset{});
    BucketsAreRolled(c.day, s.days, s.daily, sentStart, t.last, t.hours);
    BucketsAreRolled(c.month, s.months, s.monthly, sentStart, t.last, t.days);
    hide BucketsRolled, GoodCalendar, Recomputed, Outside, NewMark, RollFrom;
  }
}
