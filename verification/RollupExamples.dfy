/** Runs from the start of a process in which a stale bucket is lost, in any calendar with full hours at nine,
    twelve and one, such as the plain one. */
module RollupExamples {
  import opened Wrappers
  import opened HourUsage
  import opened Rollup
  import opened RollupRuns

  /** The multiple of `n` at or before `t`. */
  function FloorTo(n: nat, t: int): int
    requires n > 0
  {
    t - t % n
  }

  /** Days of 24 hours and months of 30 days. */
  function PlainCalendar(): Calendar {
    Calendar(t => FloorTo(3600, t), t => FloorTo(86400, t), t => FloorTo(2592000, t))
  }

  lemma Steps(n: nat, p: int, q: int)
    ensures p < q ==> n * p + n <= n * q
  {
    if p < q {
      assert n * (p + 1) <= n * q;
    }
  }

  lemma FloorToMultiple(n: nat, t: int) returns (q: int)
    requires n > 0
    ensures FloorTo(n, t) == n * q && n * q <= t < n * q + n
  {
    q := t / n;
  }

  lemma FloorToIs(n: nat, t: int, q: int)
    requires n > 0 && n * q <= t < n * q + n
    ensures FloorTo(n, t) == n * q
  {
    var p := FloorToMultiple(n, t);
    Steps(n, p, q);
    Steps(n, q, p);
    hide FloorTo;
  }

  lemma FloorsTo(f: int -> int, n: nat)
    requires n > 0 && forall t :: f(t) == FloorTo(n, t)
    ensures Floor(f)
  {
    forall t
      ensures f(t) <= t && f(f(t)) == f(t)
    {
      var q := FloorToMultiple(n, t);
      FloorToIs(n, n * q, q);
    }
    forall s, t | s <= t
      ensures f(s) <= f(t)
    {
      var p := FloorToMultiple(n, s);
      var q := FloorToMultiple(n, t);
      Steps(n, q, p);
      Steps(n, p, q);
    }
  }

  lemma CoarserFloor(n: nat, k: nat, t: int)
    requires n > 0 && k > 0
    ensures FloorTo(n * k, FloorTo(n, t)) == FloorTo(n * k, t)
  {
    var q := FloorToMultiple(n * k, t);
    var p := FloorToMultiple(n, t);
    assert n * k * q == n * (k * q);
    Steps(n, p, k * q);
    Steps(n, k * q, p);
    FloorToIs(n * k, n * p, q);
  }

  lemma SameFloor(n: nat, s: int, t: int)
    requires n > 0
    ensures FloorTo(n, s) == FloorTo(n, t) <==> FloorTo(n, t) <= s < FloorTo(n, t) + n
  {
    var q := FloorToMultiple(n, t);
    var p := FloorToMultiple(n, s);
    if n * q <= s < n * q + n {
      FloorToIs(n, s, q);
    }
  }

  lemma PlainFloors(c: Calendar)
    requires c == PlainCalendar()
    ensures forall t :: c.hour(t) == FloorTo(3600, t)
    ensures forall t :: c.day(t) == FloorTo(86400, t)
    ensures forall t :: c.month(t) == FloorTo(2592000, t)
  {
  }

  lemma PlainCalendarIsGood()
    ensures GoodCalendar(PlainCalendar())
  {
    var c := PlainCalendar();
    PlainFloors(c);
    hide FloorTo, PlainCalendar;
    FloorsTo(c.hour, 3600);
    FloorsTo(c.day, 86400);
    FloorsTo(c.month, 2592000);
    hide Floor;
    forall s, t
      ensures c.hour(s) == c.hour(t) <==> c.hour(t) <= s < c.hour(t) + HOUR
    {
      SameFloor(3600, s, t);
    }
    forall t {:trigger c.day(c.hour(t))}
      ensures c.day(c.hour(t)) == c.day(t)
    {
      CoarserFloor(3600, 24, t);
    }
    forall t {:trigger c.month(c.day(t))}
      ensures c.month(c.day(t)) == c.month(t)
    {
      CoarserFloor(86400, 30, t);
    }
  }

  // ----- the examples -----

  const NINE := 32400
  const HALF_PAST_NINE := 34200
  const TWELVE := 43200
  const HALF_PAST_TWELVE := 45000

  /** Full hours at nine, twelve and one, all on the first day. */
  ghost predicate FirstDay(c: Calendar) {
    && c.hour(0) == 0 && c.hour(NINE) == NINE == c.hour(HALF_PAST_NINE)
    && c.hour(TWELVE) == TWELVE == c.hour(HALF_PAST_TWELVE)
    && c.hour(TWELVE + HOUR) == TWELVE + HOUR
    && (forall t :: 0 <= t < 86400 ==> c.day(t) == 0)
    && (forall t :: 0 <= t < 86400 ==> c.month(t) == 0)
  }

  lemma PlainFirstDay()
    ensures FirstDay(PlainCalendar())
  {
    forall t | 0 <= t < 86400
      ensures FloorTo(86400, t) == 0 && FloorTo(2592000, t) == 0
    {
      FloorToIs(86400, t, 0);
      FloorToIs(2592000, t, 0);
    }
  }

  /** A process starts: nothing in memory, nothing stale, the last hourly roll was at `hourly`. */
  ghost function Fresh(hourly: int): State {
    State(0, hourly, 0, 0, map[], iset{}, iset{}, iset{})
  }

  /** Job 1, eligible at half past nine, heard of with the given start; 0 while it waits. */
  function JobOne(indexed: bool, start: int): Start {
    Start(1, indexed, HALF_PAST_NINE, HALF_PAST_NINE, start, Share(7, 0, 0, 4), 4)
  }

  function RowOne(start: int, end: int): Job {
    Job(HALF_PAST_NINE, start, end, Share(7, 0, 0, 4), 4, [])
  }

  /** A second booked otherwise, in an hour before that of the hourly watermark. */
  lemma PutUncovers(c: Calendar, col: Column, s: State, id: int, j: Job, x: int)
    requires Counted(c, col, Row(s.jobs, id), x) != Counted(c, col, Some(j), x) && c.hour(x) < c.hour(s.hourly)
    ensures !Covered(c, Put(c, col, s, id, j))
  {
    assert !SameAt(c, col, Row(s.jobs, id), Some(j), x);
    assert c.hour(x) in Put(c, col, s, id, j).hours;
  }

  lemma Heard(c: Calendar, col: Column, hourly: int, start: nat)
    ensures var s := Hear(c, col, Fresh(hourly), Started(JobOne(false, start)));
      s.last == 0 && s.hourly == hourly && s.daily == 0 && s.monthly == 0 && s.jobs == map[1 := RowOne(start, 0)]
  {
  }

  lemma RolledMarks(c: Calendar, s: State, sentEnd: int, now: int)
    ensures var t := Roll(c, s, 0, sentEnd, now);
      && t.jobs == s.jobs && t.last == c.hour(RollTime(sentEnd, now))
      && t.hourly == NewMark(s.hourly, c.hour(s.hourly), t.last, sentEnd)
  {
  }

  /** Job 1 has been heard of with this start, and then the hours up to twelve have been rolled. */
  ghost function RolledAtTwelve(c: Calendar, col: Column, start: int): State {
    Roll(c, Hear(c, col, Fresh(NINE), Started(JobOne(false, start))), 0, 0, TWELVE)
  }

  lemma AtTwelve(c: Calendar, col: Column, start: nat)
    requires FirstDay(c)
    ensures var s := RolledAtTwelve(c, col, start);
      s.last == s.hourly == TWELVE && s.jobs == map[1 := RowOne(start, 0)]
  {
    Heard(c, col, NINE, start);
    RolledMarks(c, Hear(c, col, Fresh(NINE), Started(JobOne(false, start))), 0, TWELVE);
  }

  lemma StartIsPut(c: Calendar, s: State, start: int)
    requires s.jobs == map[1 := RowOne(0, 0)] && s.last <= start && start != 0
    ensures Hear(c, Reserved, s, Started(JobOne(true, start))) == Put(c, Reserved, s, 1, RowOne(start, 0))
  {
    hide Put;
  }

  lemma EndIsPut(c: Calendar, s: State, end: int)
    requires s.jobs == map[1 := RowOne(0, 0)] && s.last <= end && 0 < end
    ensures Hear(c, Reserved, s, Ended(JobOne(true, 0), end)) == Put(c, Reserved, s, 1, RowOne(0, end))
  {
    hide Put;
  }

  lemma LateStartUncovers(c: Calendar, s: State)
    requires c.hour(HALF_PAST_NINE) == NINE && s.last == s.hourly == TWELVE == c.hour(s.hourly) &&
      s.jobs == map[1 := RowOne(0, 0)]
    ensures !Covered(c, Hear(c, Reserved, s, Started(JobOne(true, HALF_PAST_TWELVE))))
  {
    StartIsPut(c, s, HALF_PAST_TWELVE);
    hide Hear, Put, Covered;
    PutUncovers(c, Reserved, s, 1, RowOne(HALF_PAST_TWELVE, 0), HALF_PAST_NINE);
  }

  lemma LateEndUncovers(c: Calendar, s: State)
    requires c.hour(HALF_PAST_NINE) == NINE && s.last == s.hourly == TWELVE == c.hour(s.hourly) &&
      s.jobs == map[1 := RowOne(0, 0)]
    requires c.hour(HALF_PAST_TWELVE) == TWELVE
    ensures !Covered(c, Hear(c, Reserved, s, Ended(JobOne(true, 0), HALF_PAST_TWELVE)))
  {
    EndIsPut(c, s, HALF_PAST_TWELVE);
    hide Hear, Put, Covered;
    PutUncovers(c, Reserved, s, 1, RowOne(0, HALF_PAST_TWELVE), HALF_PAST_NINE);
  }

  lemma LatePauseUncovers(c: Calendar, s: State)
    requires c.hour(HALF_PAST_NINE) == NINE && s.hourly == TWELVE == c.hour(s.hourly) &&
      s.jobs == map[1 := RowOne(HALF_PAST_NINE, 0)]
    ensures !Covered(c, Hear(c, Allocated, s, Resumed(1, Pause(HALF_PAST_NINE, HALF_PAST_TWELVE))))
  {
    var pause := Pause(HALF_PAST_NINE, HALF_PAST_TWELVE);
    var j := WithPause(RowOne(HALF_PAST_NINE, 0), pause);
    assert Hear(c, Allocated, s, Resumed(1, pause)) == Put(c, Allocated, s, 1, j);
    hide Hear, Put, Covered;
    assert j.pauses[0] == pause;
    PutUncovers(c, Allocated, s, 1, j, HALF_PAST_NINE);
  }

  /** A job waits from half past nine; the hours up to twelve are rolled; then it starts at half past
      twelve.  The reserved time of hour nine is now wrong and stays so. */
  lemma ReservedTimeIsLost(c: Calendar)
    requires FirstDay(c)
    ensures !Covered(c, Hear(c, Reserved, RolledAtTwelve(c, Reserved, 0), Started(JobOne(true, HALF_PAST_TWELVE))))
  {
    AtTwelve(c, Reserved, 0);
    hide *;
    LateStartUncovers(c, RolledAtTwelve(c, Reserved, 0));
  }

  /** So it is when the job is cancelled while it waits. */
  lemma CancelledTimeIsLost(c: Calendar)
    requires FirstDay(c)
    ensures !Covered(c, Hear(c, Reserved, RolledAtTwelve(c, Reserved, 0), Ended(JobOne(true, 0), HALF_PAST_TWELVE)))
  {
    AtTwelve(c, Reserved, 0);
    hide *;
    LateEndUncovers(c, RolledAtTwelve(c, Reserved, 0));
  }

  /** A job starts at half past nine and is suspended there; hours are rolled up to twelve as allocated;
      the resumption at half past twelve changes them without pulling anything back. */
  lemma SuspendedTimeIsLost(c: Calendar)
    requires FirstDay(c)
    ensures !Covered(c, Hear(c, Allocated, RolledAtTwelve(c, Allocated, HALF_PAST_NINE),
                             Resumed(1, Pause(HALF_PAST_NINE, HALF_PAST_TWELVE))))
  {
    AtTwelve(c, Allocated, HALF_PAST_NINE);
    hide *;
    LatePauseUncovers(c, RolledAtTwelve(c, Allocated, HALF_PAST_NINE));
  }

  /** Job 1 starts at half past nine, in a state that does not know it. */
  lemma StartUncovers(c: Calendar, s: State)
    requires FirstDay(c) && s.jobs == map[] && s.hourly == TWELVE && s.last <= HALF_PAST_NINE
    ensures !Covered(c, Hear(c, Allocated, s, Started(JobOne(false, HALF_PAST_NINE))))
  {
    hide Put;
    PutUncovers(c, Allocated, s, 1, RowOne(HALF_PAST_NINE, 0), HALF_PAST_NINE);
  }

  /** After a roll at twelve, a roll to an end at half past nine: a start at half past nine lies before the
      hourly watermark and does not pull it back. */
  lemma GivenEndLosesStart(c: Calendar)
    requires FirstDay(c)
    ensures var s := Roll(c, Roll(c, Fresh(NINE), 0, 0, TWELVE), 0, HALF_PAST_NINE, TWELVE);
      !Covered(c, Hear(c, Allocated, s, Started(JobOne(false, HALF_PAST_NINE))))
  {
    RolledMarks(c, Fresh(NINE), 0, TWELVE);
    RolledMarks(c, Roll(c, Fresh(NINE), 0, 0, TWELVE), HALF_PAST_NINE, TWELVE);
    StartUncovers(c, Roll(c, Roll(c, Fresh(NINE), 0, 0, TWELVE), 0, HALF_PAST_NINE, TWELVE));
  }

  /** A process that has not rolled yet, with the hours up to twelve rolled by the one before it. */
  lemma FirstNewsIsLost(c: Calendar)
    requires FirstDay(c)
    ensures !Covered(c, Hear(c, Allocated, Fresh(TWELVE), Started(JobOne(false, HALF_PAST_NINE))))
  {
    StartUncovers(c, Fresh(TWELVE));
  }

  /** A roll from twelve on passes over what has become stale before. */
  lemma GivenStartLosesHour(c: Calendar)
    requires GoodCalendar(c) && FirstDay(c)
    ensures var s := Hear(c, Allocated, Fresh(NINE), Started(JobOne(false, HALF_PAST_NINE)));
      !Covered(c, Roll(c, s, TWELVE, 0, TWELVE + HOUR))
  {
    var s := Hear(c, Allocated, Fresh(NINE), Started(JobOne(false, HALF_PAST_NINE)));
    FreshHourIsStale(c);
    LostByGivenStart(c, s, TWELVE, TWELVE + HOUR, NINE);
  }

  lemma FreshHourIsStale(c: Calendar)
    requires c.hour(HALF_PAST_NINE) == NINE
    ensures NINE in Hear(c, Allocated, Fresh(NINE), Started(JobOne(false, HALF_PAST_NINE))).hours
  {
    var j := Some(RowOne(HALF_PAST_NINE, 0));
    assert Counted(c, Allocated, j, HALF_PAST_NINE);
    assert !SameAt(c, Allocated, None, j, HALF_PAST_NINE);
  }
}
