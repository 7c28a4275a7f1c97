/** What the hourly rollup books for a job: the seconds of an hour counted as allocated, and those counted
    as reserved. */
module HourUsage {
  import opened Wrappers

  // ----- the calendar -----

  /** The starts of the hour, the day and the month of a time. */
  datatype Calendar = Calendar(hour: int -> int, day: int -> int, month: int -> int)

  const HOUR := 3600

  ghost predicate Floor(f: int -> int) {
    && (forall t :: f(t) <= t && f(f(t)) == f(t))
    && (forall s, t :: s <= t ==> f(s) <= f(t))
  }

  /** Hours have their length, days are made of whole hours and months of whole days. */
  ghost predicate GoodCalendar(c: Calendar) {
    && Floor(c.hour) && Floor(c.day) && Floor(c.month)
    && (forall s, t :: c.hour(s) == c.hour(t) <==> c.hour(t) <= s < c.hour(t) + HOUR)
    && (forall t {:trigger c.day(c.hour(t))} :: c.day(c.hour(t)) == c.day(t))
    && (forall t {:trigger c.month(c.day(t))} :: c.month(c.day(t)) == c.month(t))
  }

  // ----- job rows -----

  /** Whom a job's time is booked on, and how many CPUs; resv is 0 outside of reservations. */
  datatype Share = Share(assoc: int, wckey: int, resv: int, cpus: int)

  datatype Pause = Pause(from: int, to: int)

  /** A job row; start and end are 0 while unknown.  `pauses` are the job's closed suspensions. */
  datatype Job = Job(eligible: int, start: int, end: int, share: Share, reqCpus: int, pauses: seq<Pause>)

  datatype Column = Allocated | Reserved

  function Max(a: int, b: int): int {
    if a < b then b else a
  }

  function Min(a: int, b: int): int {
    if a < b then a else b
  }

  /** When the job stopped waiting: its start, or its end when it never started; 0 while it waits. */
  function Known(j: Job): int {
    if j.start != 0 then j.start else j.end
  }

  // ----- the seconds booked -----

  /** The job books time in the column at all. */
  predicate Books(col: Column, j: Job) {
    match col
    case Allocated => j.start != 0
    case Reserved => j.share.resv == 0 && Known(j) != 0
  }

  function SpanFrom(c: Calendar, col: Column, j: Job): int {
    match col
    case Allocated => Max(j.start, c.hour(j.eligible))
    case Reserved => j.eligible
  }

  /** The end of the booked span, cut off at `limit`; an open end reaches as far as one looks. */
  function SpanTo(c: Calendar, col: Column, j: Job, limit: int): int {
    match col
    case Allocated => if j.end == 0 then limit else Min(j.end, limit)
    case Reserved => Min(Known(j), if j.end == 0 then limit else Min(c.hour(j.end) + HOUR, limit))
  }

  predicate InSpan(c: Calendar, col: Column, j: Job, x: int) {
    Books(col, j) && SpanFrom(c, col, j) <= x < SpanTo(c, col, j, x + 1)
  }

  /** Second `x` lies in the suspension; one without a start is passed over. */
  predicate InPause(p: Pause, x: int) {
    p.from != 0 && p.from <= x < p.to
  }

  predicate Paused(pauses: seq<Pause>, x: int) {
    exists k :: 0 <= k < |pauses| && InPause(pauses[k], x)
  }

  /** Second `x` is booked for the job. */
  predicate Counted(c: Calendar, col: Column, j: Option<Job>, x: int) {
    j.Some? && InSpan(c, col, j.value, x) && (col == Allocated ==> !Paused(j.value.pauses, x))
  }

  predicate SameWho(col: Column, a: Job, b: Job) {
    match col
    case Allocated => a.share == b.share
    case Reserved => a.reqCpus == b.reqCpus
  }

  /** Second `x` is booked alike for two states of a row. */
  ghost predicate SameAt(c: Calendar, col: Column, a: Option<Job>, b: Option<Job>, x: int) {
    && Counted(c, col, a, x) == Counted(c, col, b, x)
    && (Counted(c, col, a, x) && Counted(c, col, b, x) ==> SameWho(col, a.value, b.value))
  }

  ghost predicate SameBefore(c: Calendar, col: Column, a: Option<Job>, b: Option<Job>, limit: int) {
    forall x {:trigger SameAt(c, col, a, b, x)} :: x < limit ==> SameAt(c, col, a, b, x)
  }

  // ----- what the code computes for an hour -----

  /** The start the rollup works with in the hour from `b` on. */
  function RowStart(j: Job, b: int): int {
    if j.start != 0 && j.start < b then b else if j.start == 0 && j.end != 0 then j.end else j.start
  }

  function RowEnd(j: Job, b: int): int {
    if j.end == 0 || j.end > b + HOUR then b + HOUR else j.end
  }

  /** What the loop over the suspensions that the query gives for the hour from `b` on takes off. */
  function Subtracted(pauses: seq<Pause>, b: int, rowStart: int, rowEnd: int): int {
    if pauses == [] then 0
    else
      var p := pauses[|pauses| - 1];
      var rest := Subtracted(pauses[..|pauses| - 1], b, rowStart, rowEnd);
      var localStart := if rowStart > p.from then rowStart else p.from;
      var localEnd := if rowEnd < p.to then rowEnd else p.to;
      if !(p.from < b + HOUR && (p.to >= b || p.to == 0)) || p.from == 0 || localEnd - localStart < 1 then rest
      else rest + (localEnd - localStart)
  }

  /** The job has time in the hour, and was suspended all of it: then the rollup goes on to the next job. */
  predicate WholeHourPaused(j: Job, b: int) {
    var rowStart, rowEnd := RowStart(j, b), RowEnd(j, b);
    rowStart != 0 && rowEnd - rowStart >= 1 && rowEnd - rowStart - Subtracted(j.pauses, b, rowStart, rowEnd) < 1
  }

  /** The seconds `mysql_hourly_rollup` books for a job in the hour from `b` on. */
  function HourSeconds(col: Column, j: Job, b: int): int {
    var rowStart, rowEnd := RowStart(j, b), RowEnd(j, b);
    if !(j.eligible < b + HOUR && (j.end >= b || j.end == 0)) || WholeHourPaused(j, b) then 0
    else
      match col
      case Allocated =>
        if rowStart == 0 || rowEnd - rowStart < 1 then 0
        else rowEnd - rowStart - Subtracted(j.pauses, b, rowStart, rowEnd)
      case Reserved =>
        if j.share.resv != 0 || !(rowStart == 0 || rowStart >= b) then 0
        else
          var waitFrom := if b > j.eligible then b else j.eligible;
          var waitTo := if b + HOUR < rowStart then b + HOUR else rowStart;
          if waitTo - waitFrom > 0 then waitTo - waitFrom else 0
  }

  function Seconds(lo: int, hi: int): (s: set<int>)
    ensures forall x :: x in s <==> lo <= x < hi
    ensures |s| == Max(hi - lo, 0)
    decreases hi - lo
  {
    if lo >= hi then {} else Seconds(lo, hi - 1) + {hi - 1}
  }

  // ----- time between suspensions -----

  /** No two suspensions overlap. */
  predicate PausesApart(pauses: seq<Pause>) {
    forall k, l :: 0 <= k < l < |pauses| ==> pauses[k].to <= pauses[l].from || pauses[l].to <= pauses[k].from
  }

  function Overlap(p: Pause, lo: int, hi: int): int {
    if p.from == 0 then 0 else Max(Min(hi, p.to) - Max(lo, p.from), 0)
  }

  function Overlaps(pauses: seq<Pause>, lo: int, hi: int): int {
    if pauses == [] then 0 else Overlaps(pauses[..|pauses| - 1], lo, hi) + Overlap(pauses[|pauses| - 1], lo, hi)
  }

  lemma {:induction false} SubtractedIsOverlaps(pauses: seq<Pause>, b: int, lo: int, hi: int)
    requires b <= lo && hi <= b + HOUR
    ensures Subtracted(pauses, b, lo, hi) == Overlaps(pauses, lo, hi)
    decreases |pauses|
  {
    if pauses != [] {
      SubtractedIsOverlaps(pauses[..|pauses| - 1], b, lo, hi);
    }
  }

  /** The seconds from `lo` to `hi` outside of all suspensions. */
  function Left(pauses: seq<Pause>, lo: int, hi: int): set<int> {
    set x <- Seconds(lo, hi) | !Paused(pauses, x)
  }

  lemma PausedByLast(pauses: seq<Pause>, x: int)
    requires pauses != []
    ensures Paused(pauses, x) <==> Paused(pauses[..|pauses| - 1], x) || InPause(pauses[|pauses| - 1], x)
  {
    var front := pauses[..|pauses| - 1];
    if k :| 0 <= k < |front| && InPause(front[k], x) {
      assert InPause(pauses[k], x);
    }
    if k :| 0 <= k < |pauses| && InPause(pauses[k], x) {
      assert k < |front| ==> InPause(front[k], x);
    }
  }

  /** What overlaps with suspensions that lie apart adds up. */
  lemma {:induction false} LeftIs(pauses: seq<Pause>, lo: int, hi: int)
    requires PausesApart(pauses)
    ensures |Left(pauses, lo, hi)| == Max(hi - lo, 0) - Overlaps(pauses, lo, hi)
    decreases |pauses|
  {
    if pauses == [] {
      assert Left(pauses, lo, hi) == Seconds(lo, hi);
    } else {
      var front, p := pauses[..|pauses| - 1], pauses[|pauses| - 1];
      LeftIs(front, lo, hi);
      var taken := if p.from == 0 then {} else Seconds(Max(lo, p.from), Min(hi, p.to));
      LastTakes(pauses, lo, hi, taken);
      assert |taken| == Overlap(p, lo, hi);
    }
  }

  lemma LastTakes(pauses: seq<Pause>, lo: int, hi: int, taken: set<int>)
    requires PausesApart(pauses) && pauses != []
    requires var p := pauses[|pauses| - 1]; taken == if p.from == 0 then {} else Seconds(Max(lo, p.from), Min(hi, p.to))
    ensures |Left(pauses, lo, hi)| == |Left(pauses[..|pauses| - 1], lo, hi)| - |taken|
  {
    var front, p := pauses[..|pauses| - 1], pauses[|pauses| - 1];
    forall x
      ensures x in Left(pauses, lo, hi) <==> x in Left(front, lo, hi) && x !in taken
    {
      PausedByLast(pauses, x);
    }
    forall x | x in taken
      ensures x in Left(front, lo, hi)
    {
      assert forall k :: 0 <= k < |front| ==> !InPause(front[k], x);
    }
    assert Left(pauses, lo, hi) == Left(front, lo, hi) - taken;
  }

  /** The seconds booked from `lo` to `hi`. */
  function Net(pauses: seq<Pause>, lo: int, hi: int): int {
    Max(hi - lo, 0) - Overlaps(pauses, lo, hi)
  }

  lemma NetIsZeroIff(pauses: seq<Pause>, lo: int, hi: int)
    requires PausesApart(pauses)
    ensures Net(pauses, lo, hi) >= 0
    ensures Net(pauses, lo, hi) == 0 <==> forall x :: lo <= x < hi ==> Paused(pauses, x)
  {
    LeftIs(pauses, lo, hi);
    if Left(pauses, lo, hi) == {} {
      assert forall x :: lo <= x < hi && !Paused(pauses, x) ==> x in Left(pauses, lo, hi);
    } else {
      var x :| x in Left(pauses, lo, hi);
    }
  }

  // ----- the code's seconds are those counted -----

  lemma AllocatedIsSpan(c: Calendar, j: Job, b: int)
    requires 0 < b && (c.hour(j.eligible) <= b <==> j.eligible < b + HOUR)
    requires b < c.hour(j.eligible) ==> b + HOUR <= c.hour(j.eligible)
    requires var lo, hi := RowStart(j, b), RowEnd(j, b);
      lo != 0 && b <= lo < hi ==> 0 <= hi - lo - Subtracted(j.pauses, b, lo, hi) == Net(j.pauses, lo, hi)
    ensures Books(Allocated, j) && Max(b, SpanFrom(c, Allocated, j)) < SpanTo(c, Allocated, j, b + HOUR) ==>
      HourSeconds(Allocated, j, b) ==
      Net(j.pauses, Max(b, SpanFrom(c, Allocated, j)), SpanTo(c, Allocated, j, b + HOUR))
    ensures !(Books(Allocated, j) && Max(b, SpanFrom(c, Allocated, j)) < SpanTo(c, Allocated, j, b + HOUR)) ==>
      HourSeconds(Allocated, j, b) == 0
  {
  }

  lemma ReservedIsSpan(c: Calendar, j: Job, b: int)
    requires 0 < b && (b <= c.hour(j.end) <==> b <= j.end)
    requires c.hour(j.end) < b ==> c.hour(j.end) + HOUR <= b
    requires !WholeHourPaused(j, b)
    ensures HourSeconds(Reserved, j, b) ==
      if Books(Reserved, j) then Max(SpanTo(c, Reserved, j, b + HOUR) - Max(b, SpanFrom(c, Reserved, j)), 0) else 0
  {
  }

  lemma CountedInHour(c: Calendar, col: Column, j: Job, b: int, x: int)
    requires b <= x < b + HOUR
    ensures Counted(c, col, Some(j), x) <==>
      && Books(col, j) && Max(b, SpanFrom(c, col, j)) <= x < SpanTo(c, col, j, b + HOUR)
      && (col == Allocated ==> !Paused(j.pauses, x))
  {
  }

  /** Second `x` lies in the hour from `b` on, and the job has started by then and not ended. */
  predicate RunsAt(j: Job, b: int, x: int) {
    b <= x < b + HOUR && j.start != 0 && j.start <= x && (j.end == 0 || x < j.end)
  }

  /** The job runs in the hour, and is suspended in every second of it in which it does. */
  ghost predicate PausedThrough(j: Job, b: int) {
    (exists x :: RunsAt(j, b, x)) && forall x :: RunsAt(j, b, x) ==> Paused(j.pauses, x)
  }

  lemma WholeHourPausedIff(j: Job, b: int)
    requires 0 < b && PausesApart(j.pauses)
    ensures WholeHourPaused(j, b) <==> PausedThrough(j, b)
  {
    var lo, hi := RowStart(j, b), RowEnd(j, b);
    forall x
      ensures RunsAt(j, b, x) <==> lo != 0 && lo <= x < hi
    {
    }
    NetOfRow(j, b);
    NetIsZeroIff(j.pauses, lo, hi);
    hide Paused, PausesApart, Net, Subtracted;
    if lo != 0 && lo < hi {
      assert RunsAt(j, b, lo);
    }
  }

  /** The code books exactly the seconds that are counted, suspensions subtracted; only in an hour that a job
      is suspended through, it does not come to the job's reserved time. */
  lemma HourSecondsAreCounted(c: Calendar, col: Column, j: Job, b: int)
    requires GoodCalendar(c) && c.hour(b) == b && 0 < b && PausesApart(j.pauses)
    ensures HourSeconds(col, j, b) ==
      if col == Reserved && PausedThrough(j, b) then 0 else |set x | b <= x < b + HOUR && Counted(c, col, Some(j), x)|
  {
    HourReached(c, j.eligible, b);
    HourReached(c, b, c.hour(j.eligible));
    HourNotPassed(c, j.end, b);
    HourReached(c, b, c.hour(j.end));
    CountedAre(c, col, j, b);
    WholeHourPausedIff(j, b);
    hide GoodCalendar, PausedThrough;
    if col == Allocated {
      NetOfRow(j, b);
      AllocatedIsSpan(c, j, b);
    } else if !WholeHourPaused(j, b) {
      ReservedIsSpan(c, j, b);
    }
  }

  lemma NetOfRow(j: Job, b: int)
    requires PausesApart(j.pauses)
    ensures var lo, hi := RowStart(j, b), RowEnd(j, b);
      lo != 0 && b <= lo < hi ==> 0 <= hi - lo - Subtracted(j.pauses, b, lo, hi) == Net(j.pauses, lo, hi)
  {
    var lo, hi := RowStart(j, b), RowEnd(j, b);
    if b <= lo {
      SubtractedIsOverlaps(j.pauses, b, lo, hi);
      NetIsZeroIff(j.pauses, lo, hi);
    }
  }

  lemma CountedAre(c: Calendar, col: Column, j: Job, b: int)
    requires PausesApart(j.pauses)
    ensures var counted := set x | b <= x < b + HOUR && Counted(c, col, Some(j), x);
      var lo, hi := Max(b, SpanFrom(c, col, j)), SpanTo(c, col, j, b + HOUR);
      |counted| == if !Books(col, j) || hi <= lo then 0 else if col == Allocated then Net(j.pauses, lo, hi) else hi - lo
  {
    var counted := set x | b <= x < b + HOUR && Counted(c, col, Some(j), x);
    var lo, hi := Max(b, SpanFrom(c, col, j)), SpanTo(c, col, j, b + HOUR);
    assert hi <= b + HOUR;
    hide Counted, SpanFrom, SpanTo, Books, Paused, PausesApart, Overlaps, Net;
    forall x | b <= x < b + HOUR
      ensures x in counted <==> Books(col, j) && lo <= x < hi && (col == Allocated ==> !Paused(j.pauses, x))
    {
      CountedInHour(c, col, j, b, x);
    }
    if !Books(col, j) || hi <= lo {
      assert counted == {};
    } else {
      SecondsAre(counted, col == Allocated, j.pauses, lo, hi);
    }
  }

  lemma SecondsAre(counted: set<int>, cut: bool, pauses: seq<Pause>, lo: int, hi: int)
    requires PausesApart(pauses) && lo <= hi
    requires forall x :: x in counted <==> lo <= x < hi && (cut ==> !Paused(pauses, x))
    ensures |counted| == if cut then Net(pauses, lo, hi) else hi - lo
  {
    hide Paused, PausesApart, Overlaps;
    if cut {
      LeftIs(pauses, lo, hi);
      assert counted == Left(pauses, lo, hi);
    } else {
      assert counted == Seconds(lo, hi);
    }
  }

  lemma HourReached(c: Calendar, t: int, b: int)
    requires GoodCalendar(c) && c.hour(b) == b
    ensures c.hour(t) <= b <==> t < b + HOUR
  {
    if b <= t < b + HOUR {
      assert c.hour(t) == c.hour(b);
    }
    if t >= b + HOUR {
      assert c.hour(t) != c.hour(b) && c.hour(b) <= c.hour(t);
    }
  }

  lemma HourNotPassed(c: Calendar, t: int, b: int)
    requires GoodCalendar(c) && c.hour(b) == b
    ensures b <= c.hour(t) <==> b <= t
  {
  }

  // ----- two states of a row -----

  /** What a row books before `limit`: the span it books in. */
  function Clip(c: Calendar, col: Column, j: Option<Job>, limit: int): Option<(int, int)> {
    if j.None? || !Books(col, j.value) || SpanFrom(c, col, j.value) >= SpanTo(c, col, j.value, limit) then None
    else Some((SpanFrom(c, col, j.value), SpanTo(c, col, j.value, limit)))
  }

  /** A comparison of the times on record: both rows book the same span before `limit`, for the same. */
  predicate SameSpans(c: Calendar, col: Column, a: Option<Job>, b: Option<Job>, limit: int) {
    && Clip(c, col, a, limit) == Clip(c, col, b, limit)
    && (Clip(c, col, a, limit).Some? ==> SameWho(col, a.value, b.value))
  }

  function AllocatedSpan(c: Calendar, j: Job, limit: int): (int, int) {
    var p := Clip(c, Allocated, Some(j), limit);
    if p.Some? then p.value else (0, 0)
  }

  /** Nothing is left between the suspensions of what only one of two spans has, and nothing of what both
      have when it is booked for others. */
  predicate SameNet(pauses: seq<Pause>, p: (int, int), q: (int, int), sameWho: bool) {
    && Net(pauses, p.0, Min(p.1, q.0)) == 0 && Net(pauses, Max(p.0, q.1), p.1) == 0
    && Net(pauses, q.0, Min(q.1, p.0)) == 0 && Net(pauses, Max(q.0, p.1), q.1) == 0
    && (sameWho || Net(pauses, Max(p.0, q.0), Min(p.1, q.1)) == 0)
  }

  /** Or the spans differ within suspensions, which both rows have, only. */
  predicate SameBetweenPauses(c: Calendar, a: Job, b: Job, limit: int) {
    && a.pauses == b.pauses && PausesApart(a.pauses)
    && SameNet(a.pauses, AllocatedSpan(c, a, limit), AllocatedSpan(c, b, limit), a.share == b.share)
  }

  /** Two states of a row book the same before `limit`, as a comparison of times on record. */
  predicate SameUpTo(c: Calendar, col: Column, a: Option<Job>, b: Option<Job>, limit: int) {
    || SameSpans(c, col, a, b, limit)
    || (col == Allocated && a.Some? && b.Some? && SameBetweenPauses(c, a.value, b.value, limit))
  }

  lemma ClipIs(c: Calendar, col: Column, j: Option<Job>, limit: int, x: int)
    requires x < limit
    ensures j.Some? && InSpan(c, col, j.value, x) <==>
      Clip(c, col, j, limit).Some? && Clip(c, col, j, limit).value.0 <= x < Clip(c, col, j, limit).value.1
  {
  }

  /** The difference of two spans, piece by piece. */
  lemma SameNetIff(pauses: seq<Pause>, p: (int, int), q: (int, int), sameWho: bool)
    requires PausesApart(pauses)
    ensures SameNet(pauses, p, q, sameWho) <==>
      forall x {:trigger Paused(pauses, x)} :: !Paused(pauses, x) ==>
        (p.0 <= x < p.1 <==> q.0 <= x < q.1) && (p.0 <= x < p.1 && q.0 <= x < q.1 ==> sameWho)
  {
    NetIsZeroIff(pauses, p.0, Min(p.1, q.0));
    NetIsZeroIff(pauses, Max(p.0, q.1), p.1);
    NetIsZeroIff(pauses, q.0, Min(q.1, p.0));
    NetIsZeroIff(pauses, Max(q.0, p.1), q.1);
    NetIsZeroIff(pauses, Max(p.0, q.0), Min(p.1, q.1));
    hide Net, PausesApart, Paused;
  }

  lemma InAllocatedSpan(c: Calendar, j: Job, limit: int, x: int)
    ensures AllocatedSpan(c, j, limit).0 <= x < AllocatedSpan(c, j, limit).1 <==>
      x < limit && InSpan(c, Allocated, j, x)
  {
  }

  lemma SameBetweenPausesIff(c: Calendar, a: Job, b: Job, limit: int)
    requires a.pauses == b.pauses && PausesApart(a.pauses)
    ensures SameBetweenPauses(c, a, b, limit) <==> SameBefore(c, Allocated, Some(a), Some(b), limit)
  {
    var p, q := AllocatedSpan(c, a, limit), AllocatedSpan(c, b, limit);
    SameNetIff(a.pauses, p, q, a.share == b.share);
    hide SameNet, AllocatedSpan, InSpan, PausesApart, Paused;
    forall x
      ensures x < limit ==>
        (SameAt(c, Allocated, Some(a), Some(b), x) <==>
          (!Paused(a.pauses, x) ==>
            (p.0 <= x < p.1 <==> q.0 <= x < q.1) && (p.0 <= x < p.1 && q.0 <= x < q.1 ==> a.share == b.share)))
      ensures x >= limit ==> !(p.0 <= x < p.1) && !(q.0 <= x < q.1)
    {
      InAllocatedSpan(c, a, limit, x);
      InAllocatedSpan(c, b, limit, x);
    }
  }

  predicate SamePauses(a: Option<Job>, b: Option<Job>) {
    a.Some? && b.Some? ==> a.value.pauses == b.value.pauses
  }

  lemma SameSpansSuffice(c: Calendar, col: Column, a: Option<Job>, b: Option<Job>, limit: int)
    requires SameSpans(c, col, a, b, limit) && SamePauses(a, b)
    ensures SameBefore(c, col, a, b, limit)
  {
    forall x | x < limit
      ensures SameAt(c, col, a, b, x)
    {
      ClipIs(c, col, a, limit, x);
      ClipIs(c, col, b, limit, x);
    }
  }

  lemma SameUpToSuffices(c: Calendar, col: Column, a: Option<Job>, b: Option<Job>, limit: int)
    requires SameUpTo(c, col, a, b, limit) && SamePauses(a, b)
    ensures SameBefore(c, col, a, b, limit)
  {
    hide SameSpans, SameBefore, SameBetweenPauses;
    if SameSpans(c, col, a, b, limit) {
      SameSpansSuffice(c, col, a, b, limit);
    } else {
      assert PausesApart(a.value.pauses) by { ApartWhenBetween(c, a.value, b.value, limit); }
      SameBetweenPausesIff(c, a.value, b.value, limit);
    }
  }

  lemma ApartWhenBetween(c: Calendar, a: Job, b: Job, limit: int)
    requires SameBetweenPauses(c, a, b, limit)
    ensures PausesApart(a.pauses)
  {
  }

  /** The suspensions of a row do not overlap; a new row has none. */
  predicate PlainPauses(a: Option<Job>, b: Option<Job>) {
    && SamePauses(a, b)
    && (a.Some? ==> PausesApart(a.value.pauses)) && (b.Some? ==> PausesApart(b.value.pauses))
    && (a.None? && b.Some? ==> b.value.pauses == []) && (b.None? && a.Some? ==> a.value.pauses == [])
  }

  lemma SameUpToIsNeeded(c: Calendar, col: Column, a: Option<Job>, b: Option<Job>, limit: int)
    requires PlainPauses(a, b) && SameBefore(c, col, a, b, limit)
    ensures SameUpTo(c, col, a, b, limit)
  {
    hide SameSpans, SameBefore, SameBetweenPauses, PausesApart;
    if col == Allocated && a.Some? && b.Some? {
      SameBetweenPausesIff(c, a.value, b.value, limit);
    } else {
      SameSpansAreNeeded(c, col, a, b, limit);
    }
  }

  lemma SameSpansAreNeeded(c: Calendar, col: Column, a: Option<Job>, b: Option<Job>, limit: int)
    requires col == Reserved || (NoPauses(a) && NoPauses(b))
    requires SameBefore(c, col, a, b, limit)
    ensures SameSpans(c, col, a, b, limit)
  {
    var p, q := Clip(c, col, a, limit), Clip(c, col, b, limit);
    if p.Some? {
      ClipHolds(c, col, a, b, limit, p.value.0);
      ClipHolds(c, col, a, b, limit, p.value.1 - 1);
    }
    if q.Some? {
      ClipHolds(c, col, a, b, limit, q.value.0);
      ClipHolds(c, col, a, b, limit, q.value.1 - 1);
    }
  }

  predicate NoPauses(j: Option<Job>) {
    j.Some? ==> j.value.pauses == []
  }

  lemma ClipHolds(c: Calendar, col: Column, a: Option<Job>, b: Option<Job>, limit: int, x: int)
    requires col == Reserved || (NoPauses(a) && NoPauses(b))
    requires x < limit && SameAt(c, col, a, b, x)
    ensures var p, q := Clip(c, col, a, limit), Clip(c, col, b, limit);
      && (p.Some? && p.value.0 <= x < p.value.1 <==> q.Some? && q.value.0 <= x < q.value.1)
      && (p.Some? && p.value.0 <= x < p.value.1 ==> SameWho(col, a.value, b.value))
  {
    ClipIs(c, col, a, limit, x);
    ClipIs(c, col, b, limit, x);
  }

  function WithPause(j: Job, pause: Pause): Job {
    j.(pauses := j.pauses + [pause])
  }

  /** A comparison of times again: before `limit` the pause meets nothing the row books. */
  predicate PauseFree(c: Calendar, col: Column, j: Job, pause: Pause, limit: int) {
    || col == Reserved || !Books(col, j) || pause.from == 0
    || Min(SpanTo(c, col, j, limit), pause.to) <= Max(SpanFrom(c, col, j), pause.from)
  }

  lemma PauseFreeIff(c: Calendar, col: Column, j: Job, pause: Pause, limit: int)
    ensures PauseFree(c, col, j, pause, limit) ==> SameBefore(c, col, Some(j), Some(WithPause(j, pause)), limit)
    ensures PausesApart(WithPause(j, pause).pauses) && SameBefore(c, col, Some(j), Some(WithPause(j, pause)), limit) ==>
      PauseFree(c, col, j, pause, limit)
  {
    var k := WithPause(j, pause);
    assert k.pauses[..|k.pauses| - 1] == j.pauses;
    forall x
      ensures Paused(k.pauses, x) <==> Paused(j.pauses, x) || InPause(pause, x)
    {
      PausedByLast(k.pauses, x);
    }
    hide Paused;
    if !PauseFree(c, col, j, pause, limit) && PausesApart(k.pauses) {
      var x := Max(SpanFrom(c, col, j), pause.from);
      NotPausedTwice(j.pauses, pause, x);
      assert !SameAt(c, col, Some(j), Some(k), x);
    }
  }

  lemma NotPausedTwice(pauses: seq<Pause>, pause: Pause, x: int)
    requires PausesApart(pauses + [pause]) && InPause(pause, x)
    ensures !Paused(pauses, x)
  {
    forall k | 0 <= k < |pauses|
      ensures !InPause(pauses[k], x)
    {
      assert (pauses + [pause])[k] == pauses[k] && (pauses + [pause])[|pauses|] == pause;
    }
  }

  // ----- the hours a change touches -----

  ghost predicate Touches(c: Calendar, col: Column, a: Option<Job>, b: Option<Job>, h: int) {
    exists x {:trigger SameAt(c, col, a, b, x)} :: c.hour(x) == h && !SameAt(c, col, a, b, x)
  }

  ghost function TouchedHours(c: Calendar, col: Column, a: Option<Job>, b: Option<Job>): iset<int> {
    iset h | Touches(c, col, a, b, h)
  }

  /** The first hour that may be touched, against an hour start `limit`. */
  lemma TouchedFrom(c: Calendar, col: Column, a: Option<Job>, b: Option<Job>, limit: int)
    requires GoodCalendar(c) && c.hour(limit) == limit
    ensures (forall h <- TouchedHours(c, col, a, b) :: limit <= h) <==> SameBefore(c, col, a, b, limit)
  {
    if SameBefore(c, col, a, b, limit) {
      forall h | h in TouchedHours(c, col, a, b)
        ensures limit <= h
      {
        var x :| c.hour(x) == h && !SameAt(c, col, a, b, x);
        HourNotPassed(c, x, limit);
      }
    }
    if forall h <- TouchedHours(c, col, a, b) :: limit <= h {
      forall x | x < limit
        ensures SameAt(c, col, a, b, x)
      {
        assert !SameAt(c, col, a, b, x) ==> c.hour(x) in TouchedHours(c, col, a, b);
      }
    }
  }

  /** Every hour in which the code would now book other seconds is touched. */
  lemma OtherSecondsAreTouched(c: Calendar, col: Column, a: Job, j: Job, b: int)
    requires GoodCalendar(c) && c.hour(b) == b && 0 < b && PausesApart(a.pauses) && PausesApart(j.pauses)
    requires col == Reserved ==> !PausedThrough(a, b) && !PausedThrough(j, b)
    requires HourSeconds(col, a, b) != HourSeconds(col, j, b)
    ensures b in TouchedHours(c, col, Some(a), Some(j))
  {
    HourSecondsAreCounted(c, col, a, b);
    HourSecondsAreCounted(c, col, j, b);
    hide HourSeconds, PausedThrough, PausesApart, Counted, SameWho, Floor;
    var p := set x | b <= x < b + HOUR && Counted(c, col, Some(a), x);
    var q := set x | b <= x < b + HOUR && Counted(c, col, Some(j), x);
    assert p != q;
    var x :| b <= x < b + HOUR && Counted(c, col, Some(a), x) != Counted(c, col, Some(j), x);
    assert !SameAt(c, col, Some(a), Some(j), x) && c.hour(x) == c.hour(b);
  }
}
