/** `roll_usage`, `job_start` and `job_complete` over `global_last_rollup`, the last-ran table and the job
    rows. */
module UsageTables {
  import opened Wrappers
  import opened HourUsage
  import opened Rollup
  import opened RollupRuns
  import opened RollupNews

  /** The stale buckets of one column are ghost: nothing in the program records them. */
  class Usage {
    const calendar: Calendar
    ghost const column: Column
    var last: int
    var hourly: int
    var daily: int
    var monthly: int
    var jobs: map<int, Job>
    ghost var hours: iset<int>
    ghost var days: iset<int>
    ghost var months: iset<int>

    ghost function View(): State
      reads this
    {
      State(last, hourly, daily, monthly, jobs, hours, days, months)
    }

    /** A process starts: the variable in memory is 0, the tables are as they were left. */
    constructor (c: Calendar, ghost col: Column, s: State)
      requires GoodCalendar(c) && Covered(c, s) && Nested(c, s)
      ensures calendar == c && column == col && View() == s.(last := 0)
      ensures Covered(c, View()) && Nested(c, View())
    {
      calendar, column := c, col;
      last, hourly, daily, monthly, jobs := 0, s.hourly, s.daily, s.monthly, s.jobs;
      hours, days, months := s.hours, s.days, s.months;
    }

    method RollBuckets(sentStart: int, sentEnd: int, now: int)
      modifies this
      ensures View() == Roll(calendar, old(View()), sentStart, sentEnd, now)
    {
      ghost var s := View();
      var lastHour, lastDay, lastMonth := sentStart, sentStart, sentStart;
      if sentStart == 0 {
        lastHour, lastDay, lastMonth := hourly, daily, monthly;
      }
      var myTime := if sentEnd == 0 then now else sentEnd;
      var newHourly, newDaily, newMonthly := hourly, daily, monthly;

      var start, end := calendar.hour(lastHour), calendar.hour(myTime);
      last := end;
      if end - start > 0 {
        hours := Outside(hours, start, end);
        if sentEnd == 0 {
          newHourly := end;
        }
      }
      assert hours == Outside(s.hours, start, end);

      start, end := calendar.day(lastDay), calendar.day(end);
      if end - start > 0 {
        days := Recomputed(days, start, end, hours, calendar.day);
        if sentEnd == 0 {
          newDaily := end;
        }
      }
      assert days == Recomputed(s.days, start, end, hours, calendar.day);

      start, end := calendar.month(lastMonth), calendar.month(end);
      if end - start > 0 {
        months := Recomputed(months, start, end, days, calendar.month);
        if sentEnd == 0 {
          newMonthly := end;
        }
      }
      assert months == Recomputed(s.months, start, end, days, calendar.month);
      hourly, daily, monthly := newHourly, newDaily, newMonthly;
    }

    /** `roll_usage`: a roll that meets its condition keeps the state safe, and one from the watermarks on
        brings everything before its end up to date. */
    method RollUsage(sentStart: int, sentEnd: int, now: int)
      requires GoodCalendar(calendar)
      modifies this
      ensures View() == Roll(calendar, old(View()), sentStart, sentEnd, now)
      ensures Fit(calendar, old(View())) && RollOk(calendar, old(View()), sentStart, sentEnd, now) ==>
        Fit(calendar, View()) && (sentStart == 0 ==> UpToDate(calendar, View(), RollTime(sentEnd, now)))
      ensures sentStart == 0 == sentEnd && ReadyToRoll(calendar, old(View()), now) ==>
        Fit(calendar, View()) && UpToDate(calendar, View(), now)
      ensures Rolled(calendar, old(View()), sentStart, sentEnd, now, View())
      ensures AllRolled(calendar, old(View()), sentStart, View())
    {
      hide Roll, Fit, RollOk, UpToDate, GoodCalendar, ReadyToRoll, Rolled, AllRolled;
      ghost var s := View();
      RollIs(calendar, s, sentStart, sentEnd, now);
      RolledBuckets(calendar, s, sentStart, sentEnd, now);
      if sentStart == 0 == sentEnd && ReadyToRoll(calendar, s, now) {
        FirstRollIsFit(calendar, s, now);
      }
      if Fit(calendar, s) && RollOk(calendar, s, sentStart, sentEnd, now) {
        RollKeepsFit(calendar, s, sentStart, sentEnd, now);
      }
      RollBuckets(sentStart, sentEnd, now);
    }

    method PullBackTo(time: int)
      modifies this`last, this`hourly, this`daily, this`monthly
      ensures View() == PullBack(old(View()), time)
    {
      if time < last {
        last := time;
        hourly, daily, monthly := time, time, time;
      }
    }

    /** An INSERT or UPDATE of a job row. */
    method PutRow(id: int, j: Job)
      modifies this`jobs, this`hours, this`days, this`months
      ensures View() == Put(calendar, column, old(View()), id, j)
    {
      ghost var touched := TouchedHours(calendar, column, Row(jobs, id), Some(j));
      hours := hours + touched;
      days := days + (iset h | h in touched :: calendar.day(h));
      months := months + (iset h | h in touched :: calendar.month(h));
      jobs := jobs[id := j];
    }

    /** The watermarks a start pulls back: those behind it, unless the database knows its times. */
    method PullBackForStart(e: Start)
      modifies this`last, this`hourly, this`daily, this`monthly
      ensures View() == StartPulled(old(View()), e)
    {
      var checkTime := e.start;
      if checkTime == 0 {
        checkTime := e.begin;
        if checkTime == 0 {
          checkTime := e.submit;
        }
      }
      if checkTime < last {
        if !(e.id in jobs && jobs[e.id].eligible == e.begin && jobs[e.id].start == e.start) {
          PullBackTo(checkTime);
        }
      }
      PullBackIsLate(old(View()), CheckTime(e));
    }

    /** `job_start`: news in time keeps the state safe. */
    method StartJob(e: Start)
      requires GoodCalendar(calendar) && Fit(calendar, View())
      modifies this
      ensures View() == JobStart(calendar, column, old(View()), e)
      ensures StartTimely(calendar, column, old(View()), e) ==> Fit(calendar, View())
      ensures StartStored(old(jobs), e, jobs) && StartMarks(old(View()), e, View())
    {
      StartKeepsFitIff(calendar, column, View(), e);
      StartStores(calendar, column, View(), e);
      StartMarksAre(calendar, column, View(), e);
      hide Put, Fit, StartTimely, GoodCalendar, PullBack, StartPulled, StartStored, StartMarks;
      PullBackForStart(e);
      if e.id in jobs {
        var j := jobs[e.id];
        if e.indexed {
          PutRow(e.id, j.(start := e.start, share := e.share));
        } else {
          PutRow(e.id, j.(share := e.share.(cpus := j.share.cpus)));
        }
      } else if !e.indexed {
        PutRow(e.id, Job(if e.begin == 0 then e.submit else e.begin, e.start, 0, e.share, e.reqCpus, []));
      }
    }

    /** What comes before the end is stored: without an index and a row the job is started first. */
    method PullBackForEnd(e: Start, end: int)
      requires GoodCalendar(calendar) && Fit(calendar, PullBack(View(), end))
      modifies this
      ensures View() == EndPulled(calendar, column, old(View()), e, end)
    {
      hide Fit, GoodCalendar, JobStart, StartTimely;
      PullBackTo(end);
      if !e.indexed && e.id !in jobs {
        StartJob(e);
      }
    }

    /** `job_complete`: the last UPDATE changes nothing when the row is missing. */
    method EndJob(e: Start, end: int)
      requires GoodCalendar(calendar) && Fit(calendar, View())
      modifies this
      ensures View() == JobEnd(calendar, column, old(View()), e, end)
      ensures Timely(calendar, column, old(View()), Ended(e, end)) ==> Fit(calendar, View())
      ensures EndStored(old(jobs), e, end, jobs) && EndMarks(old(View()), e, end, View())
    {
      NewsKeepsFitIff(calendar, column, View(), Ended(e, end));
      PullBackKeepsFit(calendar, View(), end);
      EndStores(calendar, column, View(), e, end);
      EndMarksAre(calendar, column, View(), e, end);
      hide Put, Fit, Timely, GoodCalendar, EndPulled, PullBack, EndStored, EndMarks;
      if end == 0 {
        return;
      }
      PullBackForEnd(e, end);
      if e.id in jobs {
        var j := jobs[e.id];
        PutRow(e.id, j.(start := if e.start > end then 0 else e.start, end := end));
      }
    }
  }

  lemma PullBackIsLate(s: State, time: int)
    ensures PullBack(s, time) == if time < s.last then PullBack(s, time) else s
  {
  }

  /** An event of a run, by the methods as they are coded. */
  method Perform(usage: Usage, e: Timed)
    requires GoodCalendar(usage.calendar) && Fit(usage.calendar, usage.View())
    requires Proper(usage.calendar, usage.column, usage.View(), e)
    requires e.event.Told? ==> e.event.news.Started? || e.event.news.Ended?
    modifies usage
    ensures usage.View() == Next(usage.calendar, usage.column, old(usage.View()), e)
    ensures Fit(usage.calendar, usage.View()) && JustRolled(usage.calendar, usage.View(), e)
  {
    NextIsFit(usage.calendar, usage.column, usage.View(), e);
    hide Fit, Timely, RollOk, GoodCalendar, JobStart, JobEnd, Roll, JustRolled;
    match e.event
    case RollUsage(sentStart, sentEnd) => usage.RollUsage(sentStart, sentEnd, e.now);
    case Told(news) =>
      if news.Started? {
        usage.StartJob(news.job);
      } else {
        usage.EndJob(news.job, news.end);
      }
  }
}
