/** The time a job has been suspended: one number per job row that is `T - suspended` after every
    change, against the intervals kept in the suspend table. */
module Suspend {

  datatype JobState = Running | Suspended | Cancelled | Other(code: int)

  /** The columns of a job row that matter here; end is 0 until the job has ended. */
  datatype Job = Job(cluster: string, state: JobState, end: int, suspended: int)

  /** A row of the suspend table; end is 0 while the job is suspended. */
  datatype Period = Period(id: int, start: int, end: int)

  datatype Tables = Tables(jobs: map<int, Job>, periods: seq<Period>)

  // ----- the statements -----

  function CloseOpen(periods: seq<Period>, ids: set<int>, time: int): seq<Period> {
    seq(|periods|, i requires 0 <= i < |periods| =>
      if periods[i].id in ids && periods[i].end == 0 then periods[i].(end := time) else periods[i])
  }

  /** `jobacct_storage_p_suspend` for a known job. */
  function SetState(t: Tables, id: int, state: JobState, time: int): Tables
    requires id in t.jobs
  {
    Tables(t.jobs[id := t.jobs[id].(suspended := time - t.jobs[id].suspended, state := state)],
           if state == Suspended then t.periods + [Period(id, time, 0)] else CloseOpen(t.periods, {id}, time))
  }

  /** The part of `job_complete` for a known job that concerns its suspensions: no period is closed. */
  function Complete(t: Tables, id: int, state: JobState, end: int): Tables
    requires id in t.jobs
  {
    if end == 0 then t else t.(jobs := t.jobs[id := t.jobs[id].(state := state, end := end)])
  }

  predicate Flushed(j: Job, cluster: string) {
    j.cluster == cluster && j.end == 0
  }

  function FlushJob(j: Job, time: int): Job {
    j.(suspended := if j.state == Suspended then time - j.suspended else j.suspended, state := Cancelled, end := time)
  }

  /** `acct_storage_p_flush_jobs_on_cluster`, over the job rows and the suspend table. */
  function Flush(t: Tables, cluster: string, time: int): Tables {
    Tables(map id <- t.jobs :: if Flushed(t.jobs[id], cluster) then FlushJob(t.jobs[id], time) else t.jobs[id],
           CloseOpen(t.periods, (set id <- t.jobs | Flushed(t.jobs[id], cluster) && t.jobs[id].state == Suspended),
                     time))
  }

  // ----- what the suspend table says about a job -----

  /** The total length of the closed intervals. */
  ghost function Closed(periods: seq<Period>, id: int): int
    decreases |periods|
  {
    if periods == [] then 0
    else
      var p := periods[|periods| - 1];
      Closed(periods[..|periods| - 1], id) + if p.id == id && p.end != 0 then p.end - p.start else 0
  }

  ghost function OpenCount(periods: seq<Period>, id: int): nat
    decreases |periods|
  {
    if periods == [] then 0
    else
      var p := periods[|periods| - 1];
      OpenCount(periods[..|periods| - 1], id) + if p.id == id && p.end == 0 then 1 else 0
  }

  /** The sum of the starts of the open intervals. */
  ghost function OpenStarts(periods: seq<Period>, id: int): int
    decreases |periods|
  {
    if periods == [] then 0
    else
      var p := periods[|periods| - 1];
      OpenStarts(periods[..|periods| - 1], id) + if p.id == id && p.end == 0 then p.start else 0
  }

  lemma {:induction false} ClosingCounts(periods: seq<Period>, ids: set<int>, time: int, id: int)
    requires time != 0
    ensures var after := CloseOpen(periods, ids, time);
      if id in ids then
        && OpenCount(after, id) == 0 && OpenStarts(after, id) == 0
        && Closed(after, id) == Closed(periods, id) + OpenCount(periods, id) * time - OpenStarts(periods, id)
      else
        && OpenCount(after, id) == OpenCount(periods, id) && OpenStarts(after, id) == OpenStarts(periods, id)
        && Closed(after, id) == Closed(periods, id)
    decreases |periods|
  {
    if periods != [] {
      var n := |periods| - 1;
      ClosingCounts(periods[..n], ids, time, id);
      assert CloseOpen(periods, ids, time)[..n] == CloseOpen(periods[..n], ids, time);
    }
  }

  // ----- the law -----

  /** A job that is not suspended has as its number the length of its closed intervals; a suspended one
      has one open interval, and its number is the start of that minus the closed length. */
  ghost predicate JobOk(j: Job, periods: seq<Period>, id: int, clock: int) {
    && 0 <= Closed(periods, id) && 0 <= j.suspended
    && if j.state == Suspended then
         && OpenCount(periods, id) == 1
         && j.suspended == OpenStarts(periods, id) - Closed(periods, id)
         && OpenStarts(periods, id) <= clock
       else
         && OpenCount(periods, id) == 0
         && j.suspended == Closed(periods, id) <= clock
  }

  ghost predicate AllOk(t: Tables, clock: int) {
    forall id <- t.jobs :: JobOk(t.jobs[id], t.periods, id, clock)
  }

  lemma SetStateKeepsOthers(t: Tables, id: int, state: JobState, time: int, other: int)
    requires id in t.jobs && time != 0 && other != id
    ensures var u := SetState(t, id, state, time);
      && Closed(u.periods, other) == Closed(t.periods, other)
      && OpenCount(u.periods, other) == OpenCount(t.periods, other)
      && OpenStarts(u.periods, other) == OpenStarts(t.periods, other)
  {
    if state == Suspended {
      assert (t.periods + [Period(id, time, 0)])[..|t.periods|] == t.periods;
    } else {
      ClosingCounts(t.periods, {id}, time, other);
    }
  }

  /** One change of a job's state keeps the law exactly when suspensions and resumptions alternate, but
      for the coincidence of a resumption of a running job at twice its number. */
  lemma SetStateKeepsLawIff(t: Tables, id: int, state: JobState, time: int, clock: int)
    requires id in t.jobs && JobOk(t.jobs[id], t.periods, id, clock) && clock <= time && 0 < time
    ensures var u := SetState(t, id, state, time);
      JobOk(u.jobs[id], u.periods, id, time) <==>
        || (t.jobs[id].state == Suspended) != (state == Suspended)
        || (t.jobs[id].state != Suspended && time == 2 * t.jobs[id].suspended)
  {
    NoneOpen(t.periods, id);
    if state == Suspended {
      assert (t.periods + [Period(id, time, 0)])[..|t.periods|] == t.periods;
    } else {
      ClosingCounts(t.periods, {id}, time, id);
      assert OpenCount(t.periods, id) == 1 ==> OpenCount(t.periods, id) * time == time;
      assert OpenCount(t.periods, id) == 0 ==> OpenCount(t.periods, id) * time == 0;
    }
  }

  lemma {:induction false} NoneOpen(periods: seq<Period>, id: int)
    ensures OpenCount(periods, id) == 0 ==> OpenStarts(periods, id) == 0
    decreases |periods|
  {
    if periods != [] {
      NoneOpen(periods[..|periods| - 1], id);
    }
  }

  // ----- any history -----

  datatype Event =
    | Change(id: int, state: JobState, time: int)
    | End(id: int, state: JobState, time: int)
    | FlushAll(cluster: string, time: int)

  /** Times do not go back, the state of a job alternates, and it does not end while it is suspended. */
  ghost predicate Fits(t: Tables, e: Event, clock: int) {
    && clock <= e.time && 0 < e.time
    && match e
       case Change(id, state, time) => id in t.jobs && (t.jobs[id].state == Suspended) != (state == Suspended)
       case End(id, state, time) => id in t.jobs && (t.jobs[id].state == Suspended) == (state == Suspended)
       case FlushAll(_, _) => true
  }

  ghost function Next(t: Tables, e: Event): Tables {
    match e
    case Change(id, state, time) => if id in t.jobs then SetState(t, id, state, time) else t
    case End(id, state, time) => if id in t.jobs then Complete(t, id, state, time) else t
    case FlushAll(cluster, time) => Flush(t, cluster, time)
  }

  ghost predicate FitsRun(t: Tables, run: seq<Event>, clock: int)
    decreases |run|
  {
    run == [] || (Fits(t, run[0], clock) && FitsRun(Next(t, run[0]), run[1..], run[0].time))
  }

  ghost function After(t: Tables, run: seq<Event>): Tables
    decreases |run|
  {
    if run == [] then t else After(Next(t, run[0]), run[1..])
  }

  /** A run is its events, one after the other. */
  lemma {:induction false} AfterOneMore(t: Tables, run: seq<Event>, e: Event)
    ensures After(t, run + [e]) == Next(After(t, run), e)
    decreases |run|
  {
    if run == [] {
      assert After(Next(t, e), []) == Next(t, e);
    } else {
      AfterOneMore(Next(t, run[0]), run[1..], e);
      assert (run + [e])[1..] == run[1..] + [e];
    }
  }

  lemma ChangeKeepsLaw(t: Tables, id: int, state: JobState, time: int, clock: int)
    requires AllOk(t, clock) && Fits(t, Change(id, state, time), clock)
    ensures AllOk(SetState(t, id, state, time), time)
  {
    var u := SetState(t, id, state, time);
    forall other | other in u.jobs
      ensures JobOk(u.jobs[other], u.periods, other, time)
    {
      if other == id {
        SetStateKeepsLawIff(t, id, state, time, clock);
      } else {
        SetStateKeepsOthers(t, id, state, time, other);
      }
    }
  }

  lemma SetStateKeepsAllIff(t: Tables, id: int, state: JobState, time: int, clock: int)
    requires AllOk(t, clock) && id in t.jobs && clock <= time && 0 < time
    ensures AllOk(SetState(t, id, state, time), time) <==>
      || (t.jobs[id].state == Suspended) != (state == Suspended)
      || (t.jobs[id].state != Suspended && time == 2 * t.jobs[id].suspended)
  {
    var u := SetState(t, id, state, time);
    SetStateKeepsLawIff(t, id, state, time, clock);
    forall other | other in u.jobs && other != id
      ensures JobOk(u.jobs[other], u.periods, other, time)
    {
      SetStateKeepsOthers(t, id, state, time, other);
    }
    hide JobOk;
    assert id in u.jobs;
  }

  /** A job that ends keeps the law exactly when it does not end out of its suspension, or into one: its open
      period would stay open while its number takes no part in it any more. */
  lemma CompleteKeepsAllIff(t: Tables, id: int, state: JobState, end: int, clock: int)
    requires AllOk(t, clock) && id in t.jobs && clock <= end
    ensures AllOk(Complete(t, id, state, end), end) <==>
      end == 0 || (t.jobs[id].state == Suspended) == (state == Suspended)
  {
    var u := Complete(t, id, state, end);
    assert JobOk(t.jobs[id], t.periods, id, clock);
    assert id in u.jobs;
  }

  /** A job is suspended at 10 and ends at 20. */
  lemma EndedSuspendedFails(cluster: string)
    ensures var t := SetState(Tables(map[1 := Job(cluster, Running, 0, 0)], []), 1, Suspended, 10);
      AllOk(t, 10) && !AllOk(Complete(t, 1, Cancelled, 20), 20)
  {
    var t := Tables(map[1 := Job(cluster, Running, 0, 0)], []);
    SetStateKeepsAllIff(t, 1, Suspended, 10, 0);
    CompleteKeepsAllIff(SetState(t, 1, Suspended, 10), 1, Cancelled, 20, 10);
  }

  /** A job that runs is resumed at 10: its number becomes 10, though it has never been suspended. */
  lemma ResumedTwiceFails(cluster: string)
    ensures var t := Tables(map[1 := Job(cluster, Running, 0, 0)], []);
      AllOk(t, 0) && !AllOk(SetState(t, 1, Running, 10), 10)
  {
    var t := Tables(map[1 := Job(cluster, Running, 0, 0)], []);
    SetStateKeepsAllIff(t, 1, Running, 10, 0);
  }

  lemma FlushKeepsLaw(t: Tables, cluster: string, time: int, clock: int)
    requires AllOk(t, clock) && clock <= time && 0 < time
    ensures AllOk(Flush(t, cluster, time), time)
  {
    var u := Flush(t, cluster, time);
    var ids := set id <- t.jobs | Flushed(t.jobs[id], cluster) && t.jobs[id].state == Suspended;
    forall id | id in u.jobs
      ensures JobOk(u.jobs[id], u.periods, id, time)
    {
      ClosingCounts(t.periods, ids, time, id);
      assert OpenCount(t.periods, id) == 1 ==> OpenCount(t.periods, id) * time == time;
    }
  }

  /** In any alternating history, ended by flushes or not, a job that is not suspended has the total
      length of its closed intervals as its number, and no number is ever negative. */
  lemma {:induction false} HistoryKeepsLaw(t: Tables, run: seq<Event>, clock: int, id: int)
    requires AllOk(t, clock) && FitsRun(t, run, clock) && id in After(t, run).jobs
    ensures var u := After(t, run);
      && 0 <= u.jobs[id].suspended
      && (u.jobs[id].state != Suspended ==>
            u.jobs[id].suspended == Closed(u.periods, id) && OpenCount(u.periods, id) == 0)
    decreases |run|
  {
    if run == [] {
      assert JobOk(t.jobs[id], t.periods, id, clock);
    } else {
      match run[0] {
        case Change(j, state, time) => ChangeKeepsLaw(t, j, state, time, clock);
        case End(j, state, time) => CompleteKeepsAllIff(t, j, state, time, clock);
        case FlushAll(cluster, time) => FlushKeepsLaw(t, cluster, time, clock);
      }
      HistoryKeepsLaw(Next(t, run[0]), run[1..], run[0].time, id);
    }
  }

  // ----- what a call does, row by row -----

  /** The open periods of the jobs end at `time`; every other period is as it was. */
  ghost predicate PeriodsEnd(was: seq<Period>, now: seq<Period>, ids: set<int>, time: int) {
    && |now| == |was|
    && forall i :: 0 <= i < |was| ==>
         && now[i].id == was[i].id && now[i].start == was[i].start
         && now[i].end == (if was[i].id in ids && was[i].end == 0 then time else was[i].end)
  }

  ghost predicate OthersStay(was: map<int, Job>, now: map<int, Job>, id: int) {
    now.Keys == was.Keys && forall i <- was :: i != id ==> now[i] == was[i]
  }

  /** A suspension opens a period at `time`, a resumption ends the open one. */
  ghost predicate StateIsSet(t: Tables, id: int, state: JobState, time: int, u: Tables)
    requires id in t.jobs
  {
    && OthersStay(t.jobs, u.jobs, id)
    && (var was, now := t.jobs[id], u.jobs[id];
        && now.state == state && now.suspended + was.suspended == time
        && now.cluster == was.cluster && now.end == was.end)
    && (if state == Suspended then u.periods == t.periods + [Period(id, time, 0)]
        else PeriodsEnd(t.periods, u.periods, {id}, time))
  }

  /** The end of a job writes its state and its end; without an end time nothing happens. */
  ghost predicate IsComplete(t: Tables, id: int, state: JobState, end: int, u: Tables)
    requires id in t.jobs
  {
    && OthersStay(t.jobs, u.jobs, id) && u.periods == t.periods
    && (var was, now := t.jobs[id], u.jobs[id];
        && now.cluster == was.cluster && now.suspended == was.suspended
        && now.state == (if end == 0 then was.state else state) && now.end == (if end == 0 then was.end else end))
  }

  /** The jobs of the cluster that have not ended are cancelled with that end, the suspended ones among them
      resumed; no other job changes. */
  ghost predicate ClusterIsFlushed(t: Tables, cluster: string, time: int, u: Tables) {
    && u.jobs.Keys == t.jobs.Keys
    && (forall id <- t.jobs ::
          var was, now := t.jobs[id], u.jobs[id];
          if was.cluster == cluster && was.end == 0 then
            && now.cluster == cluster && now.state == Cancelled && now.end == time
            && now.suspended == (if was.state == Suspended then time - was.suspended else was.suspended)
          else now == was)
    && exists ids {:trigger PeriodsEnd(t.periods, u.periods, ids, time)} ::
         && (forall id :: id in ids <==>
               id in t.jobs && t.jobs[id].cluster == cluster && t.jobs[id].end == 0 && t.jobs[id].state == Suspended)
         && PeriodsEnd(t.periods, u.periods, ids, time)
  }

  lemma StateIs(t: Tables, id: int, state: JobState, time: int)
    requires id in t.jobs
    ensures StateIsSet(t, id, state, time, SetState(t, id, state, time))
  {
  }

  lemma CompleteIs(t: Tables, id: int, state: JobState, end: int)
    requires id in t.jobs
    ensures IsComplete(t, id, state, end, Complete(t, id, state, end))
  {
  }

  lemma ClusterIs(t: Tables, cluster: string, time: int)
    ensures ClusterIsFlushed(t, cluster, time, Flush(t, cluster, time))
  {
    var ids := set id <- t.jobs | Flushed(t.jobs[id], cluster) && t.jobs[id].state == Suspended;
    assert PeriodsEnd(t.periods, Flush(t, cluster, time).periods, ids, time);
  }

  // ----- the calls as they change the tables -----

  class Accounting {
    var jobs: map<int, Job>
    var periods: seq<Period>

    ghost function View(): Tables
      reads this
    {
      Tables(jobs, periods)
    }

    /** No job has been suspended yet. */
    constructor (jobs: map<int, Job>)
      requires forall id <- jobs :: jobs[id].state != Suspended && jobs[id].suspended == 0
      ensures View() == Tables(jobs, []) && AllOk(View(), 0)
    {
      this.jobs, periods := jobs, [];
    }

    /** `jobacct_storage_p_suspend`: the job's own law holds afterwards exactly for a call that alternates,
        but for a coincidence, and that of the other jobs in any case. */
    method SuspendJob(id: int, state: JobState, time: int, ghost clock: int)
      requires id in jobs && AllOk(View(), clock) && clock <= time && 0 < time
      modifies this
      ensures View() == SetState(old(View()), id, state, time)
      ensures AllOk(View(), time) <==>
        || (old(jobs)[id].state == Suspended) != (state == Suspended)
        || (old(jobs)[id].state != Suspended && time == 2 * old(jobs)[id].suspended)
      ensures StateIsSet(old(View()), id, state, time, View())
    {
      StateIs(View(), id, state, time);
      SetStateKeepsAllIff(View(), id, state, time, clock);
      jobs := jobs[id := jobs[id].(suspended := time - jobs[id].suspended, state := state)];
      if state == Suspended {
        periods := periods + [Period(id, time, 0)];
      } else {
        periods := CloseOpen(periods, {id}, time);
      }
    }

    /** `job_complete` for a known job. */
    method CompleteJob(id: int, state: JobState, end: int, ghost clock: int)
      requires id in jobs && AllOk(View(), clock) && clock <= end
      modifies this`jobs
      ensures View() == Complete(old(View()), id, state, end)
      ensures AllOk(View(), end) <==> end == 0 || (old(jobs)[id].state == Suspended) == (state == Suspended)
      ensures IsComplete(old(View()), id, state, end, View())
    {
      CompleteIs(View(), id, state, end);
      CompleteKeepsAllIff(View(), id, state, end, clock);
      if end != 0 {
        jobs := jobs[id := jobs[id].(state := state, end := end)];
      }
    }

    /** `acct_storage_p_flush_jobs_on_cluster`: the ids are read first, then three statements run. */
    method FlushJobs(cluster: string, time: int, ghost clock: int)
      requires AllOk(View(), clock) && clock <= time && 0 < time
      modifies this
      ensures View() == Flush(old(View()), cluster, time) && AllOk(View(), time)
      ensures ClusterIsFlushed(old(View()), cluster, time, View())
    {
      FlushKeepsLaw(View(), cluster, time, clock);
      ClusterIs(View(), cluster, time);
      hide AllOk, CloseOpen, Flush, ClusterIsFlushed;
      var ids := set id <- jobs | Flushed(jobs[id], cluster);
      var suspended := set id <- ids | jobs[id].state == Suspended;
      jobs := map id <- jobs :: if id in suspended then jobs[id].(suspended := time - jobs[id].suspended) else jobs[id];
      periods := CloseOpen(periods, suspended, time);
      jobs := map id <- jobs :: if id in ids then jobs[id].(state := Cancelled, end := time) else jobs[id];
      FlushIs(old(View()), cluster, time, ids, suspended, jobs);
    }
  }

  lemma FlushIs(t: Tables, cluster: string, time: int, ids: set<int>, suspended: set<int>, jobs: map<int, Job>)
    requires ids == set id <- t.jobs | Flushed(t.jobs[id], cluster)
    requires suspended == set id <- ids | t.jobs[id].state == Suspended
    requires jobs.Keys == t.jobs.Keys
    requires forall id <- jobs ::
      var j := if id in suspended then t.jobs[id].(suspended := time - t.jobs[id].suspended) else t.jobs[id];
      jobs[id] == if id in ids then j.(state := Cancelled, end := time) else j
    ensures Tables(jobs, CloseOpen(t.periods, suspended, time)) == Flush(t, cluster, time)
  {
    hide CloseOpen;
    assert forall id :: id in suspended <==>
      id in t.jobs && Flushed(t.jobs[id], cluster) && t.jobs[id].state == Suspended;
    assert suspended == set id <- t.jobs | Flushed(t.jobs[id], cluster) && t.jobs[id].state == Suspended;
    var u := Flush(t, cluster, time);
    forall id | id in jobs
      ensures jobs[id] == u.jobs[id]
    {
      assert id in ids <==> Flushed(t.jobs[id], cluster);
    }
    assert jobs == u.jobs;
  }

  /** An event of a history, by the methods as they are coded. */
  method Perform(accounting: Accounting, e: Event, ghost clock: int)
    requires AllOk(accounting.View(), clock) && Fits(accounting.View(), e, clock)
    modifies accounting
    ensures accounting.View() == Next(old(accounting.View()), e) && AllOk(accounting.View(), e.time)
  {
    match e
    case Change(id, state, time) => accounting.SuspendJob(id, state, time, clock);
    case End(id, state, time) => accounting.CompleteJob(id, state, time, clock);
    case FlushAll(cluster, time) => accounting.FlushJobs(cluster, time, clock);
  }
}
