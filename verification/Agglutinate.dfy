/** Merging the down-time intervals of a node: `allen`, the set-up of the next-interval columns, and
    `agglutinate`. */
module Agglutinate {
  import opened Wrappers

  datatype Interval = Interval(ts: int, te: int)

  // ----- relations of successive intervals -----

  datatype Relation = Precedes | Meets | Overlaps | FinishedBy | Contains | Starts | Equals

  /** `allen`: the basic relations, converse ones left out. */
  function Allen(x: Interval, y: Interval): Option<Relation> {
    if x.te < y.ts then Some(Precedes)
    else if x.te == y.ts then Some(Meets)
    else if x.ts < y.ts && x.te > y.ts && x.te < y.te then Some(Overlaps)
    else if y.te == x.te && y.ts > x.ts then Some(FinishedBy)
    else if y.ts > x.ts && y.te < x.te then Some(Contains)
    else if x.ts == y.ts && x.te < y.te then Some(Starts)
    else if x.ts == y.ts && x.te == y.te then Some(Equals)
    else None
  }

  /** The order rows are sorted in: by start, then by end. */
  predicate RowLeq(x: Interval, y: Interval) {
    x.ts < y.ts || (x.ts == y.ts && x.te <= y.te)
  }

  /** The relations as Allen defines them, by the order of the four end points. */
  predicate Related(x: Interval, y: Interval, r: Relation) {
    match r
    case Precedes => x.te < y.ts
    case Meets => x.te == y.ts
    case Overlaps => x.ts < y.ts < x.te < y.te
    case FinishedBy => x.ts < y.ts < x.te == y.te
    case Contains => x.ts < y.ts && y.te < x.te && y.ts < x.te
    case Starts => x.ts == y.ts < x.te < y.te
    case Equals => x.ts == y.ts < x.te == y.te
  }

  /** At most one of them holds, the one found, and none exactly for intervals out of order that overlap. */
  lemma AllenIs(x: Interval, y: Interval)
    ensures forall r :: Allen(x, y) == Some(r) <==> Related(x, y, r)
    ensures Allen(x, y).None? <==> !RowLeq(x, y) && y.ts < x.te
  {
  }

  /** Between sorted rows some relation always holds, and it is "precedes" exactly when there is a gap. */
  lemma AllenIsTotal(x: Interval, y: Interval)
    requires RowLeq(x, y)
    ensures Allen(x, y).Some?
    ensures Allen(x, y) == Some(Precedes) <==> x.te < y.ts
  {
  }

  ghost predicate Rows(rows: seq<Interval>) {
    forall i, j :: 0 <= i < j < |rows| ==> RowLeq(rows[i], rows[j])
  }

  // ----- chains -----

  /** The key of a row after the first step: a gap below the lag counts as meeting.  The last row has
      no next row. */
  function Key(rows: seq<Interval>, lag: int, i: nat): Option<Relation>
    requires i < |rows|
  {
    if i == |rows| - 1 then None
    else
      var key := Allen(rows[i], rows[i + 1]);
      if key == Some(Precedes) && rows[i + 1].ts - rows[i].te < lag then Some(Meets) else key
  }

  /** Row `i` is joined with the next one. */
  predicate Joined(rows: seq<Interval>, lag: int, i: int) {
    0 <= i && i + 1 < |rows| && Key(rows, lag, i) != Some(Precedes)
  }

  /** Far enough: `x` ends before `start`, by at least the lag. */
  predicate Clear(x: Interval, start: int, lag: int) {
    x.te < start && start - x.te >= lag
  }

  lemma BreakIsClear(rows: seq<Interval>, lag: int, i: nat)
    requires Rows(rows) && i + 1 < |rows|
    ensures !Joined(rows, lag, i) <==> Clear(rows[i], rows[i + 1].ts, lag)
  {
    AllenIsTotal(rows[i], rows[i + 1]);
  }

  /** The first row of the chain that row `i` is in. */
  function ChainStart(rows: seq<Interval>, lag: int, i: nat): (a: nat)
    requires i < |rows|
    ensures a <= i && (forall j :: a <= j < i ==> Joined(rows, lag, j))
    ensures !Joined(rows, lag, a - 1)
  {
    if Joined(rows, lag, i - 1) then ChainStart(rows, lag, i - 1) else i
  }

  predicate ChainEnd(rows: seq<Interval>, lag: int, i: nat) {
    i < |rows| && !Joined(rows, lag, i)
  }

  // ----- hulls -----

  function MinStart(rows: seq<Interval>, a: nat, b: nat): (m: int)
    requires a <= b < |rows|
    ensures forall i :: a <= i <= b ==> m <= rows[i].ts
    ensures exists i :: a <= i <= b && m == rows[i].ts
    decreases b - a
  {
    if a == b then rows[a].ts
    else
      var m := MinStart(rows, a, b - 1);
      if rows[b].ts < m then rows[b].ts else m
  }

  function MaxEnd(rows: seq<Interval>, a: nat, b: nat): (m: int)
    requires a <= b < |rows|
    ensures forall i :: a <= i <= b ==> rows[i].te <= m
    ensures exists i :: a <= i <= b && m == rows[i].te
    decreases b - a
  {
    if a == b then rows[a].te
    else
      var m := MaxEnd(rows, a, b - 1);
      if rows[b].te > m then rows[b].te else m
  }

  function Hull(rows: seq<Interval>, a: nat, b: nat): Interval
    requires a <= b < |rows|
  {
    Interval(MinStart(rows, a, b), MaxEnd(rows, a, b))
  }

  lemma HullOfOne(rows: seq<Interval>, a: nat)
    requires a < |rows|
    ensures Hull(rows, a, a) == rows[a]
  {
  }

  lemma HullGrows(rows: seq<Interval>, a: nat, b: nat)
    requires a < b < |rows|
    ensures var h, r := Hull(rows, a, b - 1), rows[b];
      Hull(rows, a, b) == Interval(if r.ts < h.ts then r.ts else h.ts, if r.te > h.te then r.te else h.te)
  {
  }

  /** What is left of the rows: at the place of every chain's last row, the hull of the chain. */
  ghost predicate IsResult(rows: seq<Interval>, lag: int, df: map<nat, Interval>) {
    && (forall i :: i in df <==> ChainEnd(rows, lag, i))
    && forall i <- df :: df[i] == Hull(rows, ChainStart(rows, lag, i), i)
  }

  // ----- what the result is good for -----

  /** The last row of the chain that row `i` is in. */
  ghost function EndOf(rows: seq<Interval>, lag: int, i: nat): (b: nat)
    requires i < |rows|
    ensures i <= b < |rows| && ChainEnd(rows, lag, b) && ChainStart(rows, lag, b) <= i
    decreases |rows| - i
  {
    if Joined(rows, lag, i) then
      var b := EndOf(rows, lag, i + 1);
      StartReaches(rows, lag, i, b);
      b
    else i
  }

  lemma {:induction false} StartReaches(rows: seq<Interval>, lag: int, i: nat, b: nat)
    requires i < b < |rows| && Joined(rows, lag, i) && ChainStart(rows, lag, b) <= i + 1
    ensures ChainStart(rows, lag, b) <= i
    decreases b - i
  {
    var a := ChainStart(rows, lag, b);
    if a == i + 1 {
      assert false;
    }
  }

  /** Every row lies in the hull at the end of its chain, and in the chain of no other hull. */
  lemma RowsAreCovered(rows: seq<Interval>, lag: int, df: map<nat, Interval>, i: nat)
    requires IsResult(rows, lag, df) && i < |rows|
    ensures exists b ::
      b in df && ChainStart(rows, lag, b) <= i <= b && df[b].ts <= rows[i].ts && rows[i].te <= df[b].te
    ensures forall b, c ::
      b in df && c in df && ChainStart(rows, lag, b) <= i <= b && ChainStart(rows, lag, c) <= i <= c ==> b == c
  {
    var b := EndOf(rows, lag, i);
    assert b in df && df[b] == Hull(rows, ChainStart(rows, lag, b), b);
    forall b, c | b in df && c in df && ChainStart(rows, lag, b) <= i <= b && ChainStart(rows, lag, c) <= i <= c
      ensures b == c
    {
      assert b < c ==> Joined(rows, lag, b);
      assert c < b ==> Joined(rows, lag, c);
    }
  }

  /** Hulls come in the order of their starts, each starting where its first row does. */
  lemma HullsAreSorted(rows: seq<Interval>, lag: int, df: map<nat, Interval>, b: nat, c: nat)
    requires Rows(rows) && IsResult(rows, lag, df) && b in df && c in df && b < c
    ensures df[b].ts == rows[ChainStart(rows, lag, b)].ts && df[b].ts <= df[c].ts
  {
    var a, d := ChainStart(rows, lag, b), ChainStart(rows, lag, c);
    assert d <= b ==> Joined(rows, lag, b);
    assert df[b] == Hull(rows, a, b) && df[c] == Hull(rows, d, c);
    FirstIsLeast(rows, a, b);
    FirstIsLeast(rows, d, c);
  }

  lemma FirstIsLeast(rows: seq<Interval>, a: nat, b: nat)
    requires Rows(rows) && a <= b < |rows|
    ensures MinStart(rows, a, b) == rows[a].ts
  {
  }

  ghost predicate Separated(df: map<nat, Interval>, lag: int) {
    forall b, c :: b in df && c in df && b < c ==> Clear(df[b], df[c].ts, lag)
  }

  /** If a gap is found behind row `i`, row `j` does not reach over it. */
  ghost predicate OverNoGap(rows: seq<Interval>, lag: int, i: nat, j: nat)
    requires j <= i && i + 1 < |rows|
  {
    Clear(rows[i], rows[i + 1].ts, lag) ==> Clear(rows[j], rows[i + 1].ts, lag)
  }

  /** What a caller has to check: no row reaches into the lag of a row behind a gap. */
  ghost predicate NoReach(rows: seq<Interval>, lag: int) {
    forall i: nat, j: nat {:trigger OverNoGap(rows, lag, i, j)} :: j <= i && i + 1 < |rows| ==>
      OverNoGap(rows, lag, i, j)
  }

  lemma ChainsApart(rows: seq<Interval>, lag: int, b: nat, c: nat)
    requires ChainEnd(rows, lag, b) && ChainEnd(rows, lag, c) && b < c
    ensures b < ChainStart(rows, lag, c)
  {
    assert ChainStart(rows, lag, c) <= b ==> Joined(rows, lag, b);
  }

  lemma HullIsClear(rows: seq<Interval>, lag: int, a: nat, b: nat, d: nat)
    requires Rows(rows) && NoReach(rows, lag) && a <= b < d < |rows| && !Joined(rows, lag, d - 1)
    ensures Clear(Hull(rows, a, b), rows[d].ts, lag)
  {
    BreakIsClear(rows, lag, d - 1);
    hide Rows, NoReach, Joined;
    var m: nat :| a <= m <= b && MaxEnd(rows, a, b) == rows[m].te;
    assert OverNoGap(rows, lag, d - 1, m);
  }

  /** What stands at the last row of a chain. */
  lemma ResultAt(rows: seq<Interval>, lag: int, df: map<nat, Interval>, b: nat)
    requires Rows(rows) && IsResult(rows, lag, df) && b in df
    ensures ChainEnd(rows, lag, b) && b < |rows|
    ensures df[b] == Hull(rows, ChainStart(rows, lag, b), b)
    ensures df[b].ts == rows[ChainStart(rows, lag, b)].ts
  {
    FirstIsLeast(rows, ChainStart(rows, lag, b), b);
  }

  lemma SeparatedWhenNoReach(rows: seq<Interval>, lag: int, df: map<nat, Interval>, b: nat, c: nat)
    requires Rows(rows) && IsResult(rows, lag, df) && NoReach(rows, lag) && b in df && c in df && b < c
    ensures Clear(df[b], df[c].ts, lag)
  {
    hide *;
    ResultAt(rows, lag, df, b);
    ResultAt(rows, lag, df, c);
    ChainsApart(rows, lag, b, c);
    HullIsClear(rows, lag, ChainStart(rows, lag, b), b, ChainStart(rows, lag, c));
  }

  lemma NoReachWhenSeparated(rows: seq<Interval>, lag: int, df: map<nat, Interval>, i: nat, j: nat)
    requires Rows(rows) && IsResult(rows, lag, df) && Separated(df, lag)
    requires j <= i && i + 1 < |rows| && Clear(rows[i], rows[i + 1].ts, lag)
    ensures Clear(rows[j], rows[i + 1].ts, lag)
  {
    BreakIsClear(rows, lag, i);
    var b, c := EndOf(rows, lag, j), EndOf(rows, lag, i + 1);
    assert i < b ==> Joined(rows, lag, i);
    assert b <= i;
    var d := ChainStart(rows, lag, c);
    assert d <= i ==> Joined(rows, lag, i);
    assert d == i + 1;
    assert df[b] == Hull(rows, ChainStart(rows, lag, b), b) && df[c] == Hull(rows, d, c);
    FirstIsLeast(rows, d, c);
    assert Clear(df[b], df[c].ts, lag);
  }

  /** The results lie apart by the lag exactly when no row reaches over a gap found behind a later,
      shorter one. */
  lemma SeparatedIff(rows: seq<Interval>, lag: int, df: map<nat, Interval>)
    requires Rows(rows) && IsResult(rows, lag, df)
    ensures Separated(df, lag) <==> NoReach(rows, lag)
  {
    if NoReach(rows, lag) {
      forall b, c | b in df && c in df && b < c
        ensures Clear(df[b], df[c].ts, lag)
      {
        SeparatedWhenNoReach(rows, lag, df, b, c);
      }
    }
    if Separated(df, lag) {
      forall i: nat, j: nat | j <= i && i + 1 < |rows|
        ensures OverNoGap(rows, lag, i, j)
      {
        if Clear(rows[i], rows[i + 1].ts, lag) {
          NoReachWhenSeparated(rows, lag, df, i, j);
        }
      }
    }
  }

  /** In particular when the ends do not decrease. */
  lemma EndsInOrder(rows: seq<Interval>, lag: int, df: map<nat, Interval>)
    requires Rows(rows) && IsResult(rows, lag, df)
    requires forall i, j :: 0 <= i < j < |rows| ==> rows[i].te <= rows[j].te
    ensures Separated(df, lag)
  {
    forall i: nat, j: nat | j <= i && i + 1 < |rows|
      ensures OverNoGap(rows, lag, i, j)
    {
    }
    hide Rows, IsResult, Separated, Key, Joined;
    SeparatedIff(rows, lag, df);
  }

  /** An interval containing a later one hides what comes after: 0..100, 10..20, 50..60 with lag 10
      leaves 0..100 beside 50..60. */
  lemma ContainedIsMissed(df: map<nat, Interval>)
    requires IsResult([Interval(0, 100), Interval(10, 20), Interval(50, 60)], 10, df)
    ensures !Separated(df, 10)
  {
    var rows := [Interval(0, 100), Interval(10, 20), Interval(50, 60)];
    assert !OverNoGap(rows, 10, 1, 0);
    SeparatedIff(rows, 10, df);
  }

  // ----- the data frame -----

  /** Set-up: events shorter than the minimum are left out. */
  function LongEnough(events: seq<Interval>, dtMin: int): (kept: seq<Interval>)
    ensures forall e :: e in kept <==> e in events && e.te - e.ts >= dtMin
    decreases |events|
  {
    if events == [] then []
    else if events[0].te - events[0].ts < dtMin then LongEnough(events[1..], dtMin)
    else [events[0]] + LongEnough(events[1..], dtMin)
  }

  /** Each as often as it came. */
  lemma {:induction false} LongEnoughAll(events: seq<Interval>, dtMin: int, e: Interval)
    ensures multiset(LongEnough(events, dtMin))[e] == if e.te - e.ts >= dtMin then multiset(events)[e] else 0
    decreases |events|
  {
    if events != [] {
      LongEnoughAll(events[1..], dtMin, e);
      assert events == [events[0]] + events[1..];
    }
  }

  lemma {:induction false} LongEnoughSorted(events: seq<Interval>, dtMin: int)
    requires Rows(events)
    ensures Rows(LongEnough(events, dtMin))
    decreases |events|
  {
    if events != [] {
      LongEnoughSorted(events[1..], dtMin);
      var rest := LongEnough(events[1..], dtMin);
      forall j | 0 <= j < |rest|
        ensures RowLeq(events[0], rest[j])
      {
        assert rest[j] in events[1..];
      }
    }
  }

  /** Row `i` is as it came, or the hull that replaces its chain. */
  ghost predicate Settled(input: seq<Interval>, lag: int, rows: map<nat, Interval>, q: nat) {
    && (forall i: nat :: i in rows <==> if i < q then ChainEnd(input, lag, i) else i < |input|)
    && forall i <- rows :: rows[i] == if i < q then Hull(input, ChainStart(input, lag, i), i) else input[i]
  }

  /** Rows joined with neither neighbour need no work. */
  lemma SkipUnjoined(input: seq<Interval>, lag: int, rows: map<nat, Interval>, p: nat, q: nat)
    requires Settled(input, lag, rows, p) && p <= q <= |input|
    requires !Joined(input, lag, p - 1)
    requires forall i :: p <= i < q ==> !Joined(input, lag, i)
    ensures Settled(input, lag, rows, q)
  {
    forall i | p <= i < q
      ensures ChainStart(input, lag, i) == i
    {
    }
  }

  lemma Unsettled(input: seq<Interval>, lag: int, rows: map<nat, Interval>)
    requires forall i: nat :: i in rows <==> i < |input|
    requires forall i <- rows :: rows[i] == input[i]
    ensures Settled(input, lag, rows, 0) && !Joined(input, lag, -1)
  {
  }

  lemma AllSettled(input: seq<Interval>, lag: int, rows: map<nat, Interval>)
    requires Settled(input, lag, rows, |input|)
    ensures IsResult(input, lag, rows)
  {
  }

  /** No row from `p` up to the next listed one is joined. */
  lemma Between(input: seq<Interval>, lag: int, ovl: seq<nat>, k: nat, p: nat, q: nat)
    requires forall i :: 0 <= i < |input| && Joined(input, lag, i) ==> i in ovl
    requires k <= |ovl| && q <= |input|
    requires forall l :: 0 <= l < k ==> ovl[l] < p
    requires forall l :: k <= l < |ovl| ==> q <= ovl[l]
    ensures forall i :: p <= i < q ==> !Joined(input, lag, i)
  {
    hide Joined;
    forall i | p <= i < q
      ensures !Joined(input, lag, i)
    {
      assert forall l :: 0 <= l < |ovl| ==> ovl[l] != i;
    }
  }

  /** The row behind row `i`: the columns shifted by one. */
  function NextRow(rows: seq<Interval>, i: nat): Interval
    requires i + 1 < |rows|
  {
    rows[i + 1]
  }

  /** A run of joined rows has gone, and its hull stands in the row behind it. */
  lemma SettledMerge(input: seq<Interval>, lag: int, rows: map<nat, Interval>, now: map<nat, Interval>, first: nat,
                     next: nat)
    requires first < next < |input| && Settled(input, lag, rows, first)
    requires forall i :: first <= i < next ==> Joined(input, lag, i)
    requires !Joined(input, lag, first - 1) && !Joined(input, lag, next)
    requires forall i: nat :: i in now <==> i in rows && !(first <= i < next)
    requires forall i <- now :: now[i] == if i == next then Hull(input, first, next) else rows[i]
    ensures Settled(input, lag, now, next + 1)
  {
    StartOfRun(input, lag, first, next);
  }

  /** One node's rows by index, with the start of the next row and the relation to it; the last row has
      neither. */
  class Frame {
    var count: nat
    var rows: map<nat, Interval>
    var nextStart: map<nat, int>
    var key: map<nat, Relation>

    ghost predicate Loaded(input: seq<Interval>)
      reads this
    {
      && count == |input|
      && (forall i: nat :: i in rows <==> i < count)
      && (forall i <- rows :: rows[i] == input[i])
      && (forall i: nat :: i in nextStart <==> i + 1 < count)
      && (forall i <- nextStart :: nextStart[i] == NextRow(input, i).ts)
      && (forall i: nat :: i in key <==> i + 1 < count)
      && forall i <- key :: Allen(input[i], NextRow(input, i)) == Some(key[i])
    }

    /** The set-up: short events leave, the next interval's columns and the relation to it come in. */
    constructor (events: seq<Interval>, dtMin: int)
      requires Rows(events)
      ensures Loaded(LongEnough(events, dtMin))
    {
      LongEnoughSorted(events, dtMin);
      var input := LongEnough(events, dtMin);
      forall i: nat | i + 1 < |input|
        ensures Allen(input[i], NextRow(input, i)).Some?
      {
        AllenIsTotal(input[i], input[i + 1]);
      }
      count := |input|;
      rows := map i: nat | 0 <= i < |input| :: input[i];
      nextStart := map i: nat | 0 <= i < |input| && i + 1 < |input| :: NextRow(input, i).ts;
      key := map i: nat | 0 <= i < |input| && i + 1 < |input| :: Allen(input[i], NextRow(input, i)).value;
    }

    /** Step 1: rows a gap below the lag apart count as meeting. */
    method CloseGaps(lag: int, ghost input: seq<Interval>)
      requires Loaded(input)
      modifies this`key
      ensures forall i: nat :: i in key <==> i + 1 < count
      ensures forall i <- key :: Key(input, lag, i) == Some(key[i])
    {
      key := map i | i in key :: if key[i] == Precedes && nextStart[i] - rows[i].te < lag then Meets else key[i];
    }

    /** The indices of the rows joined with the next one. */
    method Overlapping(lag: int, ghost input: seq<Interval>) returns (ovl: seq<nat>)
      requires count == |input|
      requires forall i: nat :: i in key <==> i + 1 < count
      requires forall i <- key :: Key(input, lag, i) == Some(key[i])
      ensures forall k :: 0 <= k < |ovl| ==> Joined(input, lag, ovl[k])
      ensures forall k, l :: 0 <= k < l < |ovl| ==> ovl[k] < ovl[l]
      ensures forall i :: 0 <= i < |input| && Joined(input, lag, i) ==> i in ovl
    {
      ovl := [];
      for i := 0 to count
        invariant forall k :: 0 <= k < |ovl| ==> ovl[k] < i && Joined(input, lag, ovl[k])
        invariant forall k, l :: 0 <= k < l < |ovl| ==> ovl[k] < ovl[l]
        invariant forall j :: 0 <= j < i && Joined(input, lag, j) ==> j in ovl
      {
        if i in key && key[i] != Precedes {
          ovl := ovl + [i];
        }
      }
    }

    /** The run of consecutive indices that starts at place `k`, and the place behind it. */
    method RunEnd(ovl: seq<nat>, k: nat, lag: int, ghost input: seq<Interval>) returns (last: nat, m: nat)
      requires k < |ovl|
      requires forall l :: 0 <= l < |ovl| ==> Joined(input, lag, ovl[l])
      requires forall l, n :: 0 <= l < n < |ovl| ==> ovl[l] < ovl[n]
      requires forall i :: 0 <= i < |input| && Joined(input, lag, i) ==> i in ovl
      ensures k < m <= |ovl| && ovl[m - 1] == last && ovl[k] <= last && last + 1 < |input|
      ensures forall i :: ovl[k] <= i <= last ==> Joined(input, lag, i)
      ensures !Joined(input, lag, last + 1)
      ensures forall l :: m <= l < |ovl| ==> last + 2 <= ovl[l]
    {
      last, m := ovl[k], k + 1;
      while m < |ovl| && ovl[m] == last + 1
        invariant k < m <= |ovl| && ovl[k] <= last == ovl[m - 1]
        invariant forall i :: ovl[k] <= i <= last ==> Joined(input, lag, i)
      {
        last := ovl[m];
        m := m + 1;
      }
    }

    /** The index of the row that follows `i`. */
    method NextIndex(i: nat) returns (next: nat)
      requires exists j :: j in rows && i < j
      ensures next in rows && i < next && forall j :: i < j < next ==> j !in rows
    {
      ghost var far :| far in rows && i < far;
      next := i + 1;
      while next !in rows
        invariant i < next <= far
        decreases far - next
        invariant forall j :: i < j < next ==> j !in rows
      {
        next := next + 1;
      }
    }

    /** The least start and the greatest end of a slice. */
    method SliceHull(first: nat, next: nat, ghost input: seq<Interval>) returns (hull: Interval)
      requires first <= next < |input|
      requires forall i :: first <= i <= next ==> i in rows && rows[i] == input[i]
      ensures hull == Hull(input, first, next)
    {
      hide Hull, MinStart, MaxEnd;
      var tsMin, teMax := rows[first].ts, rows[first].te;
      HullOfOne(input, first);
      for i := first + 1 to next + 1
        invariant Interval(tsMin, teMax) == Hull(input, first, i - 1)
      {
        HullGrows(input, first, i);
        if rows[i].ts < tsMin { tsMin := rows[i].ts; }
        if rows[i].te > teMax { teMax := rows[i].te; }
      }
      hull := Interval(tsMin, teMax);
    }

    /** One run of joined rows, `first..last`, and the row behind it become their hull. */
    method MergeRun(first: nat, last: nat, lag: int, ghost input: seq<Interval>)
      requires first <= last && last + 1 < |input| && Settled(input, lag, rows, first)
      requires forall i :: first <= i <= last ==> Joined(input, lag, i)
      requires !Joined(input, lag, first - 1) && !Joined(input, lag, last + 1)
      modifies this`rows
      ensures Settled(input, lag, rows, last + 2)
    {
      hide Joined, Key, Hull;
      ghost var was := rows;
      assert last + 1 in rows;
      var next := NextIndex(last);
      var hull := SliceHull(first, next, input);
      rows := rows[next := hull];
      rows := map i | i in rows && !(first <= i <= last) :: rows[i];
      SettledMerge(input, lag, was, rows, first, next);
    }

    /** `agglutinate`. */
    method Agglutinate(lag: int, ghost input: seq<Interval>)
      requires Loaded(input)
      modifies this
      ensures IsResult(input, lag, rows)
    {
      hide Key, Hull, ChainStart, Settled, Joined, IsResult;
      Unsettled(input, lag, rows);
      CloseGaps(lag, input);
      var ovl := Overlapping(lag, input);
      var k := 0;
      ghost var p: nat := 0;
      while k < |ovl|
        invariant 0 <= k <= |ovl| && p <= |input| && Settled(input, lag, rows, p)
        invariant !Joined(input, lag, p - 1)
        invariant forall l :: 0 <= l < k ==> ovl[l] < p
        invariant forall l :: k <= l < |ovl| ==> p <= ovl[l]
      {
        var first := ovl[k];
        var last, m := RunEnd(ovl, k, lag, input);
        Between(input, lag, ovl, k, p, first);
        k := m;
        SkipUnjoined(input, lag, rows, p, first);
        MergeRun(first, last, lag, input);
        p := last + 2;
      }
      Between(input, lag, ovl, k, p, |input|);
      SkipUnjoined(input, lag, rows, p, |input|);
      AllSettled(input, lag, rows);
    }
  }

  lemma {:induction false} StartOfRun(input: seq<Interval>, lag: int, first: nat, b: nat)
    requires first <= b < |input|
    requires forall i :: first <= i < b ==> Joined(input, lag, i)
    requires !Joined(input, lag, first - 1)
    ensures ChainStart(input, lag, b) == first
    decreases b
  {
    if b > first {
      StartOfRun(input, lag, first, b - 1);
    }
  }

  /** The relation that comes in is Allen's, between the row and the next. */
  lemma RelatedWhenLoaded(f: Frame, input: seq<Interval>)
    requires f.Loaded(input)
    ensures forall i <- f.key :: i in f.rows && i + 1 in f.rows && Related(f.rows[i], f.rows[i + 1], f.key[i])
  {
    forall i | i in f.key
      ensures Related(f.rows[i], f.rows[i + 1], f.key[i])
    {
      AllenIs(input[i], input[i + 1]);
      hide Related, Allen;
    }
  }
}
