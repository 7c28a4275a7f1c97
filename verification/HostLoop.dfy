/** The loops of `collect_hostlist_1` and `collect_hostlist`. */
module HostLoop {
  import opened Wrappers
  import opened HostText
  import opened HostExpand
  import opened HostCollect
  import opened HostRound
  import S = HostSort

  // ----- scanning a range -----

  lemma NamedAppend(p: string, a: seq<string>, b: seq<string>, suffix: string)
    ensures Named(p, a + b, suffix) == Named(p, a, suffix) + Named(p, b, suffix)
  {
  }

  lemma NameInjective(p: string, a: string, b: string, suffix: string)
    requires p + a + suffix == p + b + suffix
    ensures a == b
  {
    assert |a| == |b|;
    assert a == (p + a + suffix)[|p|..|p| + |a|];
    assert b == (p + b + suffix)[|p|..|p| + |b|];
  }

  lemma RangeNoDup(width: nat, low: nat, high: int)
    requires low <= high + 1
    ensures NoDup(RangeStrings("", width, low, high))
    ensures forall num <- RangeStrings("", width, low, high) :: num != "" && AllDigits(num)
  {
    var l := RangeStrings("", width, low, high);
    forall i | 0 <= i < |l|
      ensures l[i] == Fmt(width, low + i)
    {
      assert "" + Fmt(width, low + i) == Fmt(width, low + i);
    }
    forall i, j | 0 <= i < j < |l|
      ensures l[i] != l[j]
    {
      hide RangeStrings, Fmt;
      if l[i] == l[j] {
        FmtInjective(width, low + i, low + j);
      }
    }
  }

  lemma RangeGrows(width: nat, low: nat, high: nat)
    requires low <= high
    ensures RangeStrings("", width, low, high) == RangeStrings("", width, low, high - 1) + [Fmt(width, high)]
  {
    assert "" + Fmt(width, high) == Fmt(width, high);
  }

  /** The hosts of the range low..high have been there and are gone now. */
  ghost predicate Scanned(p: string, width: nat, low: nat, high: int, suffix: string, before: set<string>,
                          remaining: set<string>) {
    && low <= high + 1
    && remaining == before - Named(p, RangeStrings("", width, low, high), suffix)
    && Named(p, RangeStrings("", width, low, high), suffix) <= before
  }

  lemma ScanStep(p: string, width: nat, low: nat, n: nat, suffix: string, before: set<string>, remaining: set<string>)
    requires Scanned(p, width, low, n - 1, suffix, before, remaining) && p + Fmt(width, n) + suffix in remaining
    ensures Scanned(p, width, low, n, suffix, before, remaining - {p + Fmt(width, n) + suffix})
  {
    RangeGrows(width, low, n);
    NamedAppend(p, RangeStrings("", width, low, n - 1), [Fmt(width, n)], suffix);
    assert Named(p, [Fmt(width, n)], suffix) == {p + Fmt(width, n) + suffix};
  }

  lemma ScanStart(p: string, width: nat, low: nat, suffix: string, before: set<string>)
    ensures Scanned(p, width, low, low - 1, suffix, before, before)
  {
    assert RangeStrings("", width, low, low - 1) == [];
    assert Named(p, [], suffix) == {};
  }

  /** The inner `while True`: from a number on, remove host after host as long as it is there. */
  method ScanRange(p: string, width: nat, low: nat, suffix: string, before: set<string>)
    returns (remaining: set<string>, high: int)
    ensures Scanned(p, width, low, high, suffix, before, remaining)
    ensures p + Fmt(width, low) + suffix in before ==> low <= high
    ensures 0 <= high + 1 && p + Fmt(width, high + 1) + suffix !in remaining
  {
    remaining := before;
    var n: int := low;
    ScanStart(p, width, low, suffix, before);
    while p + Fmt(width, n) + suffix in remaining
      invariant low <= n && (n == low ==> remaining == before)
      invariant Scanned(p, width, low, n - 1, suffix, before, remaining)
      decreases |remaining|
    {
      ScanStep(p, width, low, n, suffix, before, remaining);
      remaining := remaining - {p + Fmt(width, n) + suffix};
      n := n + 1;
    }
    high := n - 1;
  }

  // ----- one group -----

  /** The numbers taken from a group so far: all there, all different, and removed from `before`. */
  ghost predicate Taken(p: string, ranges: seq<Range>, suffix: string, before: set<string>, remaining: set<string>) {
    && GoodRanges(ranges)
    && TakenState(p, Nums(ranges), suffix, before, remaining)
  }

  ghost predicate TakenState(p: string, nums: seq<string>, suffix: string, before: set<string>,
                             remaining: set<string>) {
    && NoDup(nums) && (forall num <- nums :: num != "" && AllDigits(num))
    && Named(p, nums, suffix) <= before
    && remaining == before - Named(p, nums, suffix)
  }

  lemma TakenMore(p: string, ranges: seq<Range>, suffix: string, before: set<string>, remaining: set<string>,
                  r: Range, after: set<string>)
    requires Taken(p, ranges, suffix, before, remaining) && GoodRange(r)
    requires Named(p, RangeNums(r), suffix) <= remaining && after == remaining - Named(p, RangeNums(r), suffix)
    ensures Taken(p, ranges + [r], suffix, before, after)
  {
    var a, b := Nums(ranges), RangeNums(r);
    NumsAppend(ranges, r);
    NamedAppend(p, a, b, suffix);
    RangeNoDup(r.width, r.low, r.high);
    forall i, j | 0 <= i < |a| && 0 <= j < |b|
      ensures a[i] != b[j]
    {
      assert a[i] in a && b[j] in b;
      assert p + a[i] + suffix in Named(p, a, suffix) && p + b[j] + suffix in Named(p, b, suffix);
    }
    assert NoDup(a + b);
  }

  lemma Regroup4(a: string, b: string, c: string, d: string)
    ensures a + b + c + d == a + b + (c + d)
  {
  }

  /** What `sortlist` holds for a pair with a number. */
  lemma ItemHost(e: Pair)
    requires ItemOf(e).suffix.Some?
    ensures var it := ItemOf(e);
      && it.num >= 0 && it.width > 0 && |Fmt(it.width, it.num)| == it.width
      && it.host == it.prefix + Fmt(it.width, it.num) + it.suffix.value
      && InGroup(e, it.prefix, it.suffix.value)
  {
    var c := CutLast(e.left);
    CutWhole(e.left);
    FmtOfValue(c.num);
    Regroup4(c.prefix, c.num, c.suffix, e.right);
  }

  // ----- the state between two groups -----

  ghost function Names(pairs: seq<Pair>): set<string> {
    set e <- pairs :: Host(e)
  }

  /** The hosts of the entries from `i` on. */
  ghost function Ahead(sorted: seq<S.Item>, i: nat): set<string>
    requires i <= |sorted|
  {
    set m | i <= m < |sorted| :: sorted[m].host
  }

  ghost predicate HasItem(pairs: seq<Pair>, it: S.Item) {
    exists e :: e in pairs && ItemOf(e) == it
  }

  /** The sorted entries are those of the pairs. */
  ghost predicate Lists(pairs: seq<Pair>, sorted: seq<S.Item>) {
    && S.Sorted(sorted)
    && (forall m :: 0 <= m < |sorted| ==> HasItem(pairs, sorted[m]))
    && (forall e <- pairs :: ItemOf(e) in sorted)
  }

  ghost predicate Stands(pairs: seq<Pair>, x: string) {
    exists e :: e in pairs && x in Hosts(Host(e))
  }

  ghost predicate StandsFor(names: set<string>, x: string) {
    exists h :: h in names && x in Hosts(h)
  }

  ghost predicate Apart(pairs: seq<Pair>) {
    forall i, j :: 0 <= i < j < |pairs| ==> Disjoint(Host(pairs[i]), Host(pairs[j]))
  }

  /** The pairs collected so far stand for the names taken so far. */
  ghost predicate Collected(results: seq<Pair>, names: set<string>, r: nat) {
    && (forall i :: 0 <= i < |results| ==> TidyPair(results[i], r + 1))
    && Apart(results)
    && forall x {:trigger Stands(results, x)} :: Stands(results, x) <==> StandsFor(names, x)
  }

  ghost predicate NamesDisjoint(names: set<string>) {
    forall a, b :: a in names && b in names && a != b ==> Disjoint(a, b)
  }

  lemma TidyNames(pairs: seq<Pair>, r: nat)
    requires Tidy(pairs, r)
    ensures NamesDisjoint(Names(pairs))
  {
    forall a, b | a in Names(pairs) && b in Names(pairs) && a != b
      ensures Disjoint(a, b)
    {
      var i :| 0 <= i < |pairs| && Host(pairs[i]) == a;
      var j :| 0 <= j < |pairs| && Host(pairs[j]) == b;
    }
  }

  /** One more pair, standing for the hosts of names not taken before. */
  lemma CollectedMore(results: seq<Pair>, names: set<string>, r: nat, e: Pair, more: set<string>, all: set<string>)
    requires Collected(results, names, r) && TidyPair(e, r + 1)
    requires names !! more && names <= all && more <= all && NamesDisjoint(all)
    requires forall x :: x in Hosts(Host(e)) <==> StandsFor(more, x)
    ensures Collected(results + [e], names + more, r)
  {
    forall x
      ensures Stands(results + [e], x) <==> StandsFor(names + more, x)
    {
      assert Stands(results, x) <==> StandsFor(names, x);
      StandsMore(results, names, e, more, x);
    }
    forall i | 0 <= i < |results|
      ensures Disjoint(Host(results[i]), Host(e))
    {
      forall x
        ensures !(x in Hosts(Host(results[i])) && x in Hosts(Host(e)))
      {
        assert Stands(results, x) <==> StandsFor(names, x);
        assert results[i] in results;
        StandsOnce(names, more, all, x);
      }
    }
  }

  lemma StandsMore(results: seq<Pair>, names: set<string>, e: Pair, more: set<string>, x: string)
    requires Stands(results, x) <==> StandsFor(names, x)
    requires x in Hosts(Host(e)) <==> StandsFor(more, x)
    ensures Stands(results + [e], x) <==> StandsFor(names + more, x)
  {
    assert StandsFor(names + more, x) <==> StandsFor(names, x) || StandsFor(more, x);
    assert e in results + [e] && forall f <- results :: f in results + [e];
    assert forall f <- results + [e] :: f in results || f == e;
  }

  lemma StandsOnce(names: set<string>, more: set<string>, all: set<string>, x: string)
    requires names !! more && names <= all && more <= all && NamesDisjoint(all)
    ensures !(StandsFor(names, x) && StandsFor(more, x))
  {
    forall a, b | a in names && b in more
      ensures !(x in Hosts(a) && x in Hosts(b))
    {
      NotBoth(a, b, x);
    }
  }

  lemma NotBoth(a: string, b: string, x: string)
    requires Disjoint(a, b)
    ensures !(x in Hosts(a) && x in Hosts(b))
  {
  }

  // ----- a group and the entries behind it -----

  /** Entries of one group, from `i` to before `j`, all of whose hosts are gone. */
  ghost predicate GroupGone(sorted: seq<S.Item>, i: nat, j: nat, remaining: set<string>) {
    && i < j <= |sorted|
    && (forall m :: i <= m < j ==> S.SameGroup(sorted[i], sorted[m]) && sorted[m].host !in remaining)
    && (j < |sorted| ==> !S.SameGroup(sorted[i], sorted[j]))
  }

  /** Hosts behind the group are untouched when only hosts of the group were removed. */
  lemma BehindGroup(pairs: seq<Pair>, sorted: seq<S.Item>, i: nat, j: nat, remaining: set<string>)
    requires Lists(pairs, sorted) && GroupGone(sorted, i, j, remaining)
    requires remaining <= Ahead(sorted, i)
    requires forall m :: i <= m < |sorted| && sorted[m].host !in remaining ==> S.SameGroup(sorted[i], sorted[m])
    ensures remaining == Ahead(sorted, j)
  {
    assert S.Sorted(sorted);
    hide Lists, S.Sorted;
    forall h | h in remaining
      ensures h in Ahead(sorted, j)
    {
      var m :| i <= m < |sorted| && sorted[m].host == h;
      assert j <= m;
    }
    forall m | j <= m < |sorted|
      ensures sorted[m].host in remaining
    {
      if sorted[m].host !in remaining {
        S.GroupsTogether(sorted, i, j, m);
      }
    }
  }

  lemma PairOfItem(pairs: seq<Pair>, sorted: seq<S.Item>, m: nat) returns (e: Pair)
    requires Lists(pairs, sorted) && m < |sorted|
    ensures e in pairs && ItemOf(e) == sorted[m] && Host(e) == sorted[m].host
  {
    assert HasItem(pairs, sorted[m]);
    e :| e in pairs && ItemOf(e) == sorted[m];
  }

  /** Every host taken by the scans of a group belongs to that group. */
  lemma TakenInGroup(pairs: seq<Pair>, r: nat, sorted: seq<S.Item>, i: nat, m: nat, p: string, suffix: string,
                     ranges: seq<Range>, before: set<string>, remaining: set<string>)
    requires Tidy(pairs, r) && Lists(pairs, sorted) && i <= m < |sorted|
    requires sorted[i].prefix == p && sorted[i].suffix == Some(suffix)
    requires before == Ahead(sorted, i) && Taken(p, ranges, suffix, before, remaining) && sorted[m].host !in remaining
    ensures S.SameGroup(sorted[i], sorted[m])
  {
    var e1 := PairOfItem(pairs, sorted, i);
    var e2 := PairOfItem(pairs, sorted, m);
    ItemHost(e1);
    assert sorted[m].host in before;
    assert sorted[m].host in Named(p, Nums(ranges), suffix);
    var num :| num in Nums(ranges) && p + num + suffix == sorted[m].host;
    NoCrossing(pairs, r, e1, e2, p, suffix, num);
  }

  // ----- collect_hostlist_1 -----

  /** Between two groups: the hosts ahead are untouched, those behind are collected. */
  ghost predicate AtGroup(pairs: seq<Pair>, r: nat, sorted: seq<S.Item>, i: nat, remaining: set<string>,
                          results: seq<Pair>) {
    && Tidy(pairs, r) && Lists(pairs, sorted) && i <= |sorted|
    && remaining == Ahead(sorted, i) && remaining <= Names(pairs)
    && Collected(results, Names(pairs) - remaining, r)
    && (forall e <- results :: Shorter(e, pairs))
  }

  /** The left part has become shorter by at least one number, or there was none left. */
  ghost predicate Shorter(e: Pair, pairs: seq<Pair>) {
    e.left == "" || exists f :: f in pairs && Runs(e.left) < Runs(f.left)
  }

  lemma PrefixIsShorter(e: Pair, p: string, suffix: string)
    requires InGroup(e, p, suffix)
    ensures Runs(p) < Runs(e.left)
  {
    var c := CutLast(e.left);
    CutWhole(e.left);
    RunsJoin(c.prefix, c.num);
    RunsOfDigits(c.num);
    RunsJoin(c.prefix + c.num, c.suffix);
  }

  lemma SameNameSamePair(pairs: seq<Pair>, r: nat, e: Pair, f: Pair)
    requires Tidy(pairs, r) && e in pairs && f in pairs && Host(e) == Host(f)
    ensures e == f
  {
    var i :| 0 <= i < |pairs| && pairs[i] == e;
    var j :| 0 <= j < |pairs| && pairs[j] == f;
  }

  lemma LoneHost(pairs: seq<Pair>, r: nat, sorted: seq<S.Item>, i: nat) returns (e: Pair)
    requires Tidy(pairs, r) && Lists(pairs, sorted) && i < |sorted| && sorted[i].suffix == None
    ensures e in pairs && Host(e) == sorted[i].prefix == sorted[i].host && NoDigits(e.left) && TidyPair(e, r)
    ensures forall m :: 0 <= m < |sorted| && sorted[m].host == sorted[i].host ==> sorted[m] == sorted[i]
  {
    e := PairOfItem(pairs, sorted, i);
    NoNumber(e.left);
    forall m | 0 <= m < |sorted| && sorted[m].host == sorted[i].host
      ensures sorted[m] == sorted[i]
    {
      var f := PairOfItem(pairs, sorted, m);
      SameNameSamePair(pairs, r, e, f);
    }
  }

  lemma TakeNames(pairs: seq<Pair>, r: nat, remaining: set<string>, results: seq<Pair>, e: Pair, more: set<string>)
    requires Tidy(pairs, r) && remaining <= Names(pairs) && Collected(results, Names(pairs) - remaining, r)
    requires TidyPair(e, r + 1) && more <= remaining && forall x :: x in Hosts(Host(e)) <==> StandsFor(more, x)
    ensures Collected(results + [e], Names(pairs) - (remaining - more), r)
  {
    TidyNames(pairs, r);
    CollectedMore(results, Names(pairs) - remaining, r, e, more, Names(pairs));
    assert Names(pairs) - (remaining - more) == Names(pairs) - remaining + more;
  }

  lemma FinishedStands(h: string, x: string)
    ensures x in Hosts(Host(Pair("", h))) <==> StandsFor({h}, x)
  {
    assert "" + h == h;
  }

  /** A group of hosts without a number: one host, finished. */
  lemma FinishGroup(pairs: seq<Pair>, r: nat, sorted: seq<S.Item>, i: nat, j: nat, remaining: set<string>,
                    results: seq<Pair>)
    requires AtGroup(pairs, r, sorted, i, remaining, results) && i < |sorted| && sorted[i].suffix == None
    requires GroupGone(sorted, i, j, remaining - {sorted[i].prefix})
    ensures sorted[i].prefix in remaining
    ensures AtGroup(pairs, r, sorted, j, remaining - {sorted[i].prefix}, results + [Pair("", sorted[i].prefix)])
  {
    hide Tidy, Lists, Collected, Hosts, Denote, TidyPair, Names;
    var h := sorted[i].prefix;
    var e := LoneHost(pairs, r, sorted, i);
    assert sorted[i].host in remaining;
    forall m | i <= m < |sorted| && sorted[m].host !in remaining - {h}
      ensures S.SameGroup(sorted[i], sorted[m])
    {
      assert sorted[m].host in remaining;
    }
    BehindGroup(pairs, sorted, i, j, remaining - {h});
    FinishedPair(e, r);
    forall x
      ensures x in Hosts(Host(Pair("", h))) <==> StandsFor({h}, x)
    {
      FinishedStands(h, x);
    }
    TakeNames(pairs, r, remaining, results, Pair("", h), {h});
  }

  lemma NumsNotEmpty(ranges: seq<Range>)
    requires GoodRanges(ranges) && ranges != []
    ensures Nums(ranges) != []
  {
    assert |RangeNums(ranges[0])| >= 1;
  }

  lemma TakenDisjoint(pairs: seq<Pair>, r: nat, p: string, ranges: seq<Range>, suffix: string, before: set<string>,
                      after: set<string>)
    requires Tidy(pairs, r) && before <= Names(pairs) && Taken(p, ranges, suffix, before, after)
    ensures forall a, b :: a in Nums(ranges) && b in Nums(ranges) && a != b ==> Disjoint(p + a + suffix, p + b + suffix)
  {
    TidyNames(pairs, r);
    forall a, b | a in Nums(ranges) && b in Nums(ranges) && a != b
      ensures Disjoint(p + a + suffix, p + b + suffix)
    {
      assert p + a + suffix in Named(p, Nums(ranges), suffix) && p + b + suffix in Named(p, Nums(ranges), suffix);
      if p + a + suffix == p + b + suffix {
        NameInjective(p, a, b, suffix);
      }
    }
  }

  /** The pair collected for a group with a number. */
  lemma GroupPair(pairs: seq<Pair>, r: nat, e1: Pair, p: string, ranges: seq<Range>, suffix: string,
                  before: set<string>, after: set<string>)
    requires Tidy(pairs, r) && e1 in pairs && InGroup(e1, p, suffix)
    requires before <= Names(pairs) && Taken(p, ranges, suffix, before, after) && ranges != []
    ensures var e := Pair(p, NumberText(ranges) + suffix);
      && TidyPair(e, r + 1) && Shorter(e, pairs)
      && forall x :: x in Hosts(Host(e)) <==> StandsFor(Named(p, Nums(ranges), suffix), x)
  {
    GroupSuffix(e1, r, p, suffix);
    PrefixIsShorter(e1, p, suffix);
    NumsNotEmpty(ranges);
    assert NumberList(Nums(ranges));
    TakenDisjoint(pairs, r, p, ranges, suffix, before, after);
    CollectedPair(p, ranges, suffix, r);
    assert Shorter(Pair(p, NumberText(ranges) + suffix), pairs);
  }

  /** A group with a number: its hosts have become one pair. */
  lemma TakeGroup(pairs: seq<Pair>, r: nat, sorted: seq<S.Item>, i: nat, j: nat, before: set<string>,
                  results: seq<Pair>, p: string, ranges: seq<Range>, suffix: string, after: set<string>)
    requires AtGroup(pairs, r, sorted, i, before, results) && i < |sorted|
    requires sorted[i].prefix == p && sorted[i].suffix == Some(suffix)
    requires Taken(p, ranges, suffix, before, after) && ranges != [] && GroupGone(sorted, i, j, after)
    ensures AtGroup(pairs, r, sorted, j, after, results + [Pair(p, NumberText(ranges) + suffix)])
  {
    var e1 := PairOfItem(pairs, sorted, i);
    ItemHost(e1);
    forall m | i <= m < |sorted| && sorted[m].host !in after
      ensures S.SameGroup(sorted[i], sorted[m])
    {
      TakenInGroup(pairs, r, sorted, i, m, p, suffix, ranges, before, after);
    }
    BehindGroup(pairs, sorted, i, j, after);
    GroupPair(pairs, r, e1, p, ranges, suffix, before, after);
    TakeNames(pairs, r, before, results, Pair(p, NumberText(ranges) + suffix), Named(p, Nums(ranges), suffix));
  }

  lemma ItemOfGroup(pairs: seq<Pair>, sorted: seq<S.Item>, m: nat)
    requires Lists(pairs, sorted) && m < |sorted| && sorted[m].suffix.Some?
    ensures var it := sorted[m];
      && it.num >= 0 && it.width > 0 && |Fmt(it.width, it.num)| == it.width
      && it.host == it.prefix + Fmt(it.width, it.num) + it.suffix.value
  {
    var e := PairOfItem(pairs, sorted, m);
    ItemHost(e);
  }

  lemma EntryOfGroup(pairs: seq<Pair>, r: nat, sorted: seq<S.Item>, i: nat, remaining: set<string>,
                     results: seq<Pair>, m: nat)
    requires AtGroup(pairs, r, sorted, i, remaining, results) && i <= m < |sorted| && sorted[m].suffix.Some?
    ensures var it := sorted[m];
      && it.num >= 0 && it.width > 0 && |Fmt(it.width, it.num)| == it.width
      && it.host == it.prefix + Fmt(it.width, it.num) + it.suffix.value
      && it.host in remaining && HasNumber(pairs)
  {
    ItemOfGroup(pairs, sorted, m);
    NumberOfItem(pairs, sorted, m);
  }

  lemma NothingTaken(p: string, suffix: string, before: set<string>)
    ensures Taken(p, [], suffix, before, before)
  {
    assert Named(p, Nums([]), suffix) == {};
  }

  /** One entry of a group: unless its host is gone, a range is scanned from it. */
  method TakeEntry(it: S.Item, ranges: seq<Range>, remaining: set<string>, ghost p: string, suffix: string,
                   ghost before: set<string>)
    returns (more: seq<Range>, after: set<string>)
    requires it.prefix == p && Taken(p, ranges, suffix, before, remaining)
    requires it.num >= 0 && it.width > 0 && |Fmt(it.width, it.num)| == it.width
    requires it.host == p + Fmt(it.width, it.num) + suffix
    ensures Taken(p, more, suffix, before, after)
    ensures after <= remaining && it.host !in after
    ensures it.host in remaining || ranges != [] ==> more != []
  {
    hide TakenState;
    more, after := ranges, remaining;
    if it.host in remaining {
      var high;
      after, high := ScanRange(it.prefix, it.width, it.num, suffix, remaining);
      TakenMore(p, ranges, suffix, before, remaining, Range(it.num, high, it.width), after);
      HostScanned(p, it.width, it.num, high, suffix, remaining, after);
      more := ranges + [Range(it.num, high, it.width)];
    }
  }

  /** The loop over one group: the ranges found in it. */
  method CollectGroup(sorted: seq<S.Item>, i: nat, before: set<string>, ghost pairs: seq<Pair>, ghost r: nat,
                      ghost results: seq<Pair>)
    returns (ranges: seq<Range>, j: nat, remaining: set<string>)
    requires AtGroup(pairs, r, sorted, i, before, results) && i < |sorted| && sorted[i].suffix.Some?
    ensures Taken(sorted[i].prefix, ranges, sorted[i].suffix.value, before, remaining)
    ensures ranges != [] && GroupGone(sorted, i, j, remaining)
  {
    hide AtGroup, TakenState;
    var suffix := sorted[i].suffix.value;
    ranges, remaining, j := [], before, i;
    NothingTaken(sorted[i].prefix, suffix, before);
    while j < |sorted| && S.SameGroup(sorted[i], sorted[j])
      invariant i <= j <= |sorted| && (j > i ==> ranges != []) && (j == i ==> remaining == before)
      invariant Taken(sorted[i].prefix, ranges, suffix, before, remaining)
      invariant forall m :: i <= m < j ==> S.SameGroup(sorted[i], sorted[m]) && sorted[m].host !in remaining
    {
      EntryOfGroup(pairs, r, sorted, i, before, results, j);
      ranges, remaining := TakeEntry(sorted[j], ranges, remaining, sorted[i].prefix, suffix, before);
      j := j + 1;
    }
  }

  lemma HostScanned(p: string, width: nat, low: nat, high: int, suffix: string, before: set<string>, after: set<string>)
    requires Scanned(p, width, low, high, suffix, before, after) && low <= high
    ensures p + Fmt(width, low) + suffix !in after && after <= before
  {
    assert "" + Fmt(width, low) == Fmt(width, low);
    assert RangeStrings("", width, low, high)[0] == Fmt(width, low);
  }

  /** The text of the hosts in `sortlist`, before sorting. */
  function Items(pairs: seq<Pair>): seq<S.Item> {
    seq(|pairs|, i requires 0 <= i < |pairs| => ItemOf(pairs[i]))
  }

  lemma SortedLists(pairs: seq<Pair>)
    ensures Lists(pairs, S.Sort(Items(pairs)))
    ensures Ahead(S.Sort(Items(pairs)), 0) == Names(pairs)
  {
    var items, sorted := Items(pairs), S.Sort(Items(pairs));
    S.SortIs(items);
    forall m | 0 <= m < |sorted|
      ensures HasItem(pairs, sorted[m])
    {
      assert sorted[m] in multiset(sorted);
      var k :| 0 <= k < |items| && items[k] == sorted[m];
      assert ItemOf(pairs[k]) == sorted[m];
    }
    forall e | e in pairs
      ensures ItemOf(e) in sorted
    {
      var k :| 0 <= k < |pairs| && pairs[k] == e;
      assert items[k] in multiset(items);
    }
    SortedNames(pairs, sorted);
  }

  lemma SortedNames(pairs: seq<Pair>, sorted: seq<S.Item>)
    requires Lists(pairs, sorted)
    ensures Ahead(sorted, 0) == Names(pairs)
  {
    forall m | 0 <= m < |sorted|
      ensures sorted[m].host in Names(pairs)
    {
      var e := PairOfItem(pairs, sorted, m);
    }
    forall e | e in pairs
      ensures Host(e) in Ahead(sorted, 0)
    {
      var m :| 0 <= m < |sorted| && sorted[m] == ItemOf(e);
      assert sorted[m].host == Host(e);
    }
  }

  lemma StartGroups(pairs: seq<Pair>, r: nat, sorted: seq<S.Item>)
    requires Tidy(pairs, r) && Lists(pairs, sorted) && Ahead(sorted, 0) == Names(pairs)
    ensures AtGroup(pairs, r, sorted, 0, Names(pairs), [])
  {
    assert Names(pairs) - Names(pairs) == {};
  }

  lemma EndGroups(pairs: seq<Pair>, r: nat, sorted: seq<S.Item>, remaining: set<string>, results: seq<Pair>)
    requires AtGroup(pairs, r, sorted, |sorted|, remaining, results)
    ensures remaining == {}
    ensures Tidy(results, r + 1) && Apart(results) && forall e <- results :: Shorter(e, pairs)
    ensures forall x :: Stands(results, x) <==> Stands(pairs, x)
  {
    assert remaining == {};
    assert Names(pairs) - {} == Names(pairs);
    forall x
      ensures Stands(results, x) <==> Stands(pairs, x)
    {
      assert Stands(results, x) <==> StandsFor(Names(pairs), x);
      if Stands(pairs, x) {
        var e :| e in pairs && x in Hosts(Host(e));
        assert Host(e) in Names(pairs);
      }
    }
    ApartIsTidy(results, r + 1);
  }

  lemma ApartIsTidy(results: seq<Pair>, r: nat)
    requires Apart(results) && forall i :: 0 <= i < |results| ==> TidyPair(results[i], r)
    ensures Tidy(results, r)
  {
    forall i, j | 0 <= i < |results| && 0 <= j < |results|
      ensures if Host(results[i]) == Host(results[j]) then results[i] == results[j]
              else Disjoint(Host(results[i]), Host(results[j]))
    {
      if i < j {
        NamesDiffer(results[i], results[j], r);
      } else if j < i {
        NamesDiffer(results[j], results[i], r);
      }
    }
  }

  lemma NamesDiffer(e: Pair, f: Pair, r: nat)
    requires TidyPair(e, r) && TidyPair(f, r) && Disjoint(Host(e), Host(f))
    ensures Host(e) != Host(f)
  {
    HostsBehind(e.left, e.right);
    assert Hosts(Host(e))[0] in Hosts(Host(e));
  }

  ghost predicate HasNumber(pairs: seq<Pair>) {
    exists e :: e in pairs && !NoDigits(e.left)
  }

  lemma NumberOfItem(pairs: seq<Pair>, sorted: seq<S.Item>, m: nat)
    requires Lists(pairs, sorted) && m < |sorted|
    ensures sorted[m].suffix.Some? ==> HasNumber(pairs)
  {
    var e := PairOfItem(pairs, sorted, m);
    if sorted[m].suffix.Some? {
      var c := CutLast(e.left);
      CutWhole(e.left);
      assert e.left[|c.prefix|] == c.num[0];
    }
  }

  /** A group of hosts without a number ends where the key changes. */
  method LoneGroup(sorted: seq<S.Item>, i: nat, remaining: set<string>, ghost pairs: seq<Pair>, ghost r: nat,
                   ghost results: seq<Pair>)
    returns (j: nat)
    requires AtGroup(pairs, r, sorted, i, remaining, results) && i < |sorted| && sorted[i].suffix.None?
    ensures sorted[i].prefix in remaining
    ensures j <= |sorted| &&
      AtGroup(pairs, r, sorted, j, remaining - {sorted[i].prefix}, results + [Pair("", sorted[i].prefix)])
    ensures i < j
  {
    hide AtGroup;
    j := i;
    while j < |sorted| && S.SameGroup(sorted[i], sorted[j])
      invariant i <= j <= |sorted|
      invariant forall m :: i <= m < j ==> S.SameGroup(sorted[i], sorted[m])
    {
      j := j + 1;
    }
    LoneGroupGone(pairs, r, sorted, i, j, remaining, results);
    FinishGroup(pairs, r, sorted, i, j, remaining, results);
  }

  lemma LoneGroupGone(pairs: seq<Pair>, r: nat, sorted: seq<S.Item>, i: nat, j: nat, remaining: set<string>,
                      results: seq<Pair>)
    requires AtGroup(pairs, r, sorted, i, remaining, results)
    requires i < j <= |sorted| && sorted[i].suffix == None
    requires (forall m :: i <= m < j ==> S.SameGroup(sorted[i], sorted[m]))
    requires j < |sorted| ==> !S.SameGroup(sorted[i], sorted[j])
    ensures GroupGone(sorted, i, j, remaining - {sorted[i].prefix})
  {
    assert Lists(pairs, sorted);
    LoneHosts(pairs, sorted, i, j);
  }

  lemma LoneHosts(pairs: seq<Pair>, sorted: seq<S.Item>, i: nat, j: nat)
    requires Lists(pairs, sorted) && i < j <= |sorted| && sorted[i].suffix == None
    requires forall m :: i <= m < j ==> S.SameGroup(sorted[i], sorted[m])
    ensures forall m :: i <= m < j ==> sorted[m].host == sorted[i].prefix
  {
    forall m | i <= m < j
      ensures sorted[m].host == sorted[i].prefix
    {
      LoneItem(pairs, sorted, m);
    }
  }

  lemma LoneItem(pairs: seq<Pair>, sorted: seq<S.Item>, m: nat)
    requires Lists(pairs, sorted) && m < |sorted| && sorted[m].suffix == None
    ensures sorted[m].host == sorted[m].prefix
  {
    var e := PairOfItem(pairs, sorted, m);
    hide Lists, S.Sorted;
  }

  /** `collect_hostlist_1`: the results stand for the same hosts, apart from each other; as long as
      another round is needed, every left part has lost a number. */
  method CollectOnce(pairs: seq<Pair>, ghost r: nat) returns (results: seq<Pair>, again: bool)
    requires Tidy(pairs, r)
    ensures Tidy(results, r + 1) && Apart(results)
    ensures forall x :: Stands(results, x) <==> Stands(pairs, x)
    ensures forall e <- results :: Shorter(e, pairs)
    ensures again ==> HasNumber(pairs)
    ensures !again ==> forall e <- results :: e.left == ""
  {
    hide AtGroup;
    var sorted := S.Sort(Items(pairs));
    var remaining := set e <- pairs :: Host(e);
    SortedLists(pairs);
    StartGroups(pairs, r, sorted);
    results, again := [], false;
    var i := 0;
    while i < |sorted|
      invariant i <= |sorted| && AtGroup(pairs, r, sorted, i, remaining, results)
      invariant again ==> HasNumber(pairs)
      invariant !again ==> forall e <- results :: e.left == ""
    {
      if sorted[i].suffix.None? {
        var j := LoneGroup(sorted, i, remaining, pairs, r, results);
        results, remaining, i := results + [Pair("", sorted[i].prefix)], remaining - {sorted[i].prefix}, j;
      } else {
        EntryOfGroup(pairs, r, sorted, i, remaining, results, i);
        var ranges, j, after := CollectGroup(sorted, i, remaining, pairs, r, results);
        TakeGroup(pairs, r, sorted, i, j, remaining, results, sorted[i].prefix, ranges, sorted[i].suffix.value, after);
        results := results + [Pair(sorted[i].prefix, NumberText(ranges) + sorted[i].suffix.value)];
        again, remaining, i := true, after, j;
      }
    }
    EndGroups(pairs, r, sorted, remaining, results);
    assert remaining == {};
  }
}
