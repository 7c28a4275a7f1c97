/** What one round of `collect_hostlist_1` keeps: the pairs denote disjoint, duplicate-free
    lists of hosts, which together are the hosts to be collected. */
module HostRound {
  import opened Wrappers
  import opened HostText
  import opened HostExpand
  import opened HostCollect
  import S = HostSort

  /** The hosts an expression stands for. */
  ghost function Hosts(s: string): seq<string> {
    if Denote(s).Some? then Denote(s).value else []
  }

  ghost predicate Disjoint(a: string, b: string) {
    forall x :: !(x in Hosts(a) && x in Hosts(b))
  }

  // ----- the shape of a pair before round r -----

  /** After r rounds the right part of a pair has taken over r numbers, or all of them. */
  ghost predicate Shape(e: Pair, r: nat) {
    if r == 0 then e.right == ""
    else
      || (e.left == "" && forall y <- Hosts(e.right) :: Runs(y) < r)
      || ((e.left != "" ==> !IsDigit(e.left[|e.left| - 1])) &&
          forall y <- Hosts(e.right) :: Runs(y) == r && y != "" && IsDigit(y[0]))
  }

  ghost predicate Means(s: string) {
    Balanced(s) && Denote(s).Some? && Denote(s).value != [] && NoDup(Denote(s).value)
  }

  ghost predicate TidyPair(e: Pair, r: nat) {
    Plain(e.left) && Means(e.right) && Shape(e, r)
  }

  ghost predicate Tidy(pairs: seq<Pair>, r: nat) {
    && (forall i :: 0 <= i < |pairs| ==> TidyPair(pairs[i], r))
    && (forall i, j :: 0 <= i < |pairs| && 0 <= j < |pairs| ==>
          if Host(pairs[i]) == Host(pairs[j]) then pairs[i] == pairs[j] else Disjoint(Host(pairs[i]), Host(pairs[j])))
  }

  lemma HostsBehind(p: string, s: string)
    requires Plain(p) && Means(s)
    ensures Means(p + s) && Hosts(p + s) == Prepend(p, Hosts(s))
  {
    DenoteBehind(p, s);
    ScanPlain(0, p);
    ScanJoin(0, p, s);
    forall i, j | 0 <= i < j < |Hosts(s)|
      ensures Prepend(p, Hosts(s))[i] != Prepend(p, Hosts(s))[j]
    {
      assert (p + Hosts(s)[i])[|p|..] == Hosts(s)[i] && (p + Hosts(s)[j])[|p|..] == Hosts(s)[j];
    }
    assert NoDup(Prepend(p, Hosts(s)));
  }

  lemma InPrepend(p: string, l: seq<string>, x: string)
    ensures x in Prepend(p, l) <==> exists y :: y in l && x == p + y
  {
    if y :| y in l && x == p + y {
      var i :| 0 <= i < |l| && l[i] == y;
      assert Prepend(p, l)[i] == x;
    }
    if x in Prepend(p, l) {
      var i :| 0 <= i < |l| && Prepend(p, l)[i] == x;
      assert l[i] in l;
    }
  }

  // ----- a group -----

  /** A pair whose left part still has a number; its group is the text around that number. */
  ghost predicate InGroup(e: Pair, p: string, suffix: string) {
    CutLast(e.left).num != "" && CutLast(e.left).prefix == p && CutLast(e.left).suffix + e.right == suffix
  }

  /** What a group's suffix denotes: as many runs of digits as there have been rounds. */
  ghost predicate SuffixOk(suffix: string, r: nat) {
    Means(suffix) && forall z <- Hosts(suffix) :: Runs(z) == r && (z != "" ==> !IsDigit(z[0]))
  }

  lemma PlainParts(s: string, a: string, b: string)
    requires Plain(s) && s == a + b
    ensures Plain(a) && Plain(b)
  {
    assert forall c <- a :: c in s;
    assert forall c <- b :: c in s;
  }

  lemma GroupSuffix(e: Pair, r: nat, p: string, suffix: string)
    requires TidyPair(e, r) && InGroup(e, p, suffix)
    ensures Plain(p) && SuffixOk(suffix, r)
    ensures r > 0 ==>
      CutLast(e.left).suffix != "" && forall y <- Hosts(e.right) :: Runs(y) == r && y != "" && IsDigit(y[0])
  {
    var c := CutLast(e.left);
    CutWhole(e.left);
    PlainParts(e.left, c.prefix + c.num, c.suffix);
    PlainParts(c.prefix + c.num, c.prefix, c.num);
    HostsBehind(c.suffix, e.right);
    assert r > 0 ==> c.suffix != "";
    forall z | z in Hosts(suffix)
      ensures Runs(z) == r && (z != "" ==> !IsDigit(z[0]))
    {
      InPrepend(c.suffix, Hosts(e.right), z);
      var y :| y in Hosts(e.right) && z == c.suffix + y;
      if r == 0 {
        assert Denote("") == Some([""]);
      }
      RunsOfNoDigits(c.suffix);
      RunsJoin(c.suffix, y);
    }
  }

  lemma PlainJoin(p: string, num: string, suffix: string)
    requires Plain(p) && AllDigits(num) && Plain(suffix)
    ensures Plain(p + num + suffix)
  {
    forall c | c in p + num + suffix
      ensures c !in {'[', ']', ',', '\n'}
    {
      assert c in p || c in num || c in suffix;
    }
  }

  lemma RunsAround(p: string, num: string, suffix: string)
    requires num != "" && AllDigits(num) && NoDigits(suffix) && suffix != "" && (p != "" ==> !IsDigit(p[|p| - 1]))
    ensures var s := p + num + suffix;
      s != "" && !IsDigit(s[|s| - 1]) && Runs(s) == Runs(p) + 1
  {
    RunsJoin(p, num);
    RunsJoin(p + num, suffix);
    RunsOfDigits(num);
    RunsOfNoDigits(suffix);
  }

  /** A host name made of the group's text around any number belongs to the group, if it is there at
      all: the scan for a range never takes a host of another group. */
  lemma NoCrossing(pairs: seq<Pair>, r: nat, e1: Pair, e2: Pair, p: string, suffix: string, num: string)
    requires Tidy(pairs, r) && e1 in pairs && e2 in pairs && InGroup(e1, p, suffix)
    requires num != "" && AllDigits(num) && Host(e2) == p + num + suffix
    ensures InGroup(e2, p, suffix) && CutLast(e2.left).num == num
  {
    GroupSuffix(e1, r, p, suffix);
    var c := CutLast(e1.left);
    CutWhole(e1.left);
    if r == 0 {
      assert suffix == c.suffix;
      assert e2.left == Host(e2);
      CutIs(p, num, suffix);
    } else {
      assert Host(e2) == p + num + c.suffix + e1.right;
      RunsAround(p, num, c.suffix);
      PlainParts(e1.left, c.prefix + c.num, c.suffix);
      PlainJoin(p, num, c.suffix);
      RightIsShared(e1, e2, r, p + num + c.suffix);
      CutIs(p, num, c.suffix);
    }
  }

  /** Two pairs of the same round that stand for the same text are cut at the same place. */
  lemma RightIsShared(e1: Pair, e2: Pair, r: nat, left: string)
    requires r > 0 && TidyPair(e1, r) && TidyPair(e2, r) && Plain(left) && Host(e2) == left + e1.right
    requires left != "" && !IsDigit(left[|left| - 1]) && Runs(left) > 0
    requires forall y <- Hosts(e1.right) :: Runs(y) == r && y != "" && IsDigit(y[0])
    ensures e2.left == left && e2.right == e1.right
  {
    assert Host(e2) == e2.left + e2.right;
    hide *;
    TidyMeans(e1, r);
    TidyMeans(e2, r);
    var y1 := FirstHost(e1, r);
    HostsBehind(left, e1.right);
    HostsBehind(e2.left, e2.right);
    var y2 := SharedHost(e2, left, e1.right, y1);
    ShapeAt(e2, r, y2);
    SameCut(left, y1, e2.left, y2, r);
    SameLeft(e2, left, e1.right);
  }

  lemma SameCut(a: string, y: string, b: string, z: string, r: nat)
    requires a + y == b + z && a != "" && !IsDigit(a[|a| - 1]) && Runs(a) > 0
    requires Runs(y) == r && y != "" && IsDigit(y[0])
    requires
      || (b == "" && Runs(z) < r)
      || ((b != "" ==> !IsDigit(b[|b| - 1])) && Runs(z) == r && z != "" && IsDigit(z[0]))
    ensures a == b
  {
    hide Runs;
    RunsJoin(a, y);
    assert b == "" ==> b + z == z;
    if b != "" || Runs(z) >= r {
      CutIsUnique(a, y, b, z);
    }
  }

  lemma TidyMeans(e: Pair, r: nat)
    requires TidyPair(e, r)
    ensures Plain(e.left) && Means(e.right)
  {
  }

  lemma FirstHost(e: Pair, r: nat) returns (y: string)
    requires TidyPair(e, r)
    ensures y in Hosts(e.right)
  {
    y := Hosts(e.right)[0];
  }

  lemma ShapeAt(e: Pair, r: nat, y: string)
    requires r > 0 && TidyPair(e, r) && y in Hosts(e.right)
    ensures
      || (e.left == "" && Runs(y) < r)
      || ((e.left != "" ==> !IsDigit(e.left[|e.left| - 1])) && Runs(y) == r && y != "" && IsDigit(y[0]))
  {
  }

  /** A text that both parts of a name stand for. */
  lemma SharedHost(e: Pair, left: string, right: string, y: string) returns (z: string)
    requires Means(e.right) && Means(right) && y in Hosts(right)
    requires Means(Host(e)) && Hosts(Host(e)) == Prepend(e.left, Hosts(e.right)) == Prepend(left, Hosts(right))
    ensures z in Hosts(e.right) && left + y == e.left + z
  {
    InPrepend(left, Hosts(right), left + y);
    InPrepend(e.left, Hosts(e.right), left + y);
    z :| z in Hosts(e.right) && left + y == e.left + z;
  }

  lemma SameLeft(e: Pair, left: string, right: string)
    requires Host(e) == left + right && e.left == left
    ensures e.right == right
  {
    assert (left + right)[|left|..] == right && (e.left + e.right)[|left|..] == e.right;
  }

  // ----- the pair a group is collected into -----

  ghost function Named(p: string, nums: seq<string>, suffix: string): set<string> {
    set num <- nums :: p + num + suffix
  }

  lemma HostsOfNamed(p: string, num: string, suffix: string)
    requires Plain(p) && AllDigits(num) && Means(suffix)
    ensures Means(p + num + suffix) && Hosts(p + num + suffix) == Prepend(p + num, Hosts(suffix))
  {
    PlainJoin(p, num, "");
    assert p + num + "" == p + num;
    HostsBehind(p + num, suffix);
  }

  ghost predicate NumberList(nums: seq<string>) {
    nums != [] && NoDup(nums) && forall num <- nums :: num != "" && AllDigits(num)
  }

  lemma GroupNoDup(p: string, nums: seq<string>, suffix: string)
    requires Plain(p) && NumberList(nums) && Means(suffix)
    requires forall a, b :: a in nums && b in nums && a != b ==> Disjoint(p + a + suffix, p + b + suffix)
    ensures Product(nums, Hosts(suffix)) != [] && NoDup(Product(nums, Hosts(suffix)))
  {
    var l := Hosts(suffix);
    ProductSize(nums, l);
    assert |nums| * |l| >= 1;
    forall a, b, z, w | a in nums && b in nums && a != b && z in l && w in l
      ensures a + z != b + w
    {
      HostsOfNamed(p, a, suffix);
      HostsOfNamed(p, b, suffix);
      ListsApart(p, a, b, l, z, w);
    }
    ProductNoDup(nums, l);
  }

  lemma ListsApart(p: string, a: string, b: string, l: seq<string>, z: string, w: string)
    requires z in l && w in l && forall x :: !(x in Prepend(p + a, l) && x in Prepend(p + b, l))
    ensures a + z != b + w
  {
    InPrepend(p + a, l, p + a + z);
    InPrepend(p + b, l, p + b + w);
    assert p + a + z == p + (a + z) && p + b + w == p + (b + w);
  }

  lemma {:induction false} ProductNoDup(a: seq<string>, b: seq<string>)
    requires NoDup(a) && NoDup(b)
    requires forall u, v, z, w :: u in a && v in a && u != v && z in b && w in b ==> u + z != v + w
    ensures NoDup(Product(a, b))
    decreases |a|
  {
    if a != [] {
      var first, others := Prepend(a[0], b), Product(a[1..], b);
      assert a[0] in a && forall u <- a[1..] :: u in a;
      ProductNoDup(a[1..], b);
      forall i, j | 0 <= i < j < |b|
        ensures first[i] != first[j]
      {
        assert first[i][|a[0]|..] == b[i] && first[j][|a[0]|..] == b[j];
      }
      forall i, j | 0 <= i < |first| && 0 <= j < |others|
        ensures first[i] != others[j]
      {
        ProductHas(a[1..], b, others[j]);
        assert others[j] in others;
        var m, n :| 0 <= m < |a[1..]| && 0 <= n < |b| && others[j] == a[1..][m] + b[n];
        assert a[1..][m] == a[m + 1] && first[i] == a[0] + b[i];
      }
    }
  }

  /** The collected pair of a group keeps the shape for the next round, and stands for exactly the
      hosts the group's names stand for. */
  lemma CollectedPair(p: string, ranges: seq<Range>, suffix: string, r: nat)
    requires Plain(p) && (p != "" ==> !IsDigit(p[|p| - 1])) && SuffixOk(suffix, r)
    requires ranges != [] && GoodRanges(ranges) && NumberList(Nums(ranges))
    requires forall a, b :: a in Nums(ranges) && b in Nums(ranges) && a != b ==>
      Disjoint(p + a + suffix, p + b + suffix)
    ensures var e := Pair(p, NumberText(ranges) + suffix);
      && TidyPair(e, r + 1)
      && forall x :: x in Hosts(Host(e)) <==> exists h :: h in Named(p, Nums(ranges), suffix) && x in Hosts(h)
  {
    var nums, e := Nums(ranges), Pair(p, NumberText(ranges) + suffix);
    NumberTextDenotes(ranges, suffix);
    NumberTextBalanced(ranges);
    ScanJoin(0, NumberText(ranges), suffix);
    GroupNoDup(p, nums, suffix);
    CollectedShape(e, nums, suffix, r);
    HostsBehind(p, e.right);
    forall x
      ensures x in Hosts(Host(e)) <==> exists h :: h in Named(p, nums, suffix) && x in Hosts(h)
    {
      CollectedHosts(p, nums, suffix, e.right, x);
    }
  }

  lemma CollectedShape(e: Pair, nums: seq<string>, suffix: string, r: nat)
    requires (e.left != "" ==> !IsDigit(e.left[|e.left| - 1])) && SuffixOk(suffix, r) && NumberList(nums)
    requires Hosts(e.right) == Product(nums, Hosts(suffix))
    ensures Shape(e, r + 1)
  {
    forall y | y in Hosts(e.right)
      ensures Runs(y) == r + 1 && y != "" && IsDigit(y[0])
    {
      ProductHas(nums, Hosts(suffix), y);
      var i, j :| 0 <= i < |nums| && 0 <= j < |Hosts(suffix)| && y == nums[i] + Hosts(suffix)[j];
      assert nums[i] in nums && Hosts(suffix)[j] in Hosts(suffix);
      RunsOfDigits(nums[i]);
      RunsJoin(nums[i], Hosts(suffix)[j]);
    }
  }

  lemma CollectedHosts(p: string, nums: seq<string>, suffix: string, right: string, x: string)
    requires Plain(p) && NumberList(nums) && Means(suffix) && Means(right)
    requires Hosts(right) == Product(nums, Hosts(suffix))
    ensures x in Hosts(p + right) <==> exists h :: h in Named(p, nums, suffix) && x in Hosts(h)
  {
    HostsBehind(p, right);
    InGroupLists(p, nums, Hosts(suffix), x);
    forall num | num in nums
      ensures Hosts(p + num + suffix) == Prepend(p + num, Hosts(suffix))
    {
      HostsOfNamed(p, num, suffix);
    }
    if num :| num in nums && x in Prepend(p + num, Hosts(suffix)) {
      assert p + num + suffix in Named(p, nums, suffix) && x in Hosts(p + num + suffix);
    }
    if h :| h in Named(p, nums, suffix) && x in Hosts(h) {
      var num :| num in nums && h == p + num + suffix;
      assert x in Prepend(p + num, Hosts(suffix));
    }
  }

  lemma InGroupLists(p: string, nums: seq<string>, l: seq<string>, x: string)
    ensures x in Prepend(p, Product(nums, l)) <==> exists num :: num in nums && x in Prepend(p + num, l)
  {
    InPrepend(p, Product(nums, l), x);
    if x in Prepend(p, Product(nums, l)) {
      var y :| y in Product(nums, l) && x == p + y;
      ProductHas(nums, l, y);
      var i, j :| 0 <= i < |nums| && 0 <= j < |l| && y == nums[i] + l[j];
      assert x == p + nums[i] + l[j];
      InPrepend(p + nums[i], l, x);
      assert nums[i] in nums && l[j] in l;
    }
    if num :| num in nums && x in Prepend(p + num, l) {
      InPrepend(p + num, l, x);
      var z :| z in l && x == p + num + z;
      var i :| 0 <= i < |nums| && nums[i] == num;
      var j :| 0 <= j < |l| && l[j] == z;
      ProductHas(nums, l, num + z);
      assert x == p + (num + z);
    }
  }

  lemma FinishedHosts(left: string, right: string, r: nat)
    requires Plain(left) && Means(right) && NoDigits(left) && forall y <- Hosts(right) :: Runs(y) <= r
    ensures Means(left + right) && forall x <- Hosts(left + right) :: Runs(x) <= r
  {
    HostsBehind(left, right);
    forall x | x in Hosts(left + right)
      ensures Runs(x) <= r
    {
      FinishedRuns(left, Hosts(right), r, x);
    }
  }

  lemma FinishedShape(h: string, r: nat)
    requires Means(h) && forall x <- Hosts(h) :: Runs(x) <= r
    ensures TidyPair(Pair("", h), r + 1)
  {
  }

  /** A host without a number left is finished. */
  lemma FinishedPair(e: Pair, r: nat)
    requires TidyPair(e, r) && NoDigits(e.left)
    ensures TidyPair(Pair("", Host(e)), r + 1)
  {
    RightRuns(e, r);
    FinishedHosts(e.left, e.right, r);
    FinishedShape(Host(e), r);
  }

  lemma NoNumber(left: string)
    requires CutLast(left).num == ""
    ensures NoDigits(left)
  {
    var c := CutLast(left);
    CutWhole(left);
    assert left == c.suffix;
  }

  lemma RightRuns(e: Pair, r: nat)
    requires TidyPair(e, r)
    ensures forall y <- Hosts(e.right) :: Runs(y) <= r
  {
    if r == 0 {
      assert Denote("") == Some([""]);
    }
  }

  lemma FinishedRuns(left: string, l: seq<string>, r: nat, x: string)
    requires NoDigits(left) && x in Prepend(left, l) && forall y <- l :: Runs(y) <= r
    ensures Runs(x) <= r
  {
    InPrepend(left, l, x);
    var y :| y in l && x == left + y;
    RunsOfNoDigits(left);
    RunsJoin(left, y);
  }
}
