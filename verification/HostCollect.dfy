/** One round of collecting hosts: `collect_hostlist_1`, and what it keeps. */
module HostCollect {
  import opened Wrappers
  import opened HostText
  import opened HostExpand
  import S = HostSort

  /** Part still to be looked at, and part already collected. */
  datatype Pair = Pair(left: string, right: string)

  function Host(e: Pair): string {
    e.left + e.right
  }

  // ----- cutting off the last number -----

  datatype Cut = Cut(prefix: string, num: string, suffix: string)

  /** The start of the trailing characters that are no digits. */
  function SuffixStart(s: string): (n: nat)
    ensures n <= |s| && NoDigits(s[n..]) && (n > 0 ==> IsDigit(s[n - 1]))
    decreases |s|
  {
    if s == "" || IsDigit(s[|s| - 1]) then |s| else SuffixStart(s[..|s| - 1])
  }

  /** The start of the trailing digits. */
  function NumberStart(s: string): (n: nat)
    ensures n <= |s| && AllDigits(s[n..]) && (n > 0 ==> !IsDigit(s[n - 1]))
    decreases |s|
  {
    if s == "" || !IsDigit(s[|s| - 1]) then |s| else NumberStart(s[..|s| - 1])
  }

  /** `^(.*?)([0-9]+)?([^0-9]*)$`: the last number, what is before and what is behind it. */
  function CutLast(s: string): (c: Cut)
    ensures AllDigits(c.num) && NoDigits(c.suffix)
    ensures c.prefix != "" ==> !IsDigit(c.prefix[|c.prefix| - 1])
    ensures c.num == "" ==> c.prefix == ""
  {
    var n := SuffixStart(s);
    var m := NumberStart(s[..n]);
    Cut(s[..m], s[m..n], s[n..])
  }

  lemma CutWhole(s: string)
    ensures var c := CutLast(s); s == c.prefix + c.num + c.suffix
  {
  }

  lemma SuffixStartIs(s: string, n: nat)
    requires 0 < n <= |s| && IsDigit(s[n - 1]) && NoDigits(s[n..])
    ensures SuffixStart(s) == n
  {
    var k := SuffixStart(s);
    assert n <= k && k <= n;
  }

  lemma NumberStartIs(s: string, m: nat)
    requires m <= |s| && (m > 0 ==> !IsDigit(s[m - 1])) && AllDigits(s[m..])
    ensures NumberStart(s) == m
  {
    var k := NumberStart(s);
    assert m <= k && k <= m;
  }

  /** No other cut has this shape. */
  lemma CutIs(p: string, num: string, suffix: string)
    requires num != "" && AllDigits(num) && NoDigits(suffix) && (p != "" ==> !IsDigit(p[|p| - 1]))
    ensures CutLast(p + num + suffix) == Cut(p, num, suffix)
  {
    var s := p + num + suffix;
    var n := |p| + |num|;
    assert s[n - 1] == num[|num| - 1] && s[n..] == suffix;
    SuffixStartIs(s, n);
    assert s[..n] == p + num;
    assert (p + num)[|p|..] == num && s[|p|..n] == num && s[..|p|] == p;
    assert p != "" ==> (p + num)[|p| - 1] == p[|p| - 1];
    NumberStartIs(p + num, |p|);
  }

  /** The entry of `sortlist` for a pair. */
  function ItemOf(e: Pair): (it: S.Item)
    ensures it.host == Host(e)
  {
    var c := CutLast(e.left);
    if c.num == "" then S.Item(Host(e), None, -1, -1, Host(e))
    else S.Item(c.prefix, Some(c.suffix + e.right), Value(c.num), |c.num|, Host(e))
  }

  // ----- ranges -----

  datatype Range = Range(low: nat, high: nat, width: nat)

  predicate GoodRange(r: Range) {
    r.low <= r.high && |Fmt(r.width, r.low)| == r.width
  }

  /** `format_range`. */
  function RangeText(r: Range): string {
    if r.low == r.high then Fmt(r.width, r.low)
    else Fmt(r.width, r.low) + "-" + Fmt(r.width, r.high)
  }

  predicate GoodRanges(ranges: seq<Range>) {
    forall i :: 0 <= i < |ranges| ==> GoodRange(ranges[i])
  }

  function RangeNums(r: Range): seq<string>
    requires r.low <= r.high + 1
  {
    RangeStrings("", r.width, r.low, r.high)
  }

  /** The numbers of a list of ranges, as printed. */
  ghost function Nums(ranges: seq<Range>): seq<string>
    requires GoodRanges(ranges)
    decreases |ranges|
  {
    if ranges == [] then []
    else
      RangeNums(ranges[0]) + Nums(ranges[1..])
  }

  function Texts(ranges: seq<Range>): seq<string> {
    seq(|ranges|, i requires 0 <= i < |ranges| => RangeText(ranges[i]))
  }

  lemma RangeTextChars(r: Range)
    ensures forall c <- RangeText(r) :: IsDigit(c) || c == '-'
  {
    var a, b := Fmt(r.width, r.low), Fmt(r.width, r.high);
    forall c | c in RangeText(r)
      ensures IsDigit(c) || c == '-'
    {
      assert c in a || c in b || c == '-';
    }
  }

  lemma RangeTextDenotes(r: Range)
    requires GoodRange(r)
    ensures RangeDenotes(RangeText(r)) == Some(RangeNums(r))
  {
    var a, b := Fmt(r.width, r.low), Fmt(r.width, r.high);
    if r.low == r.high {
      assert "" + a == a;
      assert RangeNums(r) == [a];
    } else {
      SpanOf(a, b);
      ValueOfFmt(r.width, r.low);
      ValueOfFmt(r.width, r.high);
    }
  }

  lemma SpanOf(a: string, b: string)
    requires IsNumber(a) && IsNumber(b)
    ensures !IsNumber(a + "-" + b) && IsSpan(a + "-" + b)
    ensures SpanLow(a + "-" + b) == a && SpanHigh(a + "-" + b) == b
  {
    var t := a + "-" + b;
    assert t[|a|] == '-';
    FirstIndex(t, '-', 0, |a|);
    assert t[..|a|] == a && t[|a| + 1..] == b;
  }

  lemma {:induction false} TextsDenote(ranges: seq<Range>)
    requires GoodRanges(ranges)
    ensures RangesDenote(Texts(ranges)) == Some(Nums(ranges))
    decreases |ranges|
  {
    if ranges != [] {
      RangeTextDenotes(ranges[0]);
      TextsDenote(ranges[1..]);
      assert Texts(ranges)[1..] == Texts(ranges[1..]);
    }
  }

  lemma {:induction false} NumsAppend(ranges: seq<Range>, r: Range)
    requires GoodRanges(ranges) && GoodRange(r)
    ensures GoodRanges(ranges + [r])
    ensures Nums(ranges + [r]) == Nums(ranges) + RangeNums(r)
    decreases |ranges|
  {
    if ranges == [] {
      assert ranges + [r] == [r] && [r][1..] == [];
    } else {
      NumsAppend(ranges[1..], r);
      assert (ranges + [r])[1..] == ranges[1..] + [r];
      assert (ranges + [r])[0] == ranges[0];
    }
  }

  /** The text put in front of the suffix: a lone number as it is, everything else in brackets. */
  function NumberText(ranges: seq<Range>): string {
    if |ranges| == 1 && ranges[0].low == ranges[0].high then Fmt(ranges[0].width, ranges[0].low)
    else "[" + Join(Texts(ranges)) + "]"
  }

  lemma {:induction false} JoinChars(parts: seq<string>)
    requires forall p <- parts :: forall c <- p :: IsDigit(c) || c == '-'
    ensures forall c <- Join(parts) :: IsDigit(c) || c == '-' || c == ','
    decreases |parts|
  {
    if |parts| > 0 {
      assert parts[0] in parts && forall p <- parts[1..] :: p in parts;
      JoinChars(parts[1..]);
    }
  }

  /** The collected text means the numbers of the ranges, in front of what the suffix means. */
  lemma NumberTextDenotes(ranges: seq<Range>, suffix: string)
    requires ranges != [] && GoodRanges(ranges) && Denote(suffix).Some?
    ensures Denote(NumberText(ranges) + suffix) == Some(Product(Nums(ranges), Denote(suffix).value))
  {
    if |ranges| == 1 && ranges[0].low == ranges[0].high {
      var a := Fmt(ranges[0].width, ranges[0].low);
      assert Plain(a);
      DenoteBehind(a, suffix);
      assert "" + a == a && RangeNums(ranges[0]) == [a];
      assert ranges[1..] == [] && Nums(ranges) == [a];
      assert [a][1..] == [];
      assert Product([a], Denote(suffix).value) == Prepend(a, Denote(suffix).value);
    } else {
      var texts := Texts(ranges);
      forall i | 0 <= i < |texts|
        ensures ',' !in texts[i] && forall c <- texts[i] :: IsDigit(c) || c == '-'
      {
        RangeTextChars(ranges[i]);
      }
      assert forall p <- texts :: forall c <- p :: IsDigit(c) || c == '-';
      JoinChars(texts);
      SplitOfJoin(texts);
      TextsDenote(ranges);
      DenoteBracket(Join(texts), suffix);
    }
  }

  lemma {:induction false} ScanList(s: string)
    requires forall c <- s :: IsDigit(c) || c == '-' || c == ','
    ensures Scan(1, s) == 1
    decreases |s|
  {
    if s != "" {
      assert s[0] in s && forall c <- s[1..] :: c in s;
      ScanList(s[1..]);
    }
  }

  lemma NumberTextBalanced(ranges: seq<Range>)
    ensures Balanced(NumberText(ranges))
  {
    if |ranges| == 1 && ranges[0].low == ranges[0].high {
      assert Plain(Fmt(ranges[0].width, ranges[0].low));
      ScanPlain(0, Fmt(ranges[0].width, ranges[0].low));
    } else {
      var texts := Texts(ranges);
      forall i | 0 <= i < |texts|
        ensures forall c <- texts[i] :: IsDigit(c) || c == '-'
      {
        RangeTextChars(ranges[i]);
      }
      assert forall p <- texts :: forall c <- p :: IsDigit(c) || c == '-';
      JoinChars(texts);
      ScanList(Join(texts));
      ScanJoin(0, "[", Join(texts));
      ScanJoin(0, "[" + Join(texts), "]");
      assert Scan(0, "[") == 1 && Scan(1, "]") == 0;
    }
  }
}
