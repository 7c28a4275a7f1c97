/** Text of host names and range lists: digits, zero-padded numbers, digit runs, commas, products. */
module HostText {

  predicate IsDigit(c: char) {
    '0' <= c <= '9'
  }

  predicate AllDigits(s: string) {
    forall i :: 0 <= i < |s| ==> IsDigit(s[i])
  }

  predicate NoDigits(s: string) {
    forall i :: 0 <= i < |s| ==> !IsDigit(s[i])
  }

  // ----- numbers -----

  function DigitChar(d: nat): (c: char)
    requires d < 10
    ensures IsDigit(c)
  {
    ('0' as int + d) as char
  }

  function DigitValue(c: char): (d: nat)
    requires IsDigit(c)
    ensures d < 10 && DigitChar(d) == c
  {
    c as int - '0' as int
  }

  /** `int(s)` for a string of digits. */
  function Value(s: string): nat
    requires AllDigits(s)
  {
    if s == "" then 0 else 10 * Value(s[..|s| - 1]) + DigitValue(s[|s| - 1])
  }

  /** `"%d" % n`. */
  function Decimal(n: nat): (s: string)
    ensures s != "" && AllDigits(s)
  {
    if n < 10 then [DigitChar(n)] else Decimal(n / 10) + [DigitChar(n % 10)]
  }

  function Zeros(n: int): (s: string)
    ensures |s| == (if n > 0 then n else 0) && AllDigits(s)
  {
    if n <= 0 then "" else Zeros(n - 1) + "0"
  }

  /** `"%0*d" % (width, n)`. */
  function Fmt(width: nat, n: nat): (s: string)
    ensures s != "" && AllDigits(s)
  {
    Zeros(width - |Decimal(n)|) + Decimal(n)
  }

  lemma {:induction false} ZerosFront(n: nat)
    ensures Zeros(n + 1) == "0" + Zeros(n)
  {
    if n > 0 {
      ZerosFront(n - 1);
    }
  }

  /** The last digit of a padded number can be split off. */
  lemma FmtLast(width: nat, n: nat)
    requires n >= 10 || width >= 2
    ensures Fmt(width, n) == Fmt(if width == 0 then 0 else width - 1, n / 10) + [DigitChar(n % 10)]
  {
    if n < 10 {
      assert Decimal(n / 10) == "0";
      assert Zeros(width - 1) == Zeros(width - 2) + "0";
    } else if width == 0 {
      assert Zeros(0 - |Decimal(n)|) == "" == Zeros(0 - |Decimal(n / 10)|);
    }
  }

  /** Reading a string of digits and printing it at its own length gives it back. */
  lemma {:induction false} FmtOfValue(s: string)
    requires AllDigits(s) && s != ""
    ensures Fmt(|s|, Value(s)) == s
    decreases |s|
  {
    var front, last := s[..|s| - 1], s[|s| - 1];
    assert s == front + [last];
    if front == "" {
      assert Value(front) == 0;
      assert Value(s) == DigitValue(last);
      assert Decimal(Value(s)) == [last];
    } else {
      FmtOfValue(front);
      FmtLast(|s|, Value(s));
      assert Value(s) / 10 == Value(front) && Value(s) % 10 == DigitValue(last);
    }
  }

  lemma {:induction false} ValueOfFmt(width: nat, n: nat)
    ensures Value(Fmt(width, n)) == n
    decreases width + n
  {
    if n >= 10 || width >= 2 {
      var w := if width == 0 then 0 else width - 1;
      FmtLast(width, n);
      ValueOfFmt(w, n / 10);
      assert Fmt(width, n)[..|Fmt(width, n)| - 1] == Fmt(w, n / 10);
    } else {
      assert Fmt(width, n) == [DigitChar(n)];
      assert Fmt(width, n)[..0] == "";
    }
  }

  lemma FmtInjective(width: nat, m: nat, n: nat)
    requires Fmt(width, m) == Fmt(width, n)
    ensures m == n
  {
    ValueOfFmt(width, m);
    ValueOfFmt(width, n);
  }

  // ----- runs of digits -----

  /** The number of maximal runs of digits. */
  function Runs(s: string): nat {
    if s == "" then 0
    else (if IsDigit(s[0]) && (|s| == 1 || !IsDigit(s[1])) then 1 else 0) + Runs(s[1..])
  }

  lemma {:induction false} RunsJoin(a: string, b: string)
    requires a == "" || b == "" || !IsDigit(a[|a| - 1]) || !IsDigit(b[0])
    ensures Runs(a + b) == Runs(a) + Runs(b)
    decreases |a|
  {
    if a == "" {
      assert a + b == b;
    } else {
      assert (a + b)[1..] == a[1..] + b;
      RunsJoin(a[1..], b);
      if |a| == 1 && b != "" {
        assert (a + b)[1] == b[0];
      }
    }
  }

  lemma {:induction false} RunsOfDigits(s: string)
    requires AllDigits(s) && s != ""
    ensures Runs(s) == 1
    decreases |s|
  {
    if |s| > 1 {
      RunsOfDigits(s[1..]);
    }
  }

  lemma {:induction false} RunsOfNoDigits(s: string)
    requires NoDigits(s)
    ensures Runs(s) == 0
    decreases |s|
  {
    if s != "" {
      RunsOfNoDigits(s[1..]);
    }
  }

  lemma {:induction false} RunsPositive(s: string)
    requires s != "" && IsDigit(s[0])
    ensures Runs(s) >= 1
    decreases |s|
  {
    if |s| > 1 && IsDigit(s[1]) {
      RunsPositive(s[1..]);
    }
  }

  /** Where a tail with a given number of runs, starting with a digit, can be cut off is determined. */
  lemma CutIsUnique(a: string, b: string, c: string, d: string)
    requires a + b == c + d && b != "" && d != "" && IsDigit(b[0]) && IsDigit(d[0])
    requires (a != "" ==> !IsDigit(a[|a| - 1])) && (c != "" ==> !IsDigit(c[|c| - 1]))
    requires Runs(b) == Runs(d)
    ensures a == c && b == d
  {
    if |b| < |d| {
      LongerTailHasMoreRuns(a, b, c, d);
    } else if |d| < |b| {
      LongerTailHasMoreRuns(c, d, a, b);
    } else {
      assert a == (a + b)[..|a|] == c;
      assert b == (a + b)[|a|..] == d;
    }
  }

  lemma LongerTailHasMoreRuns(a: string, b: string, c: string, d: string)
    requires a + b == c + d && |b| < |d| && d != "" && IsDigit(d[0])
    requires a != "" ==> !IsDigit(a[|a| - 1])
    ensures Runs(b) < Runs(d)
  {
    var m := a[|c|..];
    assert d == (a + b)[|c|..] == m + b;
    assert m[0] == d[0] && m[|m| - 1] == a[|a| - 1];
    RunsPositive(m);
    RunsJoin(m, b);
  }

  // ----- commas -----

  function IndexFrom(s: string, c: char, i: nat): (j: nat)
    requires i <= |s|
    ensures i <= j <= |s| && (j < |s| ==> s[j] == c)
    ensures forall m :: i <= m < j ==> s[m] != c
    decreases |s| - i
  {
    if i == |s| || s[i] == c then i else IndexFrom(s, c, i + 1)
  }

  lemma FirstIndex(s: string, c: char, i: nat, j: nat)
    requires i <= j < |s| && s[j] == c && forall m :: i <= m < j ==> s[m] != c
    ensures IndexFrom(s, c, i) == j
  {
  }

  /** `s.split(",")`. */
  function Split(s: string): (parts: seq<string>)
    ensures parts != []
    decreases |s|
  {
    var i := IndexFrom(s, ',', 0);
    if i == |s| then [s] else [s[..i]] + Split(s[i + 1..])
  }

  /** `",".join(parts)`. */
  function Join(parts: seq<string>): string
    decreases |parts|
  {
    if parts == [] then ""
    else if |parts| == 1 then parts[0]
    else parts[0] + "," + Join(parts[1..])
  }

  lemma NoComma(p: string)
    requires ',' !in p
    ensures Split(p) == [p]
  {
    assert IndexFrom(p, ',', 0) == |p|;
  }

  lemma FirstComma(p: string, rest: string)
    requires ',' !in p
    ensures Split(p + "," + rest) == [p] + Split(rest)
  {
    var s := p + "," + rest;
    assert s[|p|] == ',' && forall m :: 0 <= m < |p| ==> s[m] == p[m] != ',';
    assert IndexFrom(s, ',', 0) == |p|;
    assert s[..|p|] == p && s[|p| + 1..] == rest;
  }

  lemma {:induction false} SplitOfJoin(parts: seq<string>)
    requires parts != [] && forall i :: 0 <= i < |parts| ==> ',' !in parts[i]
    ensures Split(Join(parts)) == parts
    decreases |parts|
  {
    if |parts| == 1 {
      NoComma(parts[0]);
    } else {
      assert Join(parts) == parts[0] + "," + Join(parts[1..]);
      FirstComma(parts[0], Join(parts[1..]));
      hide Join, Split, IndexFrom;
      SplitOfJoin(parts[1..]);
      assert [parts[0]] + parts[1..] == parts;
    }
  }

  // ----- lists of strings -----

  function Prepend(p: string, l: seq<string>): (r: seq<string>)
    ensures |r| == |l|
  {
    seq(|l|, i requires 0 <= i < |l| => p + l[i])
  }

  /** All concatenations, the left factor varying slowest. */
  function Product(a: seq<string>, b: seq<string>): seq<string>
    decreases |a|
  {
    if a == [] then [] else Prepend(a[0], b) + Product(a[1..], b)
  }

  predicate NoDup<T(==)>(l: seq<T>) {
    forall i, j :: 0 <= i < j < |l| ==> l[i] != l[j]
  }

  lemma PrependNothing(l: seq<string>)
    ensures Prepend("", l) == l
  {
    assert forall i :: 0 <= i < |l| ==> "" + l[i] == l[i];
  }

  lemma PrependTwice(p: string, q: string, l: seq<string>)
    ensures Prepend(p, Prepend(q, l)) == Prepend(p + q, l)
  {
    forall i | 0 <= i < |l|
      ensures Prepend(p, Prepend(q, l))[i] == Prepend(p + q, l)[i]
    {
      assert p + (q + l[i]) == (p + q) + l[i];
    }
    assert Prepend(p, Prepend(q, l)) == Prepend(p + q, l);
  }

  lemma {:induction false} PrependProduct(p: string, a: seq<string>, b: seq<string>)
    ensures Product(Prepend(p, a), b) == Prepend(p, Product(a, b))
    decreases |a|
  {
    if a != [] {
      PrependProduct(p, a[1..], b);
      PrependTwice(p, a[0], b);
      assert Prepend(p, a)[1..] == Prepend(p, a[1..]);
      assert Prepend(p, a)[0] == p + a[0];
      assert Prepend(p, Prepend(a[0], b) + Product(a[1..], b))
          == Prepend(p, Prepend(a[0], b)) + Prepend(p, Product(a[1..], b));
    }
  }

  lemma {:induction false} ProductSize(a: seq<string>, b: seq<string>)
    ensures |Product(a, b)| == |a| * |b|
    decreases |a|
  {
    if a != [] {
      ProductSize(a[1..], b);
      assert |a| * |b| == |b| + (|a| - 1) * |b|;
    }
  }

  lemma {:induction false} ProductHas(a: seq<string>, b: seq<string>, x: string)
    ensures x in Product(a, b) <==> exists i, j :: 0 <= i < |a| && 0 <= j < |b| && x == a[i] + b[j]
    decreases |a|
  {
    if a != [] {
      ProductHas(a[1..], b, x);
      if i, j :| 0 <= i < |a| && 0 <= j < |b| && x == a[i] + b[j] {
        if i == 0 {
          assert Prepend(a[0], b)[j] == x;
        } else {
          assert x == a[1..][i - 1] + b[j];
        }
      }
      if x in Prepend(a[0], b) {
        var j :| 0 <= j < |b| && Prepend(a[0], b)[j] == x;
        assert x == a[0] + b[j];
      } else if x in Product(a[1..], b) {
        var i, j :| 0 <= i < |a[1..]| && 0 <= j < |b| && x == a[1..][i] + b[j];
        assert x == a[i + 1] + b[j];
      }
    }
  }
}
