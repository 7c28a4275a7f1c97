/** Expanding a host list expression: `expand_hostlist` and the functions it calls. */
module HostExpand {
  import opened Wrappers
  import opened HostText

  datatype Result<T> = Ok(value: T) | BadHostlist(why: string)

  const MAX_SIZE: nat := 100000

  // ----- one range -----

  /** The strings of the range low..high at one width, behind a prefix. */
  function RangeStrings(prefix: string, width: nat, low: nat, high: int): seq<string>
    requires low <= high + 1
  {
    seq(high - low + 1, i requires 0 <= i < high - low + 1 => prefix + Fmt(width, low + i))
  }

  predicate IsNumber(s: string) {
    s != "" && AllDigits(s)
  }

  /** `^([0-9]+)-([0-9]+)$`. */
  predicate IsSpan(s: string) {
    var i := IndexFrom(s, '-', 0);
    i < |s| && IsNumber(s[..i]) && IsNumber(s[i + 1..])
  }

  function SpanLow(s: string): string
    requires IsSpan(s)
  {
    s[..IndexFrom(s, '-', 0)]
  }

  function SpanHigh(s: string): string
    requires IsSpan(s)
  {
    s[IndexFrom(s, '-', 0) + 1..]
  }

  function RangeSpec(prefix: string, r: string): Result<seq<string>> {
    if IsNumber(r) then Ok([prefix + r])
    else if !IsSpan(r) then BadHostlist("bad range")
    else
      var low, high := Value(SpanLow(r)), Value(SpanHigh(r));
      if high < low then BadHostlist("start > stop")
      else if high - low > MAX_SIZE then BadHostlist("range too large")
      else Ok(RangeStrings(prefix, |SpanLow(r)|, low, high))
  }

  /** `expand_range`. */
  method ExpandRange(prefix: string, r: string) returns (res: Result<seq<string>>)
    ensures res == RangeSpec(prefix, r)
  {
    if IsNumber(r) {
      return Ok([prefix + r]);
    }
    if !IsSpan(r) {
      return BadHostlist("bad range");
    }
    var low, high, width := Value(SpanLow(r)), Value(SpanHigh(r)), |SpanLow(r)|;
    if high < low {
      return BadHostlist("start > stop");
    } else if high - low > MAX_SIZE {
      return BadHostlist("range too large");
    }
    var results: seq<string> := [];
    for i := low to high + 1
      invariant |results| == i - low
      invariant forall k :: 0 <= k < i - low ==> results[k] == prefix + Fmt(width, low + k)
    {
      results := results + [prefix + Fmt(width, i)];
    }
    assert results == RangeStrings(prefix, width, low, high);
    res := Ok(results);
  }

  // ----- a list of ranges -----

  function RangesSpec(prefix: string, ranges: seq<string>): Result<seq<string>>
    decreases |ranges|
  {
    if ranges == [] then Ok([])
    else match RangeSpec(prefix, ranges[0])
      case BadHostlist(why) => BadHostlist(why)
      case Ok(l) =>
        match RangesSpec(prefix, ranges[1..])
        case BadHostlist(why) => BadHostlist(why)
        case Ok(m) => Ok(l + m)
  }

  function RangelistSpec(prefix: string, rangelist: string): Result<seq<string>> {
    RangesSpec(prefix, Split(rangelist))
  }

  function Both(a: seq<string>, b: Result<seq<string>>): Result<seq<string>> {
    match b
    case BadHostlist(why) => b
    case Ok(l) => Ok(a + l)
  }

  lemma BothNothing(b: Result<seq<string>>)
    ensures Both([], b) == b
  {
    if b.Ok? {
      assert [] + b.value == b.value;
    }
  }

  /** `expand_rangelist`. */
  method ExpandRangelist(prefix: string, rangelist: string) returns (res: Result<seq<string>>)
    ensures res == RangelistSpec(prefix, rangelist)
  {
    var results: seq<string> := [];
    var ranges := Split(rangelist);
    assert ranges[0..] == ranges;
    BothNothing(RangesSpec(prefix, ranges));
    for i := 0 to |ranges|
      invariant RangesSpec(prefix, ranges) == Both(results, RangesSpec(prefix, ranges[i..]))
    {
      assert ranges[i..][0] == ranges[i] && ranges[i..][1..] == ranges[i + 1..];
      var r := ExpandRange(prefix, ranges[i]);
      if r.BadHostlist? {
        return r;
      }
      if RangesSpec(prefix, ranges[i + 1..]).Ok? {
        assert results + (r.value + RangesSpec(prefix, ranges[i + 1..]).value)
            == results + r.value + RangesSpec(prefix, ranges[i + 1..]).value;
      }
      results := results + r.value;
    }
    assert ranges[|ranges|..] == [] && results + [] == results;
    res := Ok(results);
  }

  // ----- brackets -----

  /** The bracket level after a character; -1 once brackets nest or close too often, or a comma or
      a line break stands where a part cannot have one. */
  function Step(level: int, c: char): int {
    if level < 0 then -1
    else if c == '[' then (if level == 0 then 1 else -1)
    else if c == ']' then (if level == 1 then 0 else -1)
    else if c == ',' then (if level == 1 then 1 else -1)
    else if c == '\n' then -1
    else level
  }

  function Scan(level: int, s: string): int
    decreases |s|
  {
    if s == "" then level else Scan(Step(level, s[0]), s[1..])
  }

  /** A part without outer commas whose brackets are balanced and not nested. */
  predicate Balanced(s: string) {
    Scan(0, s) == 0
  }

  predicate Plain(s: string) {
    forall c <- s :: c !in {'[', ']', ',', '\n'}
  }

  lemma {:induction false} ScanJoin(level: int, a: string, b: string)
    ensures Scan(level, a + b) == Scan(Scan(level, a), b)
    decreases |a|
  {
    if a == "" {
      assert a + b == b;
    } else {
      assert (a + b)[1..] == a[1..] + b;
      ScanJoin(Step(level, a[0]), a[1..], b);
    }
  }

  lemma {:induction false} ScanBad(s: string)
    ensures Scan(-1, s) == -1
    decreases |s|
  {
    if s != "" {
      ScanBad(s[1..]);
    }
  }

  lemma {:induction false} ScanPlain(level: int, s: string)
    requires 0 <= level && Plain(s)
    ensures Scan(level, s) == level
    decreases |s|
  {
    if s != "" {
      assert s[0] in s && forall c <- s[1..] :: c in s;
      ScanPlain(level, s[1..]);
    }
  }

  /** Inside a bracket the level stays 1 up to the first closing bracket. */
  lemma {:induction false} ScanInside(s: string)
    requires ']' !in s && '\n' !in s && '[' !in s
    ensures Scan(1, s) == 1
    decreases |s|
  {
    if s != "" {
      assert s[0] in s && forall c <- s[1..] :: c in s;
      ScanInside(s[1..]);
    }
  }

  /** The length of the leading `[^,\[]*`. */
  function PrefixLen(s: string): (n: nat)
    ensures n <= |s| && (n < |s| ==> s[n] in {',', '['})
    ensures forall i :: 0 <= i < n ==> s[i] !in {',', '['}
    decreases |s|
  {
    if s == "" || s[0] in {',', '['} then 0 else 1 + PrefixLen(s[1..])
  }

  /** What is left behind a plain-looking front of a balanced part starts at level 0 again. */
  lemma BalancedFront(p: string, rest: string)
    requires Balanced(p + rest) && forall i :: 0 <= i < |p| ==> p[i] !in {',', '['}
    ensures Plain(p) && Scan(0, rest) == 0
  {
    ScanJoin(0, p, rest);
    PrefixIsPlain(p, rest);
    ScanPlain(0, p);
    hide Scan, Plain;
  }

  /** In a balanced part the prefix is plain and ends at a bracket that is closed later. */
  lemma BalancedSplit(s: string)
    requires Balanced(s)
    ensures Plain(s[..PrefixLen(s)])
    ensures PrefixLen(s) < |s| ==>
      var n := PrefixLen(s);
      var j := IndexFrom(s, ']', n);
      s[n] == '[' && j < |s| && Balanced(s[j + 1..]) && '[' !in s[n + 1..j] && '\n' !in s[n + 1..j]
  {
    hide *;
    var n := PrefixLen(s);
    assert s == s[..n] + s[n..];
    BalancedFront(s[..n], s[n..]);
    if n < |s| {
      BracketCloses(s, n);
    }
  }

  lemma BracketCloses(s: string, n: nat)
    requires n < |s| && Scan(0, s[n..]) == 0 && s[n] in {',', '['}
    ensures var j := IndexFrom(s, ']', n);
      s[n] == '[' && j < |s| && Balanced(s[j + 1..]) && '[' !in s[n + 1..j] && '\n' !in s[n + 1..j]
  {
    var tail := s[n + 1..];
    assert s[n..][0] == s[n] && s[n..][1..] == tail;
    ScanBad(tail);
    CloseExists(tail);
    var k := IndexFrom(tail, ']', 0);
    assert forall m :: n + 1 <= m < n + 1 + k ==> s[m] == tail[m - n - 1];
    FirstIndex(s, ']', n, n + 1 + k);
    assert tail[..k] == s[n + 1..n + 1 + k];
    assert tail[k + 1..] == s[n + 1 + k + 1..];
  }

  lemma {:induction false} PrefixIsPlain(p: string, rest: string)
    requires Scan(Scan(0, p), rest) == 0 && forall i :: 0 <= i < |p| ==> p[i] !in {',', '['}
    ensures Plain(p)
    decreases |p|
  {
    if p != "" {
      ScanBad(p[1..]);
      ScanBad(rest);
      assert Scan(0, p) == Scan(Step(0, p[0]), p[1..]);
      assert p[0] !in {',', '['};
      PrefixIsPlain(p[1..], rest);
      assert p == [p[0]] + p[1..];
    }
  }

  lemma {:induction false} CloseExists(s: string)
    requires Scan(1, s) == 0
    ensures var k := IndexFrom(s, ']', 0);
      k < |s| && Balanced(s[k + 1..]) && '[' !in s[..k] && '\n' !in s[..k]
    decreases |s|
  {
    if s[0] != ']' {
      ScanBad(s[1..]);
      CloseExists(s[1..]);
      var k := IndexFrom(s[1..], ']', 0);
      FirstIndex(s, ']', 0, k + 1);
      assert s[1..][k + 1..] == s[k + 2..];
      assert s[..k + 1] == [s[0]] + s[1..][..k];
    }
  }

  // ----- a part -----

  /** The last step of `expand_part`; the rest has been expanded first, so its errors come first. */
  function Combine(us: Result<seq<string>>, rest: Result<seq<string>>): Result<seq<string>> {
    if rest.BadHostlist? then rest
    else if us.BadHostlist? then us
    else if |us.value| * |rest.value| > MAX_SIZE then BadHostlist("results too large")
    else Ok(Product(us.value, rest.value))
  }

  /** `expand_part`. */
  function ExpandPart(s: string): Result<seq<string>>
    requires Balanced(s)
    decreases |s|
  {
    if s == "" then Ok([""])
    else
      BalancedSplit(s);
      var n := PrefixLen(s);
      if n == |s| then Combine(Ok([s]), ExpandPart(""))
      else
        var j := IndexFrom(s, ']', n);
        Combine(RangelistSpec(s[..n], s[n + 1..j]), ExpandPart(s[j + 1..]))
  }

  // ----- what an expression denotes -----

  /** The strings of one range, however many; None when it is not a range. */
  ghost function RangeDenotes(r: string): Option<seq<string>> {
    if IsNumber(r) then Some([r])
    else if IsSpan(r) && Value(SpanLow(r)) <= Value(SpanHigh(r)) then
      Some(RangeStrings("", |SpanLow(r)|, Value(SpanLow(r)), Value(SpanHigh(r))))
    else None
  }

  ghost function RangesDenote(ranges: seq<string>): Option<seq<string>>
    decreases |ranges|
  {
    if ranges == [] then Some([])
    else
      var first, others := RangeDenotes(ranges[0]), RangesDenote(ranges[1..]);
      if first.None? || others.None? then None else Some(first.value + others.value)
  }

  /** The meaning of a part, character by character and without any size limit: a character is put in
      front of everything that follows, a bracket multiplies its strings with what follows. */
  ghost function Denote(s: string): Option<seq<string>>
    decreases |s|
  {
    if s == "" then Some([""])
    else if s[0] == '[' then
      var j := IndexFrom(s, ']', 0);
      if j == |s| then None
      else
        var us, rest := RangesDenote(Split(s[1..j])), Denote(s[j + 1..]);
        if us.None? || rest.None? then None else Some(Product(us.value, rest.value))
    else
      var rest := Denote(s[1..]);
      if rest.None? then None else Some(Prepend([s[0]], rest.value))
  }

  lemma {:induction false} DenoteBehind(p: string, s: string)
    requires Plain(p)
    ensures Denote(p + s) == if Denote(s).None? then None else Some(Prepend(p, Denote(s).value))
    decreases |p|
  {
    if p == "" {
      assert p + s == s;
      if Denote(s).Some? {
        PrependNothing(Denote(s).value);
      }
    } else {
      assert p[0] in p && forall c <- p[1..] :: c in p;
      assert (p + s)[1..] == p[1..] + s;
      DenoteBehind(p[1..], s);
      assert [p[0]] + p[1..] == p;
      if Denote(s).Some? {
        PrependTwice([p[0]], p[1..], Denote(s).value);
      }
    }
  }

  lemma DenoteBracket(rangelist: string, s: string)
    requires ']' !in rangelist
    ensures Denote("[" + rangelist + "]" + s) ==
      (var us, rest := RangesDenote(Split(rangelist)), Denote(s);
       if us.None? || rest.None? then None else Some(Product(us.value, rest.value)))
  {
    var t := "[" + rangelist + "]" + s;
    assert forall m :: 1 <= m < |rangelist| + 1 ==> t[m] == rangelist[m - 1];
    FirstIndex(t, ']', 0, |rangelist| + 1);
    assert t[1..|rangelist| + 1] == rangelist && t[|rangelist| + 2..] == s;
  }

  // ----- the expansion is the denotation, within the size limit -----

  lemma RangeSpecIs(prefix: string, r: string)
    ensures match RangeDenotes(r)
      case None => RangeSpec(prefix, r).BadHostlist?
      case Some(l) =>
        && l != []
        && RangeSpec(prefix, r) == if |l| > MAX_SIZE + 1 then BadHostlist("range too large") else Ok(Prepend(prefix, l))
  {
    if IsNumber(r) {
      assert Prepend(prefix, [r]) == [prefix + r];
    } else if RangeDenotes(r).Some? {
      var w, low, high := |SpanLow(r)|, Value(SpanLow(r)), Value(SpanHigh(r));
      var l := RangeStrings("", w, low, high);
      forall i | 0 <= i < |l|
        ensures Prepend(prefix, l)[i] == RangeStrings(prefix, w, low, high)[i]
      {
        assert "" + Fmt(w, low + i) == Fmt(w, low + i);
      }
      if high - low <= MAX_SIZE {
        assert Prepend(prefix, l) == RangeStrings(prefix, w, low, high);
      }
    }
  }

  lemma {:induction false} RangesSpecIs(prefix: string, ranges: seq<string>)
    ensures match RangesDenote(ranges)
      case None => RangesSpec(prefix, ranges).BadHostlist?
      case Some(l) =>
        && |l| >= |ranges|
        && (RangesSpec(prefix, ranges).Ok? ==> RangesSpec(prefix, ranges).value == Prepend(prefix, l))
        && (|l| <= MAX_SIZE ==> RangesSpec(prefix, ranges).Ok?)
    decreases |ranges|
  {
    if ranges != [] {
      RangeSpecIs(prefix, ranges[0]);
      RangesSpecIs(prefix, ranges[1..]);
      var first, others := RangeDenotes(ranges[0]), RangesDenote(ranges[1..]);
      if first.Some? && others.Some? {
        assert Prepend(prefix, first.value + others.value)
            == Prepend(prefix, first.value) + Prepend(prefix, others.value);
      }
    }
  }

  lemma FactorsFit(a: nat, b: nat, max: nat)
    requires a > 0 && b > 0 && a * b <= max
    ensures a <= max && b <= max
  {
    assert a <= a * b && b <= a * b;
  }

  lemma Pieces(s: string) returns (p: string, rangelist: string, rest: string)
    requires Balanced(s) && PrefixLen(s) < |s|
    ensures Plain(p) && ']' !in rangelist && Balanced(rest) && |rest| < |s|
    ensures s == p + ("[" + rangelist + "]" + rest)
    ensures var n := PrefixLen(s);
      var j := IndexFrom(s, ']', n);
      n < j < |s| && p == s[..n] && rangelist == s[n + 1..j] && rest == s[j + 1..]
  {
    BalancedSplit(s);
    var n := PrefixLen(s);
    var j := IndexFrom(s, ']', n);
    p, rangelist, rest := s[..n], s[n + 1..j], s[j + 1..];
    forall c | c in rangelist
      ensures c != ']'
    {
      var m :| 0 <= m < |rangelist| && rangelist[m] == c;
      assert s[n + 1 + m] == c;
    }
  }

  /** The meaning of a leading piece with a bracket, followed by a rest. */
  lemma DenotePieces(p: string, rangelist: string, rest: string)
    requires Plain(p) && ']' !in rangelist
    ensures Denote(p + ("[" + rangelist + "]" + rest)) ==
      (var us, tail := RangesDenote(Split(rangelist)), Denote(rest);
       if us.None? || tail.None? then None else Some(Product(Prepend(p, us.value), tail.value)))
  {
    DenoteBehind(p, "[" + rangelist + "]" + rest);
    DenoteBracket(rangelist, rest);
    if RangesDenote(Split(rangelist)).Some? && Denote(rest).Some? {
      PrependProduct(p, RangesDenote(Split(rangelist)).value, Denote(rest).value);
    }
  }

  lemma DenotePlain(s: string)
    requires Plain(s)
    ensures Denote(s) == Some([s])
  {
    assert Denote("") == Some([""]);
    DenoteBehind(s, "");
    assert s + "" == s;
    assert Prepend(s, [""]) == [s];
  }

  lemma ProductOfOne(s: string)
    ensures Product([s], [""]) == [s]
  {
    assert s + "" == s;
    assert Prepend(s, [""]) == [s];
    assert [s][1..] == [];
  }

  lemma ExpandStep(s: string, p: string, rangelist: string, rest: string)
    requires Balanced(s) && PrefixLen(s) < |s| && Balanced(rest)
    requires var n := PrefixLen(s);
      var j := IndexFrom(s, ']', n);
      n < j < |s| && p == s[..n] && rangelist == s[n + 1..j] && rest == s[j + 1..]
    ensures ExpandPart(s) == Combine(RangelistSpec(p, rangelist), ExpandPart(rest))
  {
    hide Combine, RangelistSpec, Scan, IndexFrom, PrefixLen;
  }

  lemma CombineIs(p: string, us: seq<string>, rest: seq<string>, usResult: Result<seq<string>>,
                  restResult: Result<seq<string>>)
    requires us != [] && rest != []
    requires usResult.Ok? ==> usResult.value == Prepend(p, us)
    requires |us| <= MAX_SIZE ==> usResult.Ok?
    requires restResult.Ok? <==> |rest| <= MAX_SIZE
    requires restResult.Ok? ==> restResult.value == rest
    ensures var r := Combine(usResult, restResult);
      var l := Product(Prepend(p, us), rest);
      l != [] && (r.Ok? <==> |l| <= MAX_SIZE) && (r.Ok? ==> r.value == l)
  {
    ProductSize(Prepend(p, us), rest);
    if |us| * |rest| <= MAX_SIZE {
      FactorsFit(|us|, |rest|, MAX_SIZE);
    }
    assert |us| * |rest| >= 1;
  }

  /** `expand_part` returns the meaning of the part, in order, exactly when it has one of at most
      MAX_SIZE strings; otherwise it raises BadHostlist. */
  lemma {:induction false} ExpandPartIs(s: string)
    requires Balanced(s)
    ensures Denote(s).Some? ==> Denote(s).value != []
    ensures ExpandPart(s).Ok? <==> Denote(s).Some? && |Denote(s).value| <= MAX_SIZE
    ensures ExpandPart(s).Ok? ==> ExpandPart(s).value == Denote(s).value
    decreases |s|
  {
    if PrefixLen(s) == |s| {
      ExpandPlain(s);
    } else {
      var p, rangelist, tail := Pieces(s);
      ExpandPartIs(tail);
      ExpandPiecesIs(s, p, rangelist, tail);
    }
  }

  lemma ExpandPlain(s: string)
    requires Balanced(s) && PrefixLen(s) == |s|
    ensures Plain(s) && ExpandPart(s) == Ok([s]) && Denote(s) == Some([s])
  {
    BalancedSplit(s);
    assert s[..|s|] == s;
    DenotePlain(s);
    ProductOfOne(s);
    if s != "" {
      assert ExpandPart("") == Ok([""]);
    }
  }

  lemma ExpandPiecesIs(s: string, p: string, rangelist: string, rest: string)
    requires Balanced(s) && PrefixLen(s) < |s| && Balanced(rest) && Plain(p) && ']' !in rangelist
    requires var n := PrefixLen(s);
      var j := IndexFrom(s, ']', n);
      n < j < |s| && p == s[..n] && rangelist == s[n + 1..j] && rest == s[j + 1..]
    requires s == p + ("[" + rangelist + "]" + rest)
    requires Denote(rest).Some? ==> Denote(rest).value != []
    requires ExpandPart(rest).Ok? <==> Denote(rest).Some? && |Denote(rest).value| <= MAX_SIZE
    requires ExpandPart(rest).Ok? ==> ExpandPart(rest).value == Denote(rest).value
    ensures Denote(s).Some? ==> Denote(s).value != []
    ensures ExpandPart(s).Ok? <==> Denote(s).Some? && |Denote(s).value| <= MAX_SIZE
    ensures ExpandPart(s).Ok? ==> ExpandPart(s).value == Denote(s).value
  {
    ExpandStep(s, p, rangelist, rest);
    RangesSpecIs(p, Split(rangelist));
    DenotePieces(p, rangelist, rest);
    var us, tail := RangesDenote(Split(rangelist)), Denote(rest);
    if us.Some? && tail.Some? {
      CombineIs(p, us.value, tail.value, RangelistSpec(p, rangelist), ExpandPart(rest));
    }
  }

  lemma JoinPieces(p: string, rangelist: string, rest: string, b: string)
    requires Plain(p) && ']' !in rangelist && RangesDenote(Split(rangelist)).Some?
    requires Denote(rest).Some? && Denote(b).Some?
    requires Denote(rest + b) == Some(Product(Denote(rest).value, Denote(b).value))
    ensures var us := Prepend(p, RangesDenote(Split(rangelist)).value);
      Denote(p + ("[" + rangelist + "]" + (rest + b))) ==
      Some(Product(Product(us, Denote(rest).value), Denote(b).value))
  {
    DenotePieces(p, rangelist, rest + b);
    ProductAssociative(Prepend(p, RangesDenote(Split(rangelist)).value), Denote(rest).value, Denote(b).value);
  }

  lemma Regroup(p: string, m: string, rest: string, b: string)
    ensures p + (m + rest) + b == p + (m + (rest + b))
  {
  }

  /** Concatenating two parts multiplies their meanings. */
  lemma {:induction false} DenoteJoin(a: string, b: string)
    requires Balanced(a) && Denote(a).Some? && Denote(b).Some?
    ensures Denote(a + b) == Some(Product(Denote(a).value, Denote(b).value))
    decreases |a|
  {
    if PrefixLen(a) == |a| {
      ExpandPlain(a);
      DenoteBehind(a, b);
      assert [a][1..] == [];
      assert Product([a], Denote(b).value) == Prepend(a, Denote(b).value);
    } else {
      var p, rangelist, rest := Pieces(a);
      DenotePieces(p, rangelist, rest);
      DenoteJoin(rest, b);
      JoinPieces(p, rangelist, rest, b);
      Regroup(p, "[" + rangelist + "]", rest, b);
    }
  }

  lemma {:induction false} ProductOfConcat(a: seq<string>, b: seq<string>, c: seq<string>)
    ensures Product(a + b, c) == Product(a, c) + Product(b, c)
    decreases |a|
  {
    if a == [] {
      assert a + b == b;
    } else {
      assert (a + b)[1..] == a[1..] + b;
      ProductOfConcat(a[1..], b, c);
    }
  }

  lemma {:induction false} ProductAssociative(a: seq<string>, b: seq<string>, c: seq<string>)
    ensures Product(Product(a, b), c) == Product(a, Product(b, c))
    decreases |a|
  {
    if a != [] {
      ProductOfConcat(Prepend(a[0], b), Product(a[1..], b), c);
      PrependProduct(a[0], b, c);
      ProductAssociative(a[1..], b, c);
    }
  }

  // ----- the whole expression -----

  /** The loop of `expand_hostlist` over the characters of `hostlist + ","`, before duplicates go. */
  function ExpandFrom(s: string, level: int, part: string): Result<seq<string>>
    requires '\n' !in s && Scan(0, part) == level && 0 <= level <= 1
    decreases |s|
  {
    if s == "" then (if level > 0 then BadHostlist("unbalanced brackets") else Ok([]))
    else
      assert s[0] in s && forall c <- s[1..] :: c in s;
      ScanJoin(0, part, [s[0]]);
      assert Scan(0, part + [s[0]]) == Step(level, s[0]);
      if s[0] == ',' && level == 0 then
        match if part == "" then Ok([]) else ExpandPart(part)
        case BadHostlist(why) => BadHostlist(why)
        case Ok(l) => Both(l, ExpandFrom(s[1..], 0, ""))
      else if s[0] == '[' && level == 1 then BadHostlist("nested brackets")
      else if s[0] == ']' && level == 0 then BadHostlist("unbalanced brackets")
      else ExpandFrom(s[1..], Step(level, s[0]), part + [s[0]])
  }

  /** The elements in order of their first occurrence. */
  function Dedup(l: seq<string>): (r: seq<string>)
    decreases |l|
  {
    if l == [] then []
    else
      var front, e := Dedup(l[..|l| - 1]), l[|l| - 1];
      if e in l[..|l| - 1] then front else front + [e]
  }

  lemma {:induction false} DedupIs(l: seq<string>)
    ensures NoDup(Dedup(l)) && forall e :: e in Dedup(l) <==> e in l
    ensures NoDup(l) ==> Dedup(l) == l
    decreases |l|
  {
    if l != [] {
      var front, e := l[..|l| - 1], l[|l| - 1];
      DedupIs(front);
      assert l == front + [e];
      assert forall x :: x in l <==> x in front || x == e;
      if NoDup(l) {
        assert forall i :: 0 <= i < |front| ==> front[i] != l[|l| - 1];
      }
    }
  }

  /** `remove_duplicates`. */
  method RemoveDuplicates(l: seq<string>) returns (results: seq<string>)
    ensures results == Dedup(l)
  {
    var seen: set<string> := {};
    results := [];
    for i := 0 to |l|
      invariant forall e :: e in seen <==> e in l[..i]
      invariant results == Dedup(l[..i])
    {
      assert l[..i + 1] == l[..i] + [l[i]] && l[..i + 1][..i] == l[..i];
      if l[i] !in seen {
        results := results + [l[i]];
        seen := seen + {l[i]};
      }
    }
    assert l[..|l|] == l;
  }

  /** What `expand_hostlist(hostlist, allow_duplicates)` returns. */
  function ExpandSpec(hostlist: string, allowDuplicates: bool): Result<seq<string>>
    requires '\n' !in hostlist
  {
    var r := ExpandFrom(hostlist + ",", 0, "");
    if r.Ok? && !allowDuplicates then Ok(Dedup(r.value)) else r
  }

  /** `expand_hostlist`. */
  method ExpandHostlist(hostlist: string, allowDuplicates: bool) returns (res: Result<seq<string>>)
    requires '\n' !in hostlist
    ensures res == ExpandSpec(hostlist, allowDuplicates)
  {
    var s := hostlist + ",";
    var results: seq<string> := [];
    var level, part := 0, "";
    assert s[0..] == s;
    BothNothing(ExpandFrom(s, 0, ""));
    for i := 0 to |s|
      invariant Scan(0, part) == level && 0 <= level <= 1
      invariant ExpandFrom(s, 0, "") == Both(results, ExpandFrom(s[i..], level, part))
    {
      var c := s[i];
      assert s[i..][0] == c && s[i..][1..] == s[i + 1..];
      ScanJoin(0, part, [c]);
      if c == ',' && level == 0 {
        if part != "" {
          var l := ExpandPart(part);
          if l.BadHostlist? {
            return l;
          }
          BothTwice(results, l.value, ExpandFrom(s[i + 1..], 0, ""));
          results := results + l.value;
        } else {
          BothNothing(ExpandFrom(s[i + 1..], 0, ""));
        }
        part := "";
      } else {
        part := part + [c];
        if c == '[' {
          level := level + 1;
        } else if c == ']' {
          level := level - 1;
        }
      }
      if level > 1 {
        return BadHostlist("nested brackets");
      } else if level < 0 {
        return BadHostlist("unbalanced brackets");
      }
    }
    if level > 0 {
      return BadHostlist("unbalanced brackets");
    }
    assert s[|s|..] == "" && results + [] == results;
    if !allowDuplicates {
      results := RemoveDuplicates(results);
    }
    res := Ok(results);
  }

  lemma BothTwice(a: seq<string>, b: seq<string>, r: Result<seq<string>>)
    ensures Both(a, Both(b, r)) == Both(a + b, r)
  {
    if r.Ok? {
      assert a + (b + r.value) == a + b + r.value;
    }
  }

  // ----- joining parts -----

  /** A part is read up to the comma behind it. */
  lemma {:induction false} ExpandReadsPart(part: string, p: string, rest: string, level: int)
    requires '\n' !in p + "," + rest && Scan(0, part) == level && 0 <= level <= 1 && Scan(level, p) == 0
    ensures Balanced(part + p) && '\n' !in rest
    ensures ExpandFrom(p + "," + rest, level, part) ==
      if part + p == "" then ExpandFrom(rest, 0, "")
      else match ExpandPart(part + p)
        case BadHostlist(why) => BadHostlist(why)
        case Ok(l) => Both(l, ExpandFrom(rest, 0, ""))
    decreases |p|
  {
    var s := p + "," + rest;
    ScanJoin(0, part, p);
    assert forall c <- rest :: c in s;
    if p == "" {
      assert s[0] == ',' && s[1..] == rest && part + p == part;
      BothNothing(ExpandFrom(rest, 0, ""));
    } else {
      assert s[0] == p[0] && s[1..] == p[1..] + "," + rest;
      ScanBad(p[1..]);
      assert Scan(level, p) == Scan(Step(level, p[0]), p[1..]);
      ScanJoin(0, part, [p[0]]);
      assert part + p == part + [p[0]] + p[1..];
      assert forall c <- s[1..] :: c in s;
      ExpandReadsPart(part + [p[0]], p[1..], rest, Step(level, p[0]));
    }
  }

  /** The expansions of several parts, one after the other. */
  function ExpandParts(parts: seq<string>): Result<seq<string>>
    requires forall i :: 0 <= i < |parts| ==> Balanced(parts[i])
    decreases |parts|
  {
    if parts == [] then Ok([])
    else match ExpandPart(parts[0])
      case BadHostlist(why) => BadHostlist(why)
      case Ok(l) => Both(l, ExpandParts(parts[1..]))
  }

  lemma {:induction false} ScanLineBreak(level: int, s: string)
    requires Scan(level, s) >= 0
    ensures '\n' !in s
    decreases |s|
  {
    if s != "" {
      ScanBad(s[1..]);
      ScanLineBreak(Step(level, s[0]), s[1..]);
      assert s == [s[0]] + s[1..];
    }
  }

  /** An expression joined from parts expands to the expansions of the parts in order. */
  lemma {:induction false} ExpandOfJoin(parts: seq<string>)
    requires parts != [] && forall i :: 0 <= i < |parts| ==> Balanced(parts[i]) && parts[i] != ""
    ensures '\n' !in Join(parts) + ","
    ensures ExpandFrom(Join(parts) + ",", 0, "") == ExpandParts(parts)
    decreases |parts|
  {
    var p := parts[0];
    ScanLineBreak(0, p);
    assert "" + p == p;
    if |parts| == 1 {
      assert Join(parts) + "," == p + "," + "";
      ExpandReadsPart("", p, "", 0);
      assert ExpandParts(parts[1..]) == Ok([]);
    } else {
      ExpandOfJoin(parts[1..]);
      assert Join(parts) + "," == p + "," + (Join(parts[1..]) + ",");
      ExpandReadsPart("", p, Join(parts[1..]) + ",", 0);
    }
  }
}
