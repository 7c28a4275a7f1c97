/** `collect_hostlist` as a whole, and the round trip through `expand_hostlist`. */
module HostRoundTrip {
  import opened Wrappers
  import opened HostText
  import opened HostExpand
  import opened HostCollect
  import opened HostRound
  import opened HostLoop
  import opened HostStrip

  // ----- the hosts a list asks for -----

  /** The hosts to collect: stripped, not empty, without forbidden characters. */
  function Wanted(hosts: seq<string>): set<string> {
    set h <- hosts | Strip(h) != "" && !Forbidden(Strip(h)) :: Strip(h)
  }

  /** They are the given texts without the white space around them, as far as anything is left and it has no
      bracket and no comma. */
  lemma WantedIff(hosts: seq<string>, x: string)
    ensures x in Wanted(hosts) <==>
      x != "" && (forall c <- x :: c != '[' && c != ']' && c != ',') && exists h :: h in hosts && Trimmed(h, x)
  {
    if x in Wanted(hosts) {
      var h :| h in hosts && x == Strip(h);
      TrimmedIff(h, x);
    }
    if h :| h in hosts && Trimmed(h, x) {
      TrimmedIff(h, x);
    }
    assert Forbidden(x) <==> exists c :: c in x && (c == '[' || c == ']' || c == ',');
  }

  /** A text is refused for a bracket or a comma, which stripping does not take away. */
  lemma NoneForbiddenIff(hosts: seq<string>)
    ensures (forall h <- hosts :: !Forbidden(Strip(h))) <==>
      forall h, c {:trigger h in hosts, c in h} :: h in hosts && c in h ==> c != '[' && c != ']' && c != ','
  {
    forall h
      ensures Forbidden(Strip(h)) <==> exists c :: c in h && (c == '[' || c == ']' || c == ',')
    {
      ForbiddenIff(h);
    }
    hide Forbidden, Strip;
  }

  // ----- rounds end -----

  ghost function MaxRuns(pairs: seq<Pair>): nat
    decreases |pairs|
  {
    if pairs == [] then 0
    else
      var m := MaxRuns(pairs[1..]);
      if Runs(pairs[0].left) > m then Runs(pairs[0].left) else m
  }

  lemma {:induction false} MaxRunsIs(pairs: seq<Pair>)
    ensures forall e <- pairs :: Runs(e.left) <= MaxRuns(pairs)
    ensures MaxRuns(pairs) > 0 ==> exists e :: e in pairs && Runs(e.left) == MaxRuns(pairs)
    decreases |pairs|
  {
    if pairs != [] {
      MaxRunsIs(pairs[1..]);
      assert forall e <- pairs :: e == pairs[0] || e in pairs[1..];
      assert pairs[0] in pairs && forall e <- pairs[1..] :: e in pairs;
    }
  }

  lemma {:induction false} DigitGivesRun(s: string)
    requires !NoDigits(s)
    ensures Runs(s) > 0
    decreases |s|
  {
    if IsDigit(s[0]) {
      RunsPositive(s);
    } else {
      var i :| 0 <= i < |s| && IsDigit(s[i]);
      assert s[1..][i - 1] == s[i];
      DigitGivesRun(s[1..]);
    }
  }

  /** The largest number of digit runs in a left part falls in every round that asks for another. */
  lemma RoundsEnd(pairs: seq<Pair>, results: seq<Pair>)
    requires HasNumber(pairs) && forall e <- results :: Shorter(e, pairs)
    ensures MaxRuns(results) < MaxRuns(pairs)
  {
    MaxRunsIs(pairs);
    MaxRunsIs(results);
    var f :| f in pairs && !NoDigits(f.left);
    DigitGivesRun(f.left);
  }

  // ----- the first pairs -----

  lemma FirstPair(h: string)
    requires Plain(h)
    ensures TidyPair(Pair(h, ""), 0) && Host(Pair(h, "")) == h && Hosts(h) == [h]
  {
    assert Denote("") == Some([""]);
    assert h + "" == h;
    DenotePlain(h);
  }

  ghost predicate FirstPairs(pairs: seq<Pair>) {
    forall i :: 0 <= i < |pairs| ==> pairs[i].right == "" && Plain(pairs[i].left)
  }

  lemma FirstTidy(pairs: seq<Pair>)
    requires FirstPairs(pairs)
    ensures Tidy(pairs, 0)
    ensures forall x :: Stands(pairs, x) <==> exists e :: e in pairs && e.left == x
  {
    forall i | 0 <= i < |pairs|
      ensures TidyPair(pairs[i], 0) && Host(pairs[i]) == pairs[i].left && Hosts(pairs[i].left) == [pairs[i].left]
    {
      assert pairs[i] == Pair(pairs[i].left, "");
      FirstPair(pairs[i].left);
    }
  }

  // ----- what a collected expression is -----

  /** Non-empty balanced parts without duplicates, apart from each other, for exactly the wanted hosts. */
  ghost predicate Collects(parts: seq<string>, wanted: set<string>) {
    && (forall i :: 0 <= i < |parts| ==> Means(parts[i]) && parts[i] != "")
    && (forall i, j :: 0 <= i < j < |parts| ==> Disjoint(parts[i], parts[j]))
    && (forall x :: x in wanted <==> exists i :: 0 <= i < |parts| && x in Hosts(parts[i]))
  }

  function Parts(pairs: seq<Pair>): seq<string> {
    seq(|pairs|, i requires 0 <= i < |pairs| => Host(pairs[i]))
  }

  lemma FinalParts(pairs: seq<Pair>, r: nat, wanted: set<string>)
    requires Tidy(pairs, r) && Apart(pairs) && (forall e <- pairs :: e.left == "") && "" !in wanted
    requires forall x :: Stands(pairs, x) <==> x in wanted
    ensures Collects(Parts(pairs), wanted)
  {
    var parts := Parts(pairs);
    forall i | 0 <= i < |parts|
      ensures Means(parts[i]) && parts[i] != ""
    {
      assert "" + pairs[i].right == pairs[i].right;
      assert pairs[i] in pairs;
      assert Hosts("") == [""];
      assert "" in Hosts("");
      assert parts[i] == "" ==> Stands(pairs, "");
    }
    forall x
      ensures x in wanted <==> exists i :: 0 <= i < |parts| && x in Hosts(parts[i])
    {
      assert Stands(pairs, x) <==> x in wanted;
      if i :| 0 <= i < |parts| && x in Hosts(parts[i]) {
        assert pairs[i] in pairs;
      }
      if Stands(pairs, x) {
        var e :| e in pairs && x in Hosts(Host(e));
        var i :| 0 <= i < |pairs| && pairs[i] == e;
        assert x in Hosts(parts[i]);
      }
    }
  }

  // ----- collect_hostlist -----

  /** The first loop: strip, skip empty lines, check for forbidden characters. */
  method FirstLoop(hosts: seq<string>, silentlyDiscardBad: bool) returns (ok: bool, pairs: seq<Pair>)
    requires forall h <- hosts :: '\n' !in Strip(h)
    ensures ok <==> silentlyDiscardBad || forall h <- hosts :: !Forbidden(Strip(h))
    ensures ok ==> FirstPairs(pairs) && forall x :: x in Wanted(hosts) <==> exists e :: e in pairs && e.left == x
  {
    pairs := [];
    for i := 0 to |hosts|
      invariant silentlyDiscardBad || forall h <- hosts[..i] :: !Forbidden(Strip(h))
      invariant FirstPairs(pairs)
      invariant forall e <- pairs :: e.left in Wanted(hosts[..i])
      invariant forall x <- Wanted(hosts[..i]) :: Pair(x, "") in pairs
    {
      var host := Strip(hosts[i]);
      assert hosts[..i + 1] == hosts[..i] + [hosts[i]];
      WantedMore(hosts[..i], hosts[i]);
      if host != "" {
        if Forbidden(host) {
          if !silentlyDiscardBad {
            assert hosts[i] in hosts;
            return false, [];
          }
        } else {
          NotForbidden(host);
          pairs := pairs + [Pair(host, "")];
        }
      }
    }
    assert hosts[..|hosts|] == hosts;
    ok := true;
  }

  lemma WantedMore(hosts: seq<string>, h: string)
    ensures Wanted(hosts + [h]) ==
      Wanted(hosts) + (if Strip(h) != "" && !Forbidden(Strip(h)) then {Strip(h)} else {})
  {
    assert forall g <- hosts + [h] :: g in hosts || g == h;
    assert h in hosts + [h] && forall g <- hosts :: g in hosts + [h];
  }

  lemma NotForbidden(s: string)
    requires !Forbidden(s) && '\n' !in s
    ensures Plain(s)
  {
  }

  /** `collect_hostlist`. */
  method CollectHostlist(hosts: seq<string>, silentlyDiscardBad: bool)
    returns (res: Result<string>, ghost parts: seq<string>)
    requires forall h <- hosts :: '\n' !in Strip(h)
    ensures res.Ok? <==> silentlyDiscardBad || forall h <- hosts :: !Forbidden(Strip(h))
    ensures res.Ok? ==> res.value == Join(parts) && Collects(parts, Wanted(hosts))
    ensures res.Ok? <==>
      silentlyDiscardBad ||
      forall h, c {:trigger h in hosts, c in h} :: h in hosts && c in h ==> c != '[' && c != ']' && c != ','
  {
    NoneForbiddenIff(hosts);
    hide Forbidden, Strip;
    var ok, leftRight := FirstLoop(hosts, silentlyDiscardBad);
    if !ok {
      return BadHostlist("forbidden character"), [];
    }
    FirstTidy(leftRight);
    ghost var r := 0;
    var looping := true;
    while looping
      invariant Tidy(leftRight, r)
      invariant forall x :: Stands(leftRight, x) <==> x in Wanted(hosts)
      invariant !looping ==> Apart(leftRight) && forall e <- leftRight :: e.left == ""
      decreases if looping then MaxRuns(leftRight) + 1 else 0
    {
      var results, again := CollectOnce(leftRight, r);
      if again {
        RoundsEnd(leftRight, results);
      }
      leftRight, looping, r := results, again, r + 1;
    }
    FinalParts(leftRight, r, Wanted(hosts));
    parts := Parts(leftRight);
    res := Ok(Join(Parts(leftRight)));
  }

  // ----- the round trip -----

  lemma {:induction false} NoDupSize(l: seq<string>, s: set<string>)
    requires NoDup(l) && forall x <- l :: x in s
    ensures |l| <= |s|
    decreases |l|
  {
    if l != [] {
      forall x | x in l[1..]
        ensures x in s - {l[0]}
      {
        var i :| 0 <= i < |l[1..]| && l[1..][i] == x;
        assert l[i + 1] == x;
      }
      assert l[0] in l;
      NoDupSize(l[1..], s - {l[0]});
    }
  }

  /** The lists of all parts, one after the other. */
  ghost function AllHosts(parts: seq<string>): seq<string>
    decreases |parts|
  {
    if parts == [] then [] else Hosts(parts[0]) + AllHosts(parts[1..])
  }

  lemma {:induction false} AllHostsIs(parts: seq<string>)
    requires forall i :: 0 <= i < |parts| ==> Means(parts[i])
    requires forall i, j :: 0 <= i < j < |parts| ==> Disjoint(parts[i], parts[j])
    ensures NoDup(AllHosts(parts))
    ensures forall x :: x in AllHosts(parts) <==> exists i :: 0 <= i < |parts| && x in Hosts(parts[i])
    decreases |parts|
  {
    if parts != [] {
      var others := parts[1..];
      AllHostsIs(others);
      forall x
        ensures x in AllHosts(parts) <==> exists i :: 0 <= i < |parts| && x in Hosts(parts[i])
      {
        if i :| 0 <= i < |parts| && x in Hosts(parts[i]) {
          assert i > 0 ==> others[i - 1] == parts[i];
        }
        if x in AllHosts(others) {
          var i :| 0 <= i < |others| && x in Hosts(others[i]);
          assert parts[i + 1] == others[i];
        }
      }
      forall i, j | 0 <= i < |Hosts(parts[0])| && 0 <= j < |AllHosts(others)|
        ensures Hosts(parts[0])[i] != AllHosts(others)[j]
      {
        var x := AllHosts(others)[j];
        assert x in AllHosts(others);
        var k :| 0 <= k < |others| && x in Hosts(others[k]);
        assert others[k] == parts[k + 1];
        NotBoth(parts[0], parts[k + 1], x);
        assert Hosts(parts[0])[i] in Hosts(parts[0]);
      }
    }
  }

  lemma {:induction false} ExpandPartsIs(parts: seq<string>)
    requires forall i :: 0 <= i < |parts| ==> Balanced(parts[i]) && Means(parts[i])
    ensures ExpandParts(parts).Ok? <==> forall i :: 0 <= i < |parts| ==> |Hosts(parts[i])| <= MAX_SIZE
    ensures ExpandParts(parts).Ok? ==> ExpandParts(parts).value == AllHosts(parts)
    decreases |parts|
  {
    if parts != [] {
      ExpandPartIs(parts[0]);
      ExpandPartsIs(parts[1..]);
      assert forall i :: 0 <= i < |parts| - 1 ==> parts[1..][i] == parts[i + 1];
      assert forall i :: 0 < i < |parts| ==> parts[i] == parts[1..][i - 1];
    }
  }

  /** Nothing at all, with the comma put behind it. */
  lemma CommaExpands(s: string)
    requires s == ","
    ensures '\n' !in s && ExpandFrom(s, 0, "") == Ok([])
  {
    var rest := s[1..];
    assert rest == "";
    var r := ExpandFrom(rest, 0, "");
    assert r == Ok([]);
    BothNothing(r);
    assert ExpandFrom(s, 0, "") == Both([], r);
  }

  lemma JoinedExpands(parts: seq<string>)
    requires forall i :: 0 <= i < |parts| ==> Balanced(parts[i]) && parts[i] != ""
    ensures '\n' !in Join(parts) + "," && ExpandFrom(Join(parts) + ",", 0, "") == ExpandParts(parts)
  {
    if parts == [] {
      assert Join(parts) + "," == ",";
      CommaExpands(Join(parts) + ",");
      assert ExpandParts(parts) == Ok([]);
    } else {
      ExpandOfJoin(parts);
    }
  }

  lemma ExpandCollected(parts: seq<string>, allowDuplicates: bool)
    requires forall i :: 0 <= i < |parts| ==> Balanced(parts[i]) && Means(parts[i]) && parts[i] != ""
    requires NoDup(AllHosts(parts))
    ensures '\n' !in Join(parts)
    ensures ExpandSpec(Join(parts), allowDuplicates).Ok? <==> ExpandParts(parts).Ok?
    ensures ExpandParts(parts).Ok? ==> ExpandSpec(Join(parts), allowDuplicates) == Ok(AllHosts(parts))
  {
    ExpandPartsIs(parts);
    DedupIs(AllHosts(parts));
    JoinedExpands(parts);
    hide ExpandPart, Means, Hosts, Scan, NoDup, Dedup, ExpandFrom, ExpandParts, Join, AllHosts;
    assert forall c <- Join(parts) :: c in Join(parts) + ",";
  }

  /** The round trip: expanding a collected expression gives every wanted host exactly once, also when
      duplicates are kept, and it fails only when some part stands for more than MAX_SIZE hosts. */
  lemma RoundTrip(parts: seq<string>, wanted: set<string>, allowDuplicates: bool)
    requires Collects(parts, wanted)
    ensures '\n' !in Join(parts)
    ensures var res := ExpandSpec(Join(parts), allowDuplicates);
      && (res.Ok? <==> forall i :: 0 <= i < |parts| ==> |Hosts(parts[i])| <= MAX_SIZE)
      && (|wanted| <= MAX_SIZE ==> res.Ok?)
      && (res.Ok? ==> NoDup(res.value) && forall x :: x in res.value <==> x in wanted)
  {
    AllHostsIs(parts);
    forall i | 0 <= i < |parts|
      ensures Balanced(parts[i])
    {
      assert Means(parts[i]);
    }
    ExpandCollected(parts, allowDuplicates);
    ExpandPartsIs(parts);
    forall i | 0 <= i < |parts|
      ensures |Hosts(parts[i])| <= |wanted|
    {
      NoDupSize(Hosts(parts[i]), wanted);
    }
  }

  // ----- pd_collect_hosts -----

  lemma {:induction false} ProductPlain(a: seq<string>, b: seq<string>)
    requires (forall x <- a :: Plain(x)) && (forall x <- b :: Plain(x))
    ensures forall x <- Product(a, b) :: Plain(x)
  {
    forall x | x in Product(a, b)
      ensures Plain(x)
    {
      ProductHas(a, b, x);
      var i, j :| 0 <= i < |a| && 0 <= j < |b| && x == a[i] + b[j];
      assert a[i] in a && b[j] in b;
      assert forall c <- x :: c in a[i] || c in b[j];
    }
  }

  lemma {:induction false} RangesPlain(ranges: seq<string>)
    requires RangesDenote(ranges).Some?
    ensures forall x <- RangesDenote(ranges).value :: AllDigits(x)
    decreases |ranges|
  {
    if ranges != [] {
      RangesPlain(ranges[1..]);
      var first := RangeDenotes(ranges[0]).value;
      forall x | x in first
        ensures AllDigits(x)
      {
        if !IsNumber(ranges[0]) {
          var i :| 0 <= i < |first| && first[i] == x;
          assert x == "" + Fmt(|SpanLow(ranges[0])|, Value(SpanLow(ranges[0])) + i);
        }
      }
    }
  }

  /** No expanded host name contains a bracket, a comma or a line break. */
  lemma {:induction false} ExpandedArePlain(s: string)
    requires Balanced(s) && Denote(s).Some?
    ensures forall x <- Denote(s).value :: Plain(x)
    decreases |s|
  {
    if PrefixLen(s) == |s| {
      ExpandPlain(s);
    } else {
      var p, rangelist, rest := Pieces(s);
      DenotePieces(p, rangelist, rest);
      ExpandedArePlain(rest);
      var us := RangesDenote(Split(rangelist)).value;
      RangesPlain(Split(rangelist));
      forall x | x in Prepend(p, us)
        ensures Plain(x)
      {
        InPrepend(p, us, x);
        var y :| y in us && x == p + y;
        assert forall c <- x :: c in p || c in y;
      }
      ProductPlain(Prepend(p, us), Denote(rest).value);
    }
  }

  lemma {:induction false} ExpandFromPlain(s: string, level: int, part: string)
    requires '\n' !in s && Scan(0, part) == level && 0 <= level <= 1
    ensures ExpandFrom(s, level, part).Ok? ==> forall x <- ExpandFrom(s, level, part).value :: Plain(x)
    decreases |s|
  {
    if s != "" {
      assert s[0] in s && forall c <- s[1..] :: c in s;
      ScanJoin(0, part, [s[0]]);
      assert Scan(0, part + [s[0]]) == Step(level, s[0]);
      if s[0] == ',' && level == 0 {
        if part != "" {
          ExpandPartIs(part);
          if Denote(part).Some? {
            ExpandedArePlain(part);
          }
        }
        ExpandFromPlain(s[1..], 0, "");
      } else if !(s[0] == '[' && level == 1) && !(s[0] == ']' && level == 0) {
        ExpandFromPlain(s[1..], Step(level, s[0]), part + [s[0]]);
      }
    }
  }

  lemma {:induction false} StripLeftChars(s: string)
    ensures forall c <- StripLeft(s) :: c in s
    decreases |s|
  {
    if s != "" && IsSpace(s[0]) {
      StripLeftChars(s[1..]);
      assert forall c <- s[1..] :: c in s;
    }
  }

  lemma {:induction false} StripRightChars(s: string)
    ensures forall c <- StripRight(s) :: c in s
    decreases |s|
  {
    if s != "" && IsSpace(s[|s| - 1]) {
      StripRightChars(s[..|s| - 1]);
      assert forall c <- s[..|s| - 1] :: c in s;
    }
  }

  lemma StripPlain(s: string)
    requires Plain(s)
    ensures !Forbidden(Strip(s)) && '\n' !in Strip(s)
  {
    StripLeftChars(s);
    StripRightChars(StripLeft(s));
    assert forall c <- Strip(s) :: c in s;
  }

  /** The hosts one of the arguments expands to, without outer white space. */
  ghost predicate InUnion(args: seq<string>, x: string)
    requires forall a <- args :: '\n' !in a
  {
    exists a, h :: a in args && ExpandSpec(a, false).Ok? && h in ExpandSpec(a, false).value && x == Strip(h) && x != ""
  }

  lemma ExpandedPlain(a: string)
    requires '\n' !in a
    ensures ExpandSpec(a, false).Ok? ==> forall h <- ExpandSpec(a, false).value :: Plain(h)
  {
    ExpandFromPlain(a + ",", 0, "");
    if ExpandFrom(a + ",", 0, "").Ok? {
      DedupIs(ExpandFrom(a + ",", 0, "").value);
    }
  }

  /** The elements of a set in some order. */
  method Listed(s: set<string>) returns (l: seq<string>)
    ensures forall x :: x in l <==> x in s
  {
    l := [];
    var todo := s;
    while todo != {}
      invariant todo <= s && forall x :: x in l <==> x in s - todo
      decreases |todo|
    {
      var x :| x in todo;
      l, todo := l + [x], todo - {x};
    }
  }

  /** The union part of `pd_collect_hosts`: the arguments are expanded and their union is collected,
      whatever the order the union is sorted into. */
  method PdCollectHosts(args: seq<string>)
    returns (res: Result<string>, ghost parts: seq<string>, ghost wanted: set<string>)
    requires args != [] && forall a <- args :: '\n' !in a
    ensures res.Ok? <==> forall a <- args :: ExpandSpec(a, false).Ok?
    ensures res.Ok? ==> res.value == Join(parts) && Collects(parts, wanted)
    ensures res.Ok? ==> forall x :: x in wanted <==> InUnion(args, x)
  {
    var union: set<string> := {};
    parts, wanted := [], {};
    for i := 0 to |args|
      invariant forall a <- args[..i] :: ExpandSpec(a, false).Ok?
      invariant forall h <- union ::
        Plain(h) && exists a :: a in args && ExpandSpec(a, false).Ok? && h in ExpandSpec(a, false).value
      invariant forall a <- args[..i] :: forall h <- ExpandSpec(a, false).value :: h in union
    {
      assert args[..i + 1] == args[..i] + [args[i]] && args[i] in args;
      var r := ExpandHostlist(args[i], false);
      if r.BadHostlist? {
        return BadHostlist(r.why), parts, wanted;
      }
      ExpandedPlain(args[i]);
      union := union + (set h <- r.value);
    }
    assert args[..|args|] == args;
    var hosts := Listed(union);
    forall h | h in hosts
      ensures !Forbidden(Strip(h)) && '\n' !in Strip(h)
    {
      StripPlain(h);
    }
    res, parts := CollectHostlist(hosts, false);
    wanted := Wanted(hosts);
    forall x
      ensures x in wanted <==> InUnion(args, x)
    {
      if x in wanted {
        var h :| h in hosts && x == Strip(h) && x != "";
        var a :| a in args && ExpandSpec(a, false).Ok? && h in ExpandSpec(a, false).value;
      }
    }
  }
}
