/** What `expand_hostlist` makes of any string: its top-level parts, and what these mean. */
module HostParts {
  import opened Wrappers
  import opened HostText
  import opened HostExpand

  // ----- brackets and top-level parts -----

  function Turn(c: char): int {
    if c == '[' then 1 else if c == ']' then -1 else 0
  }

  /** The opening brackets minus the closing ones. */
  function Depth(s: string): int {
    if s == "" then 0 else Turn(s[0]) + Depth(s[1..])
  }

  /** Coming in at a level, brackets neither nest nor close too often, and are balanced in the end. */
  ghost predicate Brackets(level: int, s: string) {
    && (forall i :: 0 <= i <= |s| ==> 0 <= level + Depth(s[..i]) <= 1)
    && level + Depth(s) == 0
  }

  /** The place of the first comma outside of brackets, or the end. */
  function FirstCut(level: int, s: string): (n: nat)
    ensures n <= |s|
    ensures n < |s| ==> s[n] == ',' && level + Depth(s[..n]) == 0
    decreases |s|
  {
    if s == "" || (s[0] == ',' && level == 0) then 0
    else
      var n := FirstCut(level + Turn(s[0]), s[1..]);
      assert s[..n + 1][1..] == s[1..][..n];
      n + 1
  }

  lemma {:induction false} NoCutBefore(level: int, s: string, i: nat)
    requires i < FirstCut(level, s) && s[i] == ','
    ensures level + Depth(s[..i]) != 0
    decreases |s|
  {
    if i > 0 {
      NoCutBefore(level + Turn(s[0]), s[1..], i - 1);
      assert s[..i][1..] == s[1..][..i - 1];
    }
  }

  /** The parts between the commas outside of brackets. */
  function TopParts(s: string): (parts: seq<string>)
    ensures parts != []
    decreases |s|
  {
    var n := FirstCut(0, s);
    if n == |s| then [s] else [s[..n]] + TopParts(s[n + 1..])
  }

  ghost predicate PartsExpand(parts: seq<string>) {
    forall p <- parts :: p != "" ==> Denote(p).Some? && |Denote(p).value| <= MAX_SIZE
  }

  /** The meanings of the parts that are not empty, in order. */
  ghost function Meanings(parts: seq<string>): seq<string>
    requires PartsExpand(parts)
    decreases |parts|
  {
    if parts == [] then []
    else (if parts[0] == "" then [] else Denote(parts[0]).value) + Meanings(parts[1..])
  }

  // ----- depths and levels -----

  lemma {:induction false} DepthJoin(a: string, b: string)
    ensures Depth(a + b) == Depth(a) + Depth(b)
    decreases |a|
  {
    if a == "" {
      assert a + b == b;
    } else {
      assert (a + b)[1..] == a[1..] + b;
      DepthJoin(a[1..], b);
    }
  }

  /** A string with brackets in order and no comma outside of them is balanced for the part parser. */
  lemma {:induction false} ScanIsDepth(level: int, p: string)
    requires '\n' !in p && Brackets(level, p)
    requires forall i :: 0 <= i < |p| && p[i] == ',' ==> level + Depth(p[..i]) == 1
    ensures Scan(level, p) == 0
    decreases |p|
  {
    assert p[..0] == "";
    if p != "" {
      var next := level + Turn(p[0]);
      forall i | 0 <= i <= |p| - 1
        ensures level + Depth(p[..i + 1]) == next + Depth(p[1..][..i])
      {
        assert p[..i + 1][1..] == p[1..][..i];
      }
      assert next + Depth(p[1..][..0]) == next;
      assert Step(level, p[0]) == next;
      assert forall i :: 0 <= i < |p| - 1 ==> p[1..][i] == p[i + 1];
      ScanIsDepth(next, p[1..]);
    }
  }

  lemma BracketsOfFront(a: string, b: string)
    requires Brackets(0, a + b) && Depth(a) == 0
    ensures Brackets(0, a)
  {
    forall i | 0 <= i <= |a|
      ensures 0 <= Depth(a[..i]) <= 1
    {
      assert (a + b)[..i] == a[..i];
    }
  }

  lemma BracketsOfRest(a: string, b: string)
    requires Brackets(0, a + b) && Depth(a) == 0
    ensures Brackets(0, b)
  {
    forall i | 0 <= i <= |b|
      ensures 0 <= Depth(b[..i]) <= 1
    {
      assert (a + b)[..|a| + i] == a + b[..i];
      DepthJoin(a, b[..i]);
    }
    DepthJoin(a, b);
  }

  lemma CutBalanced(s: string, n: nat)
    requires '\n' !in s && n == FirstCut(0, s) && Brackets(0, s[..n])
    ensures Scan(0, s[..n]) == 0
  {
    var p := s[..n];
    forall i | 0 <= i < |p| && p[i] == ','
      ensures Depth(p[..i]) == 1
    {
      NoCutBefore(0, s, i);
      assert p[..i] == s[..i];
    }
    ScanIsDepth(0, p);
  }

  /** Cutting at the first top-level comma leaves a balanced part and a string in order. */
  lemma CutInOrder(s: string)
    requires '\n' !in s && Brackets(0, s)
    ensures Scan(0, s[..FirstCut(0, s)]) == 0
    ensures FirstCut(0, s) < |s| ==> Brackets(0, s[FirstCut(0, s) + 1..])
  {
    var n := FirstCut(0, s);
    assert s == s[..n] + s[n..] && s[..|s|] == s;
    assert Depth(s[..n]) == 0;
    BracketsOfFront(s[..n], s[n..]);
    CutBalanced(s, n);
    if n < |s| {
      BracketsOfRest(s[..n], s[n..]);
      assert s[n..] == "," + s[n + 1..] && Depth(",") == 0;
      BracketsOfRest(",", s[n + 1..]);
    }
  }

  // ----- the loop over any string -----

  /** The loop only succeeds on brackets in order. */
  lemma {:induction false} OkHasBrackets(s: string, level: int, part: string)
    requires '\n' !in s && Scan(0, part) == level && 0 <= level <= 1
    requires ExpandFrom(s, level, part).Ok?
    ensures Brackets(level, s)
    decreases |s|
  {
    if s != "" {
      var next := level + Turn(s[0]);
      assert s[0] in s && forall c <- s[1..] :: c in s;
      ScanJoin(0, part, [s[0]]);
      if s[0] == ',' && level == 0 {
        OkHasBrackets(s[1..], 0, "");
      } else {
        OkHasBrackets(s[1..], next, part + [s[0]]);
      }
      forall i | 0 <= i <= |s|
        ensures 0 <= level + Depth(s[..i]) <= 1
      {
        if i > 0 {
          assert s[..i][1..] == s[1..][..i - 1];
        }
      }
    }
  }

  lemma CommaKeepsBrackets(s: string)
    requires Brackets(0, s + ",")
    ensures Brackets(0, s)
  {
    DepthJoin(s, ",");
    forall i | 0 <= i <= |s|
      ensures (s + ",")[..i] == s[..i]
    {
    }
  }

  /** On brackets in order the loop expands the top-level parts one after the other, skipping empty ones. */
  lemma {:induction false} LoopIsParts(s: string)
    requires '\n' !in s + "," && Brackets(0, s)
    ensures ExpandFrom(s + ",", 0, "").Ok? <==> PartsExpand(TopParts(s))
    ensures PartsExpand(TopParts(s)) ==> ExpandFrom(s + ",", 0, "") == Ok(Meanings(TopParts(s)))
    decreases |s|
  {
    var n := FirstCut(0, s);
    var p := s[..n];
    CutInOrder(s);
    if n == |s| {
      assert p == s && s + "," == p + "," + "";
      ReadsOnePart(p, "");
      LastPart(s);
    } else {
      var rest := s[n + 1..];
      assert s + "," == p + "," + (rest + ",");
      assert '\n' !in rest + "," by { assert forall c <- rest :: c in s; }
      ReadsOnePart(p, rest + ",");
      LoopIsParts(rest);
      FirstPart(p, TopParts(rest));
    }
  }

  /** One balanced part and the comma behind it. */
  lemma ReadsOnePart(p: string, rest: string)
    requires '\n' !in p + "," + rest && Balanced(p)
    ensures '\n' !in rest
    ensures var r, tail := ExpandFrom(p + "," + rest, 0, ""), ExpandFrom(rest, 0, "");
      if p == "" then r == tail
      else
        && (r.Ok? <==> Denote(p).Some? && |Denote(p).value| <= MAX_SIZE && tail.Ok?)
        && (r.Ok? ==> r.value == Denote(p).value + tail.value)
  {
    ExpandReadsPart("", p, rest, 0);
    assert "" + p == p;
    ExpandPartIs(p);
  }

  lemma FirstPart(p: string, parts: seq<string>)
    ensures PartsExpand([p] + parts) <==>
      PartsExpand(parts) && (p != "" ==> Denote(p).Some? && |Denote(p).value| <= MAX_SIZE)
    ensures PartsExpand([p] + parts) ==>
      Meanings([p] + parts) == (if p == "" then [] else Denote(p).value) + Meanings(parts)
  {
    var all := [p] + parts;
    assert all[0] == p && all[1..] == parts;
    assert forall q <- all :: q == p || q in parts;
    assert forall q <- parts :: q in all;
  }

  lemma LastPart(s: string)
    requires FirstCut(0, s) == |s|
    ensures TopParts(s) == [s] == [s] + [] && PartsExpand([]) && Meanings([]) == []
    ensures PartsExpand([s]) ==> Meanings([s]) == if s == "" then [] else Denote(s).value
    ensures PartsExpand([s]) <==> s != "" ==> Denote(s).Some? && |Denote(s).value| <= MAX_SIZE
    ensures ExpandFrom("", 0, "") == Ok([])
  {
    FirstPart(s, []);
  }

  /** For every string: expansion succeeds exactly when brackets neither nest nor are unbalanced and every
      top-level part that is not empty has a meaning of at most MAX_SIZE strings; the result is then those
      meanings in order, with duplicates taken out unless they are allowed. */
  lemma ExpandSpecIs(s: string, allowDuplicates: bool)
    requires '\n' !in s
    ensures ExpandSpec(s, allowDuplicates).Ok? <==> Brackets(0, s) && PartsExpand(TopParts(s))
    ensures ExpandSpec(s, allowDuplicates).Ok? ==>
      var l := Meanings(TopParts(s));
      ExpandSpec(s, allowDuplicates).value == if allowDuplicates then l else Dedup(l)
  {
    if ExpandFrom(s + ",", 0, "").Ok? {
      OkHasBrackets(s + ",", 0, "");
      CommaKeepsBrackets(s);
    }
    if Brackets(0, s) {
      LoopIsParts(s);
    }
  }
}
