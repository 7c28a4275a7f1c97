/** `strip` and the test for forbidden characters. */
module HostStrip {

  predicate IsSpace(c: char) {
    c in {' ', '\t', '\n', '\r', '\U{0B}', '\U{0C}'}
  }

  function StripLeft(s: string): string
    decreases |s|
  {
    if s != "" && IsSpace(s[0]) then StripLeft(s[1..]) else s
  }

  function StripRight(s: string): string
    decreases |s|
  {
    if s != "" && IsSpace(s[|s| - 1]) then StripRight(s[..|s| - 1]) else s
  }

  /** `s.strip()`. */
  function Strip(s: string): string {
    StripRight(StripLeft(s))
  }

  predicate Forbidden(s: string) {
    '[' in s || ']' in s || ',' in s
  }

  // ----- what stripping means -----

  /** Space, tabulators, line feed, carriage return, form feed. */
  predicate White(c: char) {
    c == ' ' || 9 as char <= c <= 13 as char
  }

  predicate AllWhite(s: string) {
    forall k :: 0 <= k < |s| ==> White(s[k])
  }

  /** `t` is what is left of `s` without the white space at its ends. */
  ghost predicate Trimmed(s: string, t: string) {
    && (exists a, b :: a + t + b == s && AllWhite(a) && AllWhite(b))
    && (t != "" ==> !White(t[0]) && !White(t[|t| - 1]))
  }

  lemma SpaceIsWhite(c: char)
    ensures IsSpace(c) <==> White(c)
  {
  }

  lemma {:induction false} LeftIs(s: string) returns (a: string)
    ensures s == a + StripLeft(s) && AllWhite(a)
    ensures StripLeft(s) != "" ==> !White(StripLeft(s)[0])
    decreases |s|
  {
    a := "";
    if s != "" && IsSpace(s[0]) {
      a := LeftIs(s[1..]);
      a := [s[0]] + a;
      assert s == [s[0]] + s[1..] && StripLeft(s) == StripLeft(s[1..]);
      hide StripLeft;
    }
  }

  lemma {:induction false} RightIs(s: string) returns (b: string)
    ensures s == StripRight(s) + b && AllWhite(b)
    ensures StripRight(s) != "" ==> StripRight(s)[0] == s[0] && !White(StripRight(s)[|StripRight(s)| - 1])
    decreases |s|
  {
    b := "";
    if s != "" && IsSpace(s[|s| - 1]) {
      b := RightIs(s[..|s| - 1]);
      b := b + [s[|s| - 1]];
      assert s == s[..|s| - 1] + [s[|s| - 1]] && StripRight(s) == StripRight(s[..|s| - 1]);
      hide StripRight;
    }
  }

  lemma StripTrims(s: string)
    ensures Trimmed(s, Strip(s))
  {
    var a := LeftIs(s);
    var b := RightIs(StripLeft(s));
    assert a + Strip(s) + b == s;
  }

  /** There is only one such text. */
  lemma TrimmedIsUnique(s: string, t: string, u: string)
    requires Trimmed(s, t) && Trimmed(s, u)
    ensures t == u
  {
    var a, b :| a + t + b == s && AllWhite(a) && AllWhite(b);
    var c, d :| c + u + d == s && AllWhite(c) && AllWhite(d);
    if t == "" || u == "" {
      OnlyWhite(s, a, t, b, c, u, d);
    } else {
      StartsAlike(s, a, t, b, c, u, d);
      StartsAlike(s, c, u, d, a, t, b);
      assert t == s[|a|..|a| + |t|] && u == s[|c|..|c| + |u|];
    }
  }

  /** A character that is no white space lies in the middle. */
  lemma InTheMiddle(s: string, c: string, u: string, d: string, i: nat)
    requires s == c + u + d && AllWhite(c) && AllWhite(d) && i < |s| && !White(s[i])
    ensures |c| <= i < |c| + |u|
  {
    assert forall k :: 0 <= k < |c| ==> s[k] == c[k];
    assert forall k :: |c| + |u| <= k < |s| ==> s[k] == d[k - |c| - |u|];
  }

  lemma HasOther(s: string, a: string, t: string, b: string)
    requires s == a + t + b && t != "" && !White(t[0])
    ensures !AllWhite(s)
  {
    assert s[|a|] == t[0];
  }

  lemma OnlyWhite(s: string, a: string, t: string, b: string, c: string, u: string, d: string)
    requires a + t + b == s == c + u + d && AllWhite(a) && AllWhite(b) && AllWhite(c) && AllWhite(d)
    requires (t != "" ==> !White(t[0])) && (u != "" ==> !White(u[0])) && (t == "" || u == "")
    ensures t == u == ""
  {
    assert (u == "" ==> s == c + d) && (t == "" ==> s == a + b);
    if t != "" {
      HasOther(s, a, t, b);
    }
    if u != "" {
      HasOther(s, c, u, d);
    }
  }

  /** No text that starts and ends without white space starts later or ends earlier than another. */
  lemma StartsAlike(s: string, a: string, t: string, b: string, c: string, u: string, d: string)
    requires a + t + b == s == c + u + d && AllWhite(c) && AllWhite(d) && t != "" && u != ""
    requires !White(t[0]) && !White(t[|t| - 1])
    ensures |c| <= |a| && |d| <= |b|
  {
    assert s[|a|] == t[0] && s[|a| + |t| - 1] == t[|t| - 1];
    InTheMiddle(s, c, u, d, |a|);
    InTheMiddle(s, c, u, d, |a| + |t| - 1);
  }

  lemma TrimmedIff(s: string, t: string)
    ensures Trimmed(s, t) <==> t == Strip(s)
  {
    StripTrims(s);
    if Trimmed(s, t) {
      TrimmedIsUnique(s, t, Strip(s));
    }
  }

  /** Stripping takes no bracket and no comma away. */
  lemma ForbiddenIff(s: string)
    ensures Forbidden(Strip(s)) <==> exists c :: c in s && (c == '[' || c == ']' || c == ',')
  {
    var a := LeftIs(s);
    var b := RightIs(StripLeft(s));
    var t := Strip(s);
    assert a + t + b == s;
    forall c | c in s && (c == '[' || c == ']' || c == ',')
      ensures c in t
    {
      assert c in a || c in t || c in b;
    }
    assert forall c <- t :: c in s;
  }
}
