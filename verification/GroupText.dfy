/** A group printed in decimal and with its separators reads back: the numbers of `strtoul` and the fields of
    a line, against how they are written. */
module GroupText {
  import opened Wrappers
  import opened GroupLine

  // ----- characters -----

  /** The codes are those of the characters meant. */
  lemma CharactersAre(c: byte)
    ensures COLON == ':' as int && COMMA == ',' as int
    ensures IsDigit(c) <==> '0' as int <= c <= '9' as int
    ensures IsSpace(c) <==> c in {9, 10, 11, 12, 13, 32}
  {
  }

  // ----- writing a number -----

  /** The decimal digits of a number: remainders by ten, the last first. */
  function Digits(n: nat): (d: seq<byte>)
    ensures d != []
  {
    if n < 10 then [(48 + n) as byte] else Digits(n / 10) + [(48 + n % 10) as byte]
  }

  function Zeros(z: nat): seq<byte> {
    seq(z, i => 48)
  }

  /** Any number of zeros may stand in front. */
  function Numeral(z: nat, n: nat): seq<byte> {
    Zeros(z) + Digits(n)
  }

  predicate AllDigits(s: seq<byte>) {
    forall k :: 0 <= k < |s| ==> IsDigit(s[k])
  }

  lemma {:induction false} DigitsAreDigits(n: nat)
    ensures AllDigits(Digits(n))
    decreases n
  {
    if n >= 10 {
      DigitsAreDigits(n / 10);
    }
  }

  /** The same digits have the same value wherever they stand. */
  lemma {:induction false} SameValue(s: seq<byte>, at: nat, m: seq<byte>, len: nat)
    requires at + len <= |s| && len <= |m|
    requires forall k :: 0 <= k < len ==> s[at + k] == m[k] && IsDigit(m[k])
    ensures forall k :: at <= k < at + len ==> IsDigit(s[k])
    ensures Value(s, at, at + len) == Value(m, 0, len)
    decreases len
  {
    forall k | at <= k < at + len
      ensures IsDigit(s[k])
    {
      assert s[at + (k - at)] == m[k - at];
    }
    if len > 0 {
      SameValue(s, at, m, len - 1);
      assert s[at + (len - 1)] == m[len - 1];
    }
  }

  /** Zeros in front change nothing. */
  lemma {:induction false} ValueOfZeros(s: seq<byte>, z: nat, m: seq<byte>, len: nat)
    requires z + len <= |s| && len <= |m|
    requires forall k :: 0 <= k < z ==> s[k] == 48
    requires forall k :: 0 <= k < len ==> s[z + k] == m[k] && IsDigit(m[k])
    ensures forall k :: 0 <= k < z + len ==> IsDigit(s[k])
    ensures Value(s, 0, z + len) == Value(m, 0, len)
    decreases len, z
  {
    forall k | 0 <= k < z + len
      ensures IsDigit(s[k])
    {
      assert k >= z ==> s[z + (k - z)] == m[k - z];
    }
    if len > 0 {
      ValueOfZeros(s, z, m, len - 1);
      assert s[z + (len - 1)] == m[len - 1];
    } else if z > 0 {
      ValueOfZeros(s, z - 1, m, 0);
    }
  }

  /** What is written reads back. */
  lemma {:induction false} ValueOfDigits(n: nat)
    ensures AllDigits(Digits(n)) && Value(Digits(n), 0, |Digits(n)|) == n
    decreases n
  {
    DigitsAreDigits(n);
    if n < 10 {
      assert Value(Digits(n), 0, 0) == 0;
    } else {
      ValueOfDigits(n / 10);
      SameValue(Digits(n), 0, Digits(n / 10), |Digits(n / 10)|);
    }
  }

  lemma ValueOfNumeral(z: nat, n: nat)
    ensures AllDigits(Numeral(z, n)) && Value(Numeral(z, n), 0, |Numeral(z, n)|) == n
  {
    ValueOfDigits(n);
    ValueOfZeros(Numeral(z, n), z, Digits(n), |Digits(n)|);
  }

  /** And every string of digits is a numeral. */
  lemma {:induction false} EveryNumeral(s: seq<byte>) returns (z: nat, n: nat)
    requires s != [] && AllDigits(s)
    ensures s == Numeral(z, n)
    decreases |s|
  {
    var front, last := s[..|s| - 1], s[|s| - 1] as int - 48;
    assert s == front + [s[|s| - 1]];
    if front == [] {
      z, n := 0, last;
    } else {
      var m;
      z, m := EveryNumeral(front);
      if m == 0 {
        z, n := z + 1, last;
        assert Zeros(z) == Zeros(z - 1) + [48] && Digits(0) == [48];
      } else {
        n := 10 * m + last;
        assert Digits(n) == Digits(m) + [s[|s| - 1]];
      }
    }
  }

  // ----- reading it -----

  lemma {:induction false} SkipsSpace(s: seq<byte>, at: nat, end: nat)
    requires at <= end <= |s| && forall k :: at <= k < end ==> IsSpace(s[k])
    requires end < |s| ==> !IsSpace(s[end])
    ensures SkipSpace(s, at) == end
    decreases end - at
  {
    if at < end {
      SkipsSpace(s, at + 1, end);
    }
  }

  lemma {:induction false} SkipsDigits(s: seq<byte>, at: nat, end: nat)
    requires at <= end <= |s| && forall k :: at <= k < end ==> IsDigit(s[k])
    requires end < |s| ==> !IsDigit(s[end])
    ensures SkipDigits(s, at) == end
    decreases end - at
  {
    if at < end {
      SkipsDigits(s, at + 1, end);
    }
  }

  const PLUS: byte := '+' as int
  const MINUS: byte := '-' as int
  const LIMIT := 0x1_0000_0000_0000_0000

  /** The result of `strtoul` for a number, behind a minus sign or not: too large ones become the greatest, and
      a minus sign negates modulo two to the 64. */
  function Unsigned(negative: bool, n: nat): nat {
    if n >= LIMIT then LIMIT - 1 else if negative && n != 0 then LIMIT - n else n
  }

  /** White space from `at` to `sign`, at most a sign up to `first`, and then the numeral of `n`. */
  ghost predicate NumberAt(s: seq<byte>, at: nat, sign: nat, first: nat, z: nat, n: nat) {
    && at <= sign <= first && first + |Numeral(z, n)| <= |s|
    && (forall k :: at <= k < sign ==> IsSpace(s[k]))
    && (first == sign || (first == sign + 1 && s[sign] in {PLUS, MINUS}))
    && s[first..first + |Numeral(z, n)|] == Numeral(z, n)
  }

  /** A number anywhere in a text is read to its last digit. */
  lemma ReadsNumber(s: seq<byte>, at: nat, sign: nat, first: nat, z: nat, n: nat)
    requires NumberAt(s, at, sign, first, z, n)
    requires var end := first + |Numeral(z, n)|; end < |s| ==> !IsDigit(s[end])
    ensures StringToUnsigned(s, at) == (Unsigned(first > sign && s[sign] == MINUS, n), first + |Numeral(z, n)|)
  {
    var d := Numeral(z, n);
    ValueOfNumeral(z, n);
    NumeralNotEmpty(z, n);
    hide Numeral, Value;
    forall k | 0 <= k < |d|
      ensures s[first + k] == d[k]
    {
      assert s[first..first + |d|][k] == d[k];
    }
    assert s[first + 0] == d[0] && IsDigit(d[0]);
    SkipsSpace(s, at, sign);
    SameValue(s, first, d, |d|);
    SkipsDigits(s, first, first + |d|);
    hide SkipSpace, SkipDigits;
  }

  lemma NumeralNotEmpty(z: nat, n: nat)
    ensures |Numeral(z, n)| > 0
  {
  }

  /** Without a digit behind white space and a sign, nothing is read. */
  lemma ReadsNothing(s: seq<byte>, at: nat, sign: nat, first: nat)
    requires at <= sign <= first <= |s| && forall k :: at <= k < sign ==> IsSpace(s[k])
    requires if first == sign then first == |s| || (!IsSpace(s[first]) && s[first] !in {PLUS, MINUS})
             else first == sign + 1 && s[sign] in {PLUS, MINUS}
    requires first < |s| ==> !IsDigit(s[first])
    ensures StringToUnsigned(s, at) == (0, at)
  {
    SkipsSpace(s, at, sign);
    SkipsDigits(s, first, first);
    hide SkipSpace, SkipDigits;
  }

  // ----- a line -----

  lemma {:induction false} FindsFirst(s: seq<byte>, c: byte, at: nat, end: nat)
    requires at <= end < |s| && s[end] == c && forall k :: at <= k < end ==> s[k] != c
    ensures Find(s, c, at) == Some(end)
    decreases end - at
  {
    if at < end {
      FindsFirst(s, c, at + 1, end);
    }
  }

  /** A line as it is written: name, password, number, members. */
  function Line(name: seq<byte>, passwd: seq<byte>, number: seq<byte>, members: seq<byte>): seq<byte> {
    name + [COLON] + passwd + [COLON] + number + [COLON] + members
  }

  /** How the members are written. */
  function MemberText(members: seq<seq<byte>>): seq<byte> {
    if members == [] then [] else Join(members)
  }

  /** Where the fields of a line stand. */
  ghost predicate Written(s: seq<byte>, a: nat, b: nat, e: nat, name: seq<byte>, passwd: seq<byte>, number: seq<byte>,
                          text: seq<byte>) {
    && a < b < e < |s| && e == b + 1 + |number|
    && s[..a] == name && s[a + 1..b] == passwd && s[b + 1..e] == number && s[e + 1..] == text
    && s[a] == COLON && s[b] == COLON && s[e] == COLON
  }

  lemma LineIsWritten(name: seq<byte>, passwd: seq<byte>, number: seq<byte>, text: seq<byte>)
    ensures var b := |name| + 1 + |passwd|;
      Written(Line(name, passwd, number, text), |name|, b, b + 1 + |number|, name, passwd, number, text)
  {
  }

  lemma SameFrom(s: seq<byte>, lo: nat, hi: nat, m: seq<byte>, k: nat)
    requires lo <= hi <= |s| && s[lo..hi] == m && lo <= k < hi
    ensures s[k] in m && s[k] == m[k - lo]
  {
    assert s[k] == s[lo..hi][k - lo];
  }

  lemma ColonsOfLine(s: seq<byte>, a: nat, b: nat, e: nat, name: seq<byte>, passwd: seq<byte>)
    requires a < b < e < |s| && s[..a] == name && s[a + 1..b] == passwd && COLON !in name && COLON !in passwd
    requires s[a] == COLON && s[b] == COLON && s[e] == COLON
    requires b + 1 < e && StringToUnsigned(s, b + 1).1 == e
    ensures Colons(s) == Some((a, b, e))
  {
    hide StringToUnsigned;
    assert s[0..a] == s[..a];
    forall k | 0 <= k < a
      ensures s[k] != COLON
    {
      SameFrom(s, 0, a, name, k);
    }
    forall k | a + 1 <= k < b
      ensures s[k] != COLON
    {
      SameFrom(s, a + 1, b, passwd, k);
    }
    FindsFirst(s, COLON, 0, a);
    FindsFirst(s, COLON, a + 1, b);
    hide Find;
  }

  lemma MembersOf(members: seq<seq<byte>>)
    requires forall m <- members :: GoodMember(m) && COMMA !in m
    ensures MemberNames(MemberText(members)) == members
  {
    if members != [] {
      SplitOfJoin(members);
      JoinNotEmpty(members);
    }
  }

  lemma JoinNotEmpty(members: seq<seq<byte>>)
    requires members != [] && forall m <- members :: GoodMember(m)
    ensures Join(members) != []
  {
    assert members[0] in members;
  }

  /** A line written with good names is read back, field by field; the number, with white space, a sign and
      zeros in front, is cut to 32 bits. */
  lemma EntryOfLine(name: seq<byte>, passwd: seq<byte>, number: seq<byte>, members: seq<seq<byte>>,
                    sign: nat, first: nat, z: nat, n: nat)
    requires COLON !in name && COLON !in passwd
    requires NumberAt(number, 0, sign, first, z, n) && |number| == first + |Numeral(z, n)|
    requires forall m <- members :: GoodMember(m) && COMMA !in m
    ensures sign < |number|
    ensures Entry(Line(name, passwd, number, MemberText(members))) ==
      Some(Group(name, passwd, Unsigned(first > sign && number[sign] == MINUS, n) % 0x1_0000_0000, members))
  {
    hide *;
    var b := |name| + 1 + |passwd|;
    SignIsInside(number, sign, first, z, n);
    LineIsWritten(name, passwd, number, MemberText(members));
    EntryOfWritten(Line(name, passwd, number, MemberText(members)), |name|, b, b + 1 + |number|,
                   name, passwd, number, members, sign, first, z, n);
  }

  lemma SignIsInside(number: seq<byte>, sign: nat, first: nat, z: nat, n: nat)
    requires NumberAt(number, 0, sign, first, z, n) && |number| == first + |Numeral(z, n)|
    ensures sign < |number|
  {
    NumeralNotEmpty(z, n);
  }

  lemma EntryOfWritten(s: seq<byte>, a: nat, b: nat, e: nat, name: seq<byte>, passwd: seq<byte>, number: seq<byte>,
                       members: seq<seq<byte>>, sign: nat, first: nat, z: nat, n: nat)
    requires Written(s, a, b, e, name, passwd, number, MemberText(members)) && COLON !in name && COLON !in passwd
    requires NumberAt(number, 0, sign, first, z, n) && |number| == first + |Numeral(z, n)| && sign < |number|
    requires forall m <- members :: GoodMember(m) && COMMA !in m
    ensures Entry(s) ==
      Some(Group(name, passwd, Unsigned(first > sign && number[sign] == MINUS, n) % 0x1_0000_0000, members))
  {
    hide NumberAt, Numeral, MemberText, StringToUnsigned, Entry, Unsigned, GoodMember, Colons;
    NumberOfWritten(s, b + 1, number, sign, first, z, n);
    ColonsOfLine(s, a, b, e, name, passwd);
    MembersOf(members);
    EntryFrom(s, a, b, e, StringToUnsigned(s, b + 1).0, members);
  }

  lemma NumberOfWritten(s: seq<byte>, at: nat, number: seq<byte>, sign: nat, first: nat, z: nat, n: nat)
    requires NumberAt(number, 0, sign, first, z, n) && |number| == first + |Numeral(z, n)| && sign < |number|
    requires at + |number| < |s| && s[at..at + |number|] == number && s[at + |number|] == COLON
    ensures StringToUnsigned(s, at) == (Unsigned(first > sign && number[sign] == MINUS, n), at + |number|)
  {
    assert !IsDigit(COLON);
    NumberMoves(s, at, number, sign, first, z, n);
    SameFrom(s, at, at + |number|, number, at + sign);
    hide *;
    ReadsNumber(s, at, at + sign, at + first, z, n);
  }

  lemma EntryFrom(s: seq<byte>, a: nat, b: nat, e: nat, v: nat, members: seq<seq<byte>>)
    requires Colons(s) == Some((a, b, e)) && StringToUnsigned(s, b + 1).0 == v
    requires MemberNames(s[e + 1..]) == members && forall m <- members :: GoodMember(m)
    ensures Entry(s) == Some(Group(s[..a], s[a + 1..b], v % 0x1_0000_0000, members))
  {
    hide Colons, StringToUnsigned, MemberNames, GoodMember;
  }

  lemma NumberMoves(s: seq<byte>, at: nat, number: seq<byte>, sign: nat, first: nat, z: nat, n: nat)
    requires NumberAt(number, 0, sign, first, z, n) && |number| == first + |Numeral(z, n)|
    requires at + |number| <= |s| && s[at..at + |number|] == number
    ensures NumberAt(s, at, at + sign, at + first, z, n)
  {
    hide Numeral;
    forall k | at <= k < at + |number|
      ensures s[k] == number[k - at]
    {
      SameFrom(s, at, at + |number|, number, k);
    }
    assert s[at + first..at + first + |Numeral(z, n)|] == number[first..first + |Numeral(z, n)|];
  }

  /** In particular a number below two to the 32 is the number of the group. */
  lemma GroupNumberIs(name: seq<byte>, passwd: seq<byte>, n: nat, members: seq<seq<byte>>)
    requires COLON !in name && COLON !in passwd && n < 0x1_0000_0000
    requires forall m <- members :: GoodMember(m) && COMMA !in m
    ensures Entry(Line(name, passwd, Digits(n), MemberText(members))) == Some(Group(name, passwd, n, members))
  {
    DigitsAreNumber(n);
    CutIs(n);
    hide *;
    EntryOfLine(name, passwd, Digits(n), members, 0, 0, 0, n);
  }

  lemma DigitsAreNumber(n: nat)
    ensures NumberAt(Digits(n), 0, 0, 0, 0, n) && |Digits(n)| == |Numeral(0, n)|
  {
    assert Numeral(0, n) == Digits(n) && Digits(n)[0..|Digits(n)|] == Digits(n);
  }

  lemma CutIs(n: nat)
    requires n < 0x1_0000_0000
    ensures Unsigned(false, n) % 0x1_0000_0000 == n
  {
  }
}
