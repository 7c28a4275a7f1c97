/** Parsing a line of the group file inside its own buffer: `__parsegrent`. */
module GroupFile {
  import opened Wrappers
  import opened GroupLine

  const POINTER_SIZE := 8

  // ----- pointers in a byte buffer -----

  function Encode(v: nat, n: nat): (bytes: seq<byte>)
    ensures |bytes| == n
    decreases n
  {
    if n == 0 then [] else [v % 256] + Encode(v / 256, n - 1)
  }

  function Decode(bytes: seq<byte>): nat {
    if bytes == [] then 0 else bytes[0] + 256 * Decode(bytes[1..])
  }

  function Power256(n: nat): nat {
    if n == 0 then 1 else 256 * Power256(n - 1)
  }

  lemma {:induction false} DecodeEncode(v: nat, n: nat)
    requires v < Power256(n)
    ensures Decode(Encode(v, n)) == v
    decreases n
  {
    if n > 0 {
      assert Encode(v, n)[1..] == Encode(v / 256, n - 1);
      DecodeEncode(v / 256, n - 1);
    }
  }

  /** The pointer stored at a place of a buffer. */
  function PointerAt(b: seq<byte>, at: nat): nat
    requires at + POINTER_SIZE <= |b|
  {
    Decode(b[at..at + POINTER_SIZE])
  }

  /** The NUL-terminated text at a place of a buffer. */
  ghost predicate TextAt(b: seq<byte>, at: nat, text: seq<byte>) {
    && at + |text| < |b| && b[at + |text|] == 0
    && forall k :: 0 <= k < |text| ==> text[k] != 0 && b[at + k] == text[k]
  }

  /** A buffer of some length at address `base`, addressable with 64 bits. */
  ghost predicate Addressable(base: nat, length: nat) {
    base > 0 && base + length < 0x1_0000_0000_0000_0000
  }

  lemma PointerRange()
    ensures Power256(POINTER_SIZE) == 0x1_0000_0000_0000_0000
  {
    assert Power256(4) == 256 * 256 * 256 * 256;
    assert Power256(8) == 256 * 256 * 256 * 256 * Power256(4);
  }

  lemma EncodeStep(v: nat, n: nat)
    requires n > 0
    ensures Encode(v, n)[0] == v % 256 && Encode(v, n)[1..] == Encode(v / 256, n - 1)
  {
  }

  /** `*(char **)at = v` */
  method StorePointer(buf: array<byte>, at: nat, v: nat)
    requires at + POINTER_SIZE <= buf.Length && v < 0x1_0000_0000_0000_0000
    modifies buf
    ensures PointerAt(buf[..], at) == v
    ensures forall k :: 0 <= k < buf.Length && !(at <= k < at + POINTER_SIZE) ==> buf[k] == old(buf[k])
  {
    PointerRange();
    hide Power256;
    ghost var bytes := Encode(v, POINTER_SIZE);
    hide Encode;
    var rest := v;
    for i := 0 to POINTER_SIZE
      invariant Encode(rest, POINTER_SIZE - i) == bytes[i..]
      invariant forall k :: 0 <= k < i ==> buf[at + k] == bytes[k]
      invariant forall k :: 0 <= k < buf.Length && !(at <= k < at + POINTER_SIZE) ==> buf[k] == old(buf[k])
    {
      EncodeStep(rest, POINTER_SIZE - i);
      assert bytes[i..][0] == bytes[i] && bytes[i..][1..] == bytes[i + 1..];
      buf[at + i] := rest % 256;
      rest := rest / 256;
    }
    assert buf[..][at..at + POINTER_SIZE] == bytes;
    DecodeEncode(v, POINTER_SIZE);
  }

  // ----- scanning the buffer -----

  /** Up to its NUL the buffer reads like the line, from place `at` on. */
  ghost predicate ReadsLike(b: seq<byte>, s: seq<byte>, at: nat) {
    && at <= |s| < |b| && b[|s|] == 0
    && forall k :: at <= k < |s| ==> b[k] == s[k] != 0
  }

  lemma {:induction false} SameSpace(b: seq<byte>, s: seq<byte>, at: nat)
    requires ReadsLike(b, s, at)
    ensures SkipSpace(b, at) == SkipSpace(s, at)
    decreases |s| - at
  {
    if at < |s| && IsSpace(s[at]) {
      SameSpace(b, s, at + 1);
    }
  }

  lemma {:induction false} SameDigits(b: seq<byte>, s: seq<byte>, at: nat)
    requires ReadsLike(b, s, at)
    ensures SkipDigits(b, at) == SkipDigits(s, at)
    decreases |s| - at
  {
    if at < |s| && IsDigit(s[at]) {
      SameDigits(b, s, at + 1);
    }
  }

  lemma {:induction false} SameValue(b: seq<byte>, s: seq<byte>, at: nat, end: nat)
    requires ReadsLike(b, s, at) && at <= end <= |s|
    requires forall k :: at <= k < end ==> IsDigit(s[k])
    requires forall k :: at <= k < end ==> IsDigit(b[k])
    ensures Value(b, at, end) == Value(s, at, end)
    decreases end
  {
    if at < end {
      SameValue(b, s, at, end - 1);
    }
  }

  /** A number ends where the line does at the latest. */
  lemma SameNumber(b: seq<byte>, s: seq<byte>, at: nat)
    requires ReadsLike(b, s, at)
    ensures StringToUnsigned(b, at) == StringToUnsigned(s, at)
  {
    SameSpace(b, s, at);
    var sign := SkipSpace(s, at);
    var first := if sign < |s| && (s[sign] == 43 || s[sign] == 45) then sign + 1 else sign;
    SameDigits(b, s, first);
    OnlyDigits(s, first);
    OnlyDigits(b, first);
    SameValue(b, s, first, SkipDigits(s, first));
  }

  /** `strchr(line, c)` */
  method FindChar(buf: array<byte>, c: byte, at: nat, ghost s: seq<byte>) returns (r: Option<nat>)
    requires ReadsLike(buf[..], s, at) && c != 0
    ensures r == Find(s, c, at)
  {
    var k := at;
    while buf[k] != 0
      invariant at <= k <= |s|
      invariant Find(s, c, k) == Find(s, c, at)
      decreases |s| - k
    {
      if buf[k] == c {
        return Some(k);
      }
      k := k + 1;
    }
    r := None;
  }

  /** The text with the commas from `e` up to `p` overwritten. */
  ghost predicate CutUpTo(b: seq<byte>, t: seq<byte>, e: nat, p: nat) {
    && |b| == |t|
    && forall k :: 0 <= k < |t| ==> b[k] == if e <= k < p && t[k] == COMMA then 0 else t[k]
  }

  /** The loop over a member list that is not empty: counts the members, plus one, and ends each with a
      NUL. */
  method CountMembers(buf: array<byte>, e: nat, ghost n: nat) returns (ok: bool, p: nat, i: nat)
    requires e + 1 < n < buf.Length && buf[n] == 0
    requires forall k :: e <= k < n ==> buf[k] != 0
    modifies buf
    ensures ok <==> forall m <- Split(old(buf[e + 1..n])) :: GoodMember(m)
    ensures ok ==> p == n && i == 1 + |Commas(old(buf[..][e := COMMA]), e, n)|
    ensures ok ==> CutUpTo(buf[..], old(buf[..][e := COMMA]), e, n)
  {
    ghost var t := buf[..][e := COMMA];
    assert t[e + 1..n] == buf[e + 1..n];
    GoodMembersIff(t, e, n);
    hide Split, GoodMember, IsSpace;
    buf[e] := COMMA;
    p, i := e, 1;
    var more := true;
    while more
      invariant e <= p <= n && (more <==> p < n)
      invariant CutUpTo(buf[..], t, e, p)
      invariant GoodAfter(t, e, p, n)
      invariant i == 1 + |Commas(t, e, p)|
      decreases n - p
    {
      if buf[p] == COMMA {
        i := i + 1;
        buf[p] := 0;
        p := p + 1;
        if buf[p] == 0 || buf[p] == COMMA || IsSpace(buf[p]) {
          assert t[p - 1] == COMMA && !StartsGood(t, p, n);
          return false, p, i;
        }
      }
      p := p + 1;
      more := buf[p] != 0;
    }
    ok := true;
  }

  // ----- the member table -----

  /** The list as it is when the table is filled: cut at its commas, NUL at `n`, room for the table. */
  ghost predicate CutList(b: seq<byte>, t: seq<byte>, e: nat, n: nat, commas: seq<nat>) {
    && e < n < |t| == |b| && b[n] == 0
    && (forall k :: e <= k < n ==> b[k] == if t[k] == COMMA then 0 else t[k])
    && (forall k :: e <= k < n ==> t[k] != 0)
    && GoodAfter(t, e, n, n) && AreCommas(t, e, n, commas)
  }

  /** The scan from inside member `j` to its end. */
  method SkipMember(buf: array<byte>, q: nat, ghost t: seq<byte>, ghost e: nat, ghost n: nat, ghost commas: seq<nat>,
                    ghost j: nat)
    returns (p: nat)
    requires CutList(buf[..], t, e, n, commas) && j + 1 < |commas| && q == commas[j] + 1
    ensures p == commas[j + 1]
  {
    assert commas[j] < commas[j + 1] && t[commas[j]] == COMMA && t[commas[j + 1]] == COMMA;
    assert StartsGood(t, commas[j] + 1, n);
    p := q + 1;
    while buf[p] != 0
      invariant commas[j] + 1 < p <= commas[j + 1]
      decreases commas[j + 1] - p
    {
      p := p + 1;
    }
    BetweenCommas(t, e, n, commas, j, p);
  }

  lemma BetweenCommas(t: seq<byte>, e: nat, n: nat, commas: seq<nat>, j: nat, p: nat)
    requires n <= |t| && AreCommas(t, e, n, commas) && j + 1 < |commas|
    requires commas[j] < p <= commas[j + 1] && t[p] == COMMA
    ensures p == commas[j + 1]
  {
    assert p in commas;
    var l :| 0 <= l < |commas| && commas[l] == p;
    assert l <= j + 1;
    assert l > j;
  }

  ghost predicate TableHolds(b: seq<byte>, at: nat, base: nat, commas: seq<nat>, count: nat) {
    && count <= |commas| && at + count * POINTER_SIZE <= |b|
    && forall j :: 0 <= j < count ==> PointerAt(b, at + j * POINTER_SIZE) == base + commas[j] + 1
  }

  lemma CutListKept(b: seq<byte>, c: seq<byte>, t: seq<byte>, e: nat, n: nat, commas: seq<nat>)
    requires CutList(b, t, e, n, commas) && |c| == |b|
    requires forall k :: e <= k <= n ==> c[k] == b[k]
    ensures CutList(c, t, e, n, commas)
  {
  }

  /** One more pointer behind the table so far. */
  lemma TableGrows(b: seq<byte>, c: seq<byte>, at: nat, base: nat, commas: seq<nat>, count: nat)
    requires |b| == |c| && TableHolds(b, at, base, commas, count)
    requires forall k :: at <= k < at + count * POINTER_SIZE ==> b[k] == c[k]
    requires count < |commas| && at + (count + 1) * POINTER_SIZE <= |b|
    requires PointerAt(c, at + count * POINTER_SIZE) == base + commas[count] + 1
    ensures TableHolds(c, at, base, commas, count + 1)
  {
    forall j | 0 <= j < count
      ensures PointerAt(c, at + j * POINTER_SIZE) == base + commas[j] + 1
    {
      var m := at + j * POINTER_SIZE;
      assert b[m..m + POINTER_SIZE] == c[m..m + POINTER_SIZE];
      assert PointerAt(b, at + j * POINTER_SIZE) == base + commas[j] + 1;
    }
  }

  /** The loop that fills the table for a list that is not empty. */
  method FillTable(buf: array<byte>, base: nat, e: nat, at: nat, count: nat, ghost t: seq<byte>, ghost n: nat,
                   ghost commas: seq<nat>)
    requires CutList(buf[..], t, e, n, commas) && count == |commas| > 0 && commas[0] == e
    requires n < at && at + count * POINTER_SIZE <= buf.Length && Addressable(base, buf.Length)
    modifies buf
    ensures TableHolds(buf[..], at, base, commas, count)
    ensures forall k :: 0 <= k < buf.Length && !(at <= k < at + count * POINTER_SIZE) ==> buf[k] == old(buf[k])
  {
    assert forall j :: 0 <= j < |commas| ==> commas[j] < n;
    assert TableHolds(buf[..], at, base, commas, 0);
    hide CutList, TableHolds, PointerAt;
    var p, m, left := e, at, count;
    ghost var j := 0;
    while left > 0
      invariant left + j == count && m == at + j * POINTER_SIZE
      invariant j < count ==> p == commas[j]
      invariant CutList(buf[..], t, e, n, commas)
      invariant TableHolds(buf[..], at, base, commas, j)
      invariant forall k :: 0 <= k < buf.Length && !(at <= k < at + count * POINTER_SIZE) ==> buf[k] == old(buf[k])
    {
      p := p + 1;
      ghost var was := buf[..];
      StorePointer(buf, m, base + p);
      CutListKept(was, buf[..], t, e, n, commas);
      TableGrows(was, buf[..], at, base, commas, j);
      m, left := m + POINTER_SIZE, left - 1;
      if left > 0 {
        p := SkipMember(buf, p, t, e, n, commas, j);
      }
      j := j + 1;
    }
  }

  lemma TableKept(b: seq<byte>, c: seq<byte>, at: nat, base: nat, commas: seq<nat>, count: nat)
    requires |b| == |c| && TableHolds(b, at, base, commas, count)
    requires forall k :: at <= k < at + count * POINTER_SIZE ==> b[k] == c[k]
    ensures TableHolds(c, at, base, commas, count)
  {
    forall j | 0 <= j < count
      ensures PointerAt(c, at + j * POINTER_SIZE) == base + commas[j] + 1
    {
      var m := at + j * POINTER_SIZE;
      assert b[m..m + POINTER_SIZE] == c[m..m + POINTER_SIZE];
      assert PointerAt(b, at + j * POINTER_SIZE) == base + commas[j] + 1;
    }
  }

  /** Entry `j` of the table points at the text of a member, all of it in front of the table. */
  ghost predicate MemberAt(b: seq<byte>, base: nat, table: nat, j: nat, member: seq<byte>)
    requires base <= table && table - base + (j + 1) * POINTER_SIZE <= |b|
  {
    var q := PointerAt(b, table - base + j * POINTER_SIZE) - base;
    0 <= q && q + |member| < table - base && TextAt(b, q, member)
  }

  /** A table at address `table`: aligned, inside the buffer, one pointer a member in order, NULL last. */
  ghost predicate IsTable(b: seq<byte>, base: nat, table: nat, members: seq<seq<byte>>) {
    && base <= table && table % POINTER_SIZE == 0
    && table - base + (|members| + 1) * POINTER_SIZE <= |b|
    && (forall j :: 0 <= j < |members| ==> MemberAt(b, base, table, j, members[j]))
    && PointerAt(b, table - base + |members| * POINTER_SIZE) == 0
  }

  lemma EmptyTable(b: seq<byte>, base: nat, table: nat)
    requires base <= table && table % POINTER_SIZE == 0 && table - base + POINTER_SIZE <= |b|
    requires PointerAt(b, table - base) == 0
    ensures IsTable(b, base, table, [])
  {
  }

  /** The first multiple of the pointer size behind `p`. */
  function TableAddress(base: nat, p: nat): (table: nat)
    ensures table % POINTER_SIZE == 0 && base + p < table <= base + p + POINTER_SIZE
  {
    (base + p + POINTER_SIZE) / POINTER_SIZE * POINTER_SIZE
  }

  /** The last character in front of the table: the colon when there are no members, else the NUL. */
  function TextEnd(s: seq<byte>, members: seq<seq<byte>>): int {
    if members == [] then |s| - 1 else |s|
  }

  predicate Fits(s: seq<byte>, members: seq<seq<byte>>, base: nat, length: nat)
    requires s != []
  {
    TableAddress(base, TextEnd(s, members)) + (|members| + 1) * POINTER_SIZE <= base + length
  }

  lemma MembersStand(b: seq<byte>, t: seq<byte>, e: nat, n: nat, base: nat, table: nat)
    requires e < n < |t| && t[e] == COMMA
    requires CutList(b, t, e, n, Commas(t, e, n))
    requires base + n < table && TableHolds(b, table - base, base, Commas(t, e, n), |Commas(t, e, n)|)
    requires table % POINTER_SIZE == 0 && table - base + (|Commas(t, e, n)| + 1) * POINTER_SIZE <= |b|
    requires PointerAt(b, table - base + |Commas(t, e, n)| * POINTER_SIZE) == 0
    ensures IsTable(b, base, table, Split(t[e + 1..n]))
  {
    var commas, pieces := Commas(t, e, n), Split(t[e + 1..n]);
    PiecesAre(t, e, n);
    forall j | 0 <= j < |pieces|
      ensures MemberAt(b, base, table, j, pieces[j])
    {
      assert IsPiece(t, n, commas, pieces[j], j);
      PieceStands(b, t, e, n, commas, pieces[j], j);
      assert PointerAt(b, table - base + j * POINTER_SIZE) == base + commas[j] + 1;
    }
  }

  lemma PieceStands(b: seq<byte>, t: seq<byte>, e: nat, n: nat, commas: seq<nat>, piece: seq<byte>, j: nat)
    requires CutList(b, t, e, n, commas) && IsPiece(t, n, commas, piece, j)
    ensures TextAt(b, commas[j] + 1, piece) && commas[j] + 1 + |piece| <= n
  {
    var end := PieceEnd(commas, j, n);
    assert end < n ==> t[end] == COMMA;
    forall k | commas[j] < k < end
      ensures t[k] != COMMA
    {
      if t[k] == COMMA {
        NothingBetween(t, e, n, commas, j, k);
      }
    }
  }

  lemma NothingBetween(t: seq<byte>, e: nat, n: nat, commas: seq<nat>, j: nat, k: nat)
    requires n <= |t| && AreCommas(t, e, n, commas) && j < |commas|
    requires commas[j] < k < n && t[k] == COMMA
    ensures j + 1 < |commas| && commas[j + 1] <= k
  {
    assert k in commas;
    var l :| 0 <= l < |commas| && commas[l] == k;
    assert l > j;
  }

  /** With the NULL stored behind the pointers the table is complete. */
  lemma TableDone(was: seq<byte>, filled: seq<byte>, b: seq<byte>, t: seq<byte>, e: nat, n: nat, base: nat, table: nat)
    requires e < n < |t| && t[e] == COMMA && base + n < table && table % POINTER_SIZE == 0
    requires CutList(was, t, e, n, Commas(t, e, n)) && |was| == |filled| == |b|
    requires table - base + (|Commas(t, e, n)| + 1) * POINTER_SIZE <= |b|
    requires TableHolds(filled, table - base, base, Commas(t, e, n), |Commas(t, e, n)|)
    requires forall k :: 0 <= k < table - base ==> was[k] == filled[k]
    requires forall k :: 0 <= k < table - base + |Commas(t, e, n)| * POINTER_SIZE ==> filled[k] == b[k]
    requires PointerAt(b, table - base + |Commas(t, e, n)| * POINTER_SIZE) == 0
    ensures IsTable(b, base, table, Split(t[e + 1..n]))
  {
    hide Split, IsTable, PointerAt, Commas;
    var commas := Commas(t, e, n);
    TableKept(filled, b, table - base, base, commas, |commas|);
    CutListKept(was, b, t, e, n, commas);
    MembersStand(b, t, e, n, base, table);
  }

  lemma SplitCount(t: seq<byte>, e: nat, n: nat)
    requires e < n <= |t| && t[e] == COMMA
    ensures |Split(t[e + 1..n])| == |Commas(t, e, n)|
    ensures (forall m <- Split(t[e + 1..n]) :: GoodMember(m)) <==> GoodAfter(t, e, n, n)
  {
    PiecesAre(t, e, n);
    GoodMembersIff(t, e, n);
  }

  lemma FirstComma(t: seq<byte>, e: nat, n: nat)
    requires e < n <= |t| && t[e] == COMMA
    ensures |Commas(t, e, n)| > 0 && Commas(t, e, n)[0] == e
  {
    CommasAre(t, e, n);
    PiecesAre(t, e, n);
    var commas := Commas(t, e, n);
    assert e in commas;
    var l :| 0 <= l < |commas| && commas[l] == e;
    assert e <= commas[0];
    assert l == 0;
  }

  lemma ListIsCut(b: seq<byte>, t: seq<byte>, e: nat, n: nat)
    requires e < n < |t| && t[e] == COMMA && CutUpTo(b, t, e, n) && b[n] == 0
    requires (forall k :: e <= k < n ==> t[k] != 0) && GoodAfter(t, e, n, n)
    ensures CutList(b, t, e, n, Commas(t, e, n))
    ensures forall k :: 0 <= k < e ==> b[k] == t[k]
  {
    CommasAre(t, e, n);
  }

  /** The name and the password text stay in front of the group number. */
  lemma FieldsStand(b: seq<byte>, s: seq<byte>)
    requires Colons(s).Some? && |s| < |b| && 0 !in s
    requires var (c, d, e) := Colons(s).value;
      b[c] == 0 && b[d] == 0 && forall k :: 0 <= k < e && k != c && k != d ==> b[k] == s[k]
    ensures TextAt(b, 0, s[..Colons(s).value.0])
    ensures TextAt(b, Colons(s).value.0 + 1, s[Colons(s).value.0 + 1..Colons(s).value.1])
  {
  }

  // ----- the parser -----

  /** `struct group`; the fields that point somewhere hold addresses. */
  class GroupEntry {
    var name: nat
    var passwd: nat
    var gid: nat
    var members: nat

    /** The entry in the fields is the one the line describes. */
    ghost predicate Holds(b: seq<byte>, base: nat, g: Group)
      reads this
    {
      && base <= name && TextAt(b, name - base, g.name) && name + |g.name| < members
      && base <= passwd && TextAt(b, passwd - base, g.passwd) && passwd + |g.passwd| < members
      && gid == g.gid
      && IsTable(b, base, members, g.members)
    }

    /** The fields up to the group number. */
    method CutFields(buf: array<byte>, base: nat, ghost s: seq<byte>) returns (ok: bool, e: nat)
      requires |s| < buf.Length && s == buf[..|s|] && buf[|s|] == 0 && 0 !in s
      modifies buf, this`name, this`passwd, this`gid
      ensures ok <==> Colons(s).Some?
      ensures ok ==> e == Colons(s).value.2 && name == base && passwd == base + Colons(s).value.0 + 1
      ensures ok ==> gid == StringToUnsigned(s, Colons(s).value.1 + 1).0 % 0x1_0000_0000
      ensures ok ==> buf[..] == old(buf[..])[Colons(s).value.0 := 0][Colons(s).value.1 := 0]
    {
      hide SkipSpace, SkipDigits, Value, TextAt, StringToUnsigned, Find;
      name := base;
      var a := FindChar(buf, COLON, 0, s);
      if a.None? {
        return false, 0;
      }
      buf[a.value] := 0;
      passwd := base + a.value + 1;
      var b := FindChar(buf, COLON, a.value + 1, s);
      if b.None? {
        return false, 0;
      }
      buf[b.value] := 0;
      SameNumber(buf[..], s, b.value + 1);
      var (number, end) := StringToUnsigned(buf[..], b.value + 1);
      gid := number % 0x1_0000_0000;
      if end == b.value + 1 || buf[end] != COLON {
        return false, 0;
      }
      return true, end;
    }

    /** The member list behind the colon at `e`, cut and counted. */
    method CutMembers(buf: array<byte>, e: nat, ghost s: seq<byte>) returns (good: bool, p: nat, i: nat)
      requires e < |s| < buf.Length && buf[|s|] == 0 && 0 !in s
      requires forall k :: e <= k < |s| ==> buf[k] == s[k]
      modifies buf
      ensures good <==> forall m <- MemberNames(s[e + 1..]) :: GoodMember(m)
      ensures good ==> p == TextEnd(s, MemberNames(s[e + 1..])) && i == |MemberNames(s[e + 1..])| + 1
      ensures good ==> forall k :: 0 <= k < e ==> buf[k] == old(buf[k])
      ensures var t := old(buf[..])[e := COMMA];
        good && e + 1 < |s| ==> CutList(buf[..], t, e, |s|, Commas(t, e, |s|)) && t[e + 1..|s|] == s[e + 1..]
    {
      hide Split, Commas, GoodMember, CutList, GoodAfter;
      p, i := e, 1;
      good := true;
      ghost var t := buf[..][e := COMMA];
      assert t[e + 1..|s|] == s[e + 1..];
      if buf[e + 1] != 0 {
        SplitCount(t, e, |s|);
        assert buf[e + 1..|s|] == s[e + 1..];
        good, p, i := CountMembers(buf, e, |s|);
        if good {
          ListIsCut(buf[..], t, e, |s|);
        }
      }
    }

    /** The table for a list that has been cut and counted. */
    method PlaceTable(buf: array<byte>, base: nat, e: nat, table: nat, count: nat, ghost t: seq<byte>, ghost n: nat)
      requires e < n < |t| && t[e] == COMMA && Addressable(base, buf.Length) && base + n < table
      requires CutList(buf[..], t, e, n, Commas(t, e, n)) && count == |Commas(t, e, n)|
      requires table % POINTER_SIZE == 0 && table - base + (count + 1) * POINTER_SIZE <= buf.Length
      modifies buf
      ensures IsTable(buf[..], base, table, Split(t[e + 1..n]))
      ensures forall k :: 0 <= k < table - base ==> buf[k] == old(buf[k])
    {
      hide Split, Commas, CutList, TableHolds, IsTable, PointerAt;
      ghost var commas := Commas(t, e, n);
      FirstComma(t, e, n);
      ghost var was := buf[..];
      FillTable(buf, base, e, table - base, count, t, n, commas);
      ghost var filled := buf[..];
      StorePointer(buf, table - base + count * POINTER_SIZE, 0);
      TableDone(was, filled, buf[..], t, e, n, base, table);
    }

    /** Everything behind the group number. */
    method PlaceMembers(buf: array<byte>, base: nat, e: nat, endOfBuffer: nat, ghost s: seq<byte>) returns (ok: bool)
      requires e < |s| < buf.Length && buf[|s|] == 0 && 0 !in s
      requires forall k :: e <= k < |s| ==> buf[k] == s[k]
      requires Addressable(base, buf.Length) && endOfBuffer == base + buf.Length
      modifies buf, this`members
      ensures ok <==>
        (forall m <- MemberNames(s[e + 1..]) :: GoodMember(m)) && Fits(s, MemberNames(s[e + 1..]), base, buf.Length)
      ensures ok ==> IsTable(buf[..], base, members, MemberNames(s[e + 1..])) && base + e < members
      ensures ok ==> forall k :: 0 <= k < e ==> buf[k] == old(buf[k])
    {
      hide Split, GoodMember, CutList, Commas, IsTable, PointerAt;
      ghost var names, t := MemberNames(s[e + 1..]), buf[..][e := COMMA];
      var good, p, i := CutMembers(buf, e, s);
      if !good {
        return false;
      }
      assert (names == []) == (e + 1 == |s|);
      var table := TableAddress(base, p);
      if table + i * POINTER_SIZE > endOfBuffer {
        return false;
      }
      members := table;
      if i > 1 {
        SplitCount(t, e, |s|);
        PlaceTable(buf, base, e, table, i - 1, t, |s|);
      } else {
        StorePointer(buf, table - base, 0);
        EmptyTable(buf[..], base, table);
      }
      ok := true;
    }

    /** `__parsegrent`: on entry the name field holds the address of the buffer's end. */
    method Parse(buf: array<byte>, base: nat, ghost s: seq<byte>) returns (ok: bool)
      requires |s| < buf.Length && s == buf[..|s|] && buf[|s|] == 0 && 0 !in s
      requires Addressable(base, buf.Length) && name == base + buf.Length
      modifies buf, this
      ensures ok <==> Entry(s).Some? && Fits(s, Entry(s).value.members, base, buf.Length)
      ensures ok ==> Holds(buf[..], base, Entry(s).value)
    {
      hide StringToUnsigned, Find, Colons, Entry, Split, GoodMember, TextAt, IsTable, Fits, Addressable;
      var endOfBuffer := name;
      EntryIs(s);
      var cut, e := CutFields(buf, base, s);
      ok := false;
      if cut {
        ok := PlaceMembers(buf, base, e, endOfBuffer, s);
        if ok {
          FieldsStand(buf[..], s);
        }
      }
    }
  }
}
