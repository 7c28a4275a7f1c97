/** What a line of the group file says, on values: numbers, fields and the list of members. */
module GroupLine {
  import opened Wrappers

  type byte = x: int | 0 <= x < 256

  const COLON: byte := 58
  const COMMA: byte := 44

  predicate IsSpace(c: byte) {
    c == 32 || 9 <= c <= 13
  }

  predicate IsDigit(c: byte) {
    48 <= c <= 57
  }

  // ----- numbers -----

  function SkipSpace(s: seq<byte>, at: nat): (end: nat)
    requires at <= |s|
    ensures at <= end <= |s|
    decreases |s| - at
  {
    if at < |s| && IsSpace(s[at]) then SkipSpace(s, at + 1) else at
  }

  function SkipDigits(s: seq<byte>, at: nat): (end: nat)
    requires at <= |s|
    ensures at <= end <= |s|
    decreases |s| - at
  {
    if at < |s| && IsDigit(s[at]) then SkipDigits(s, at + 1) else at
  }

  function Value(s: seq<byte>, at: nat, end: nat): nat
    requires at <= end <= |s|
    requires forall k :: at <= k < end ==> IsDigit(s[k])
  {
    if at == end then 0 else assert IsDigit(s[end - 1]); 10 * Value(s, at, end - 1) + (s[end - 1] as int - 48)
  }

  lemma {:induction false} OnlyDigits(s: seq<byte>, at: nat)
    requires at <= |s|
    ensures forall k :: at <= k < SkipDigits(s, at) ==> IsDigit(s[k])
    decreases |s| - at
  {
    if at < |s| && IsDigit(s[at]) {
      OnlyDigits(s, at + 1);
    }
  }

  /** `strtoul` in base 10 with 64-bit results: the value, and where the scan ended (at the start when
      there is no digit). */
  function StringToUnsigned(s: seq<byte>, at: nat): (r: (nat, nat))
    requires at <= |s|
    ensures at <= r.1 <= |s|
  {
    var sign := SkipSpace(s, at);
    var first := if sign < |s| && (s[sign] == 43 || s[sign] == 45) then sign + 1 else sign;
    var end := SkipDigits(s, first);
    if end == first then (0, at)
    else
      OnlyDigits(s, first);
      var v := Value(s, first, end);
      var max := 0x1_0000_0000_0000_0000;
      if v >= max then (max - 1, end)
      else if s[sign] == 45 then ((max - v) % max, end)
      else (v, end)
  }

  // ----- what a line says -----

  /** The first `c` at or behind place `at`. */
  function Find(s: seq<byte>, c: byte, at: nat): (r: Option<nat>)
    requires at <= |s|
    ensures r.Some? ==> at <= r.value < |s| && s[r.value] == c
    decreases |s| - at
  {
    if at == |s| then None else if s[at] == c then Some(at) else Find(s, c, at + 1)
  }

  /** The pieces between the commas; one piece more than there are commas. */
  function Split(s: seq<byte>): (pieces: seq<seq<byte>>)
    ensures |pieces| > 0
  {
    if s == [] then [[]]
    else
      var pieces := Split(s[..|s| - 1]);
      var c := s[|s| - 1];
      if c == COMMA then pieces + [[]]
      else pieces[|pieces| - 1 := pieces[|pieces| - 1] + [c]]
  }

  function Join(pieces: seq<seq<byte>>): seq<byte>
    requires pieces != []
  {
    if |pieces| == 1 then pieces[0]
    else Join(pieces[..|pieces| - 1]) + [COMMA] + pieces[|pieces| - 1]
  }

  lemma {:induction false} SplitPlain(piece: seq<byte>)
    requires COMMA !in piece
    ensures Split(piece) == [piece]
    decreases |piece|
  {
    if piece != [] {
      SplitPlain(piece[..|piece| - 1]);
      assert piece[..|piece| - 1] + [piece[|piece| - 1]] == piece;
    }
  }

  lemma {:induction false} SplitBehindComma(s: seq<byte>, piece: seq<byte>)
    requires COMMA !in piece
    ensures Split(s + [COMMA] + piece) == Split(s) + [piece]
    decreases |piece|
  {
    var all := s + [COMMA] + piece;
    if piece == [] {
      assert all[..|all| - 1] == s;
    } else {
      var shorter := piece[..|piece| - 1];
      SplitBehindComma(s, shorter);
      assert all[..|all| - 1] == s + [COMMA] + shorter;
      assert shorter + [piece[|piece| - 1]] == piece;
    }
  }

  /** A list of names without commas is read back from its comma-separated form. */
  lemma {:induction false} SplitOfJoin(pieces: seq<seq<byte>>)
    requires pieces != [] && forall m <- pieces :: COMMA !in m
    ensures Split(Join(pieces)) == pieces
    decreases |pieces|
  {
    var last := pieces[|pieces| - 1];
    if |pieces| == 1 {
      SplitPlain(last);
    } else {
      SplitOfJoin(pieces[..|pieces| - 1]);
      SplitBehindComma(Join(pieces[..|pieces| - 1]), last);
    }
  }

  datatype Group = Group(name: seq<byte>, passwd: seq<byte>, gid: nat, members: seq<seq<byte>>)

  predicate GoodMember(m: seq<byte>) {
    m != [] && !IsSpace(m[0])
  }

  /** Where the three separating colons are. */
  function Colons(s: seq<byte>): (r: Option<(nat, nat, nat)>)
    ensures r.Some? ==> r.value.0 < r.value.1 < r.value.2 < |s|
  {
    match Find(s, COLON, 0)
    case None => None
    case Some(a) =>
      match Find(s, COLON, a + 1)
      case None => None
      case Some(b) =>
        var end := StringToUnsigned(s, b + 1).1;
        if end == b + 1 || end == |s| || s[end] != COLON then None else Some((a, b, end))
  }

  function MemberNames(s: seq<byte>): seq<seq<byte>> {
    if s == [] then [] else Split(s)
  }

  /** The entry a line describes, if it is well formed. */
  function Entry(s: seq<byte>): Option<Group> {
    match Colons(s)
    case None => None
    case Some((a, b, e)) =>
      var members := MemberNames(s[e + 1..]);
      if forall m <- members :: GoodMember(m) then
        Some(Group(s[..a], s[a + 1..b], StringToUnsigned(s, b + 1).0 % 0x1_0000_0000, members))
      else None
  }

  lemma EntryIs(s: seq<byte>)
    ensures Entry(s).Some? ==> Colons(s).Some?
    ensures Colons(s).Some? ==>
      var (a, b, e) := Colons(s).value;
      && (Entry(s).Some? <==> forall m <- MemberNames(s[e + 1..]) :: GoodMember(m))
      && (Entry(s).Some? ==>
            Entry(s).value ==
            Group(s[..a], s[a + 1..b], StringToUnsigned(s, b + 1).0 % 0x1_0000_0000, MemberNames(s[e + 1..])))
  {
  }

  // ----- commas and pieces -----

  ghost function Commas(t: seq<byte>, a: nat, b: nat): seq<nat>
    requires a <= b <= |t|
    decreases b
  {
    if a == b then [] else Commas(t, a, b - 1) + if t[b - 1] == COMMA then [b - 1] else []
  }

  /** Where the piece behind comma `j` ends. */
  ghost function PieceEnd(commas: seq<nat>, j: nat, b: nat): nat {
    if j + 1 < |commas| then commas[j + 1] else b
  }

  ghost predicate AreCommas(t: seq<byte>, a: nat, b: nat, commas: seq<nat>)
    requires b <= |t|
  {
    && (forall j :: 0 <= j < |commas| ==> a <= commas[j] < b && t[commas[j]] == COMMA)
    && (forall i, j :: 0 <= i < j < |commas| ==> commas[i] < commas[j])
    && (forall k :: a <= k < b && t[k] == COMMA ==> k in commas)
  }

  lemma {:induction false} CommasAre(t: seq<byte>, a: nat, b: nat)
    requires a <= b <= |t|
    ensures AreCommas(t, a, b, Commas(t, a, b))
    decreases b
  {
    if a < b {
      CommasAre(t, a, b - 1);
      var before, commas := Commas(t, a, b - 1), Commas(t, a, b);
      forall k | a <= k < b && t[k] == COMMA
        ensures k in commas
      {
        assert k == b - 1 ==> commas[|commas| - 1] == k;
        assert k < b - 1 ==> k in before;
      }
    }
  }

  /** Piece `j` is the text from comma `j` to the next. */
  ghost predicate IsPiece(t: seq<byte>, b: nat, commas: seq<nat>, piece: seq<byte>, j: nat) {
    && j < |commas| && commas[j] < PieceEnd(commas, j, b) <= b <= |t|
    && piece == t[commas[j] + 1..PieceEnd(commas, j, b)]
  }

  ghost predicate ArePieces(t: seq<byte>, b: nat, commas: seq<nat>, pieces: seq<seq<byte>>) {
    && b <= |t| && |pieces| == |commas|
    && forall j :: 0 <= j < |pieces| ==> IsPiece(t, b, commas, pieces[j], j)
  }

  lemma PieceGrows(t: seq<byte>, b: nat, commas: seq<nat>, pieces: seq<seq<byte>>)
    requires b < |t| && ArePieces(t, b, commas, pieces) && |commas| > 0
    ensures ArePieces(t, b + 1, commas, pieces[|pieces| - 1 := pieces[|pieces| - 1] + [t[b]]])
  {
    var last := |pieces| - 1;
    assert IsPiece(t, b, commas, pieces[last], last);
    var grown := pieces[last] + [t[b]];
    assert IsPiece(t, b + 1, commas, grown, last);
    var now := pieces[last := grown];
    forall j | 0 <= j < |now|
      ensures IsPiece(t, b + 1, commas, now[j], j)
    {
      assert IsPiece(t, b, commas, pieces[j], j);
    }
  }

  lemma PieceOpens(t: seq<byte>, b: nat, commas: seq<nat>, pieces: seq<seq<byte>>)
    requires b < |t| && ArePieces(t, b, commas, pieces)
    ensures ArePieces(t, b + 1, commas + [b], pieces + [[]])
  {
    var c, now := commas + [b], pieces + [[]];
    assert IsPiece(t, b + 1, c, [], |commas|);
    forall j | 0 <= j < |now|
      ensures IsPiece(t, b + 1, c, now[j], j)
    {
      if j < |commas| {
        assert IsPiece(t, b, commas, pieces[j], j);
        assert PieceEnd(c, j, b + 1) == PieceEnd(commas, j, b);
      }
    }
  }

  lemma SplitStep(t: seq<byte>, e: nat, b: nat)
    requires e + 1 < b <= |t|
    ensures var pieces, c := Split(t[e + 1..b - 1]), t[b - 1];
      Split(t[e + 1..b]) == if c == COMMA then pieces + [[]] else pieces[|pieces| - 1 := pieces[|pieces| - 1] + [c]]
  {
    var s := t[e + 1..b];
    assert s[..|s| - 1] == t[e + 1..b - 1] && s[|s| - 1] == t[b - 1];
  }

  lemma FirstPiece(t: seq<byte>, e: nat)
    requires e < |t| && t[e] == COMMA
    ensures Commas(t, e, e + 1) == [e] && Split(t[e + 1..e + 1]) == [[]]
    ensures ArePieces(t, e + 1, [e], [[]])
  {
    assert t[e + 1..e + 1] == [];
    assert Commas(t, e, e) == [];
    assert IsPiece(t, e + 1, [e], [], 0);
  }

  lemma NextPiece(t: seq<byte>, e: nat, b: nat)
    requires e < b < |t| && Commas(t, e, b) != []
    requires ArePieces(t, b, Commas(t, e, b), Split(t[e + 1..b]))
    ensures ArePieces(t, b + 1, Commas(t, e, b + 1), Split(t[e + 1..b + 1])) && Commas(t, e, b + 1) != []
  {
    hide Split;
    var commas, pieces := Commas(t, e, b), Split(t[e + 1..b]);
    SplitStep(t, e, b + 1);
    assert Commas(t, e, b + 1) == commas + if t[b] == COMMA then [b] else [];
    hide Commas, ArePieces;
    if t[b] == COMMA {
      PieceOpens(t, b, commas, pieces);
    } else {
      PieceGrows(t, b, commas, pieces);
      assert commas + [] == commas;
    }
  }

  lemma {:induction false} PiecesAre(t: seq<byte>, e: nat, b: nat)
    requires e < b <= |t| && t[e] == COMMA
    ensures ArePieces(t, b, Commas(t, e, b), Split(t[e + 1..b])) && Commas(t, e, b) != []
    decreases b
  {
    hide Split, Commas, ArePieces;
    if b == e + 1 {
      FirstPiece(t, e);
    } else {
      PiecesAre(t, e, b - 1);
      NextPiece(t, e, b - 1);
    }
  }

  /** Every comma is followed by the first character of a good member. */
  ghost predicate GoodAfter(t: seq<byte>, e: nat, b: nat, n: nat)
    requires b <= n <= |t|
  {
    forall c: nat :: e <= c < b && t[c] == COMMA ==> StartsGood(t, c + 1, n)
  }

  predicate StartsGood(t: seq<byte>, c: nat, n: nat)
    requires n <= |t|
  {
    c < n && t[c] != COMMA && !IsSpace(t[c])
  }

  lemma NextComma(t: seq<byte>, e: nat, n: nat, commas: seq<nat>, j: nat)
    requires n <= |t| && AreCommas(t, e, n, commas) && j < |commas|
    requires commas[j] + 1 < n && t[commas[j] + 1] == COMMA
    ensures j + 1 < |commas| && commas[j + 1] == commas[j] + 1
  {
    var c: nat := commas[j] + 1;
    assert c in commas;
    var l :| 0 <= l < |commas| && commas[l] == c;
    assert l > j;
    assert l == j + 1 || commas[j + 1] < commas[l];
  }

  lemma GoodMemberIff(t: seq<byte>, e: nat, n: nat, commas: seq<nat>, pieces: seq<seq<byte>>, j: nat)
    requires n <= |t| && AreCommas(t, e, n, commas) && ArePieces(t, n, commas, pieces) && j < |commas|
    ensures GoodMember(pieces[j]) <==> StartsGood(t, commas[j] + 1, n)
  {
    var c := commas[j];
    var end := PieceEnd(commas, j, n);
    assert IsPiece(t, n, commas, pieces[j], j);
    assert c + 1 < end ==> pieces[j][0] == t[c + 1];
    if c + 1 < n && t[c + 1] == COMMA {
      NextComma(t, e, n, commas, j);
    } else if j + 1 < |commas| {
      assert commas[j + 1] != c + 1 && commas[j] < commas[j + 1];
    }
  }

  lemma GoodMembersIff(t: seq<byte>, e: nat, n: nat)
    requires e < n <= |t| && t[e] == COMMA
    ensures (forall m <- Split(t[e + 1..n]) :: GoodMember(m)) <==> GoodAfter(t, e, n, n)
  {
    var commas, pieces := Commas(t, e, n), Split(t[e + 1..n]);
    CommasAre(t, e, n);
    PiecesAre(t, e, n);
    GoodPiecesIff(t, e, n, commas, pieces);
  }

  lemma GoodPiecesIff(t: seq<byte>, e: nat, n: nat, commas: seq<nat>, pieces: seq<seq<byte>>)
    requires n <= |t| && AreCommas(t, e, n, commas) && ArePieces(t, n, commas, pieces)
    ensures (forall m <- pieces :: GoodMember(m)) <==> GoodAfter(t, e, n, n)
  {
    assert |pieces| == |commas|;
    forall j | 0 <= j < |pieces|
      ensures GoodMember(pieces[j]) <==> StartsGood(t, commas[j] + 1, n)
    {
      GoodMemberIff(t, e, n, commas, pieces, j);
    }
    GoodByPiece(t, e, n, commas, pieces);
  }

  lemma GoodByPiece(t: seq<byte>, e: nat, n: nat, commas: seq<nat>, pieces: seq<seq<byte>>)
    requires n <= |t| && AreCommas(t, e, n, commas) && |pieces| == |commas|
    requires forall j :: 0 <= j < |pieces| ==> (GoodMember(pieces[j]) <==> StartsGood(t, commas[j] + 1, n))
    ensures (forall m <- pieces :: GoodMember(m)) <==> GoodAfter(t, e, n, n)
  {
    GoodAtCommas(t, e, n, commas);
    hide GoodMember, StartsGood, GoodAfter, AreCommas;
    if forall m <- pieces :: GoodMember(m) {
      forall j | 0 <= j < |commas|
        ensures StartsGood(t, commas[j] + 1, n)
      {
        assert pieces[j] in pieces;
      }
    }
  }

  lemma GoodAtCommas(t: seq<byte>, e: nat, n: nat, commas: seq<nat>)
    requires n <= |t| && AreCommas(t, e, n, commas)
    ensures GoodAfter(t, e, n, n) <==> forall j :: 0 <= j < |commas| ==> StartsGood(t, commas[j] + 1, n)
  {
    hide StartsGood;
    if GoodAfter(t, e, n, n) {
      forall j | 0 <= j < |commas|
        ensures StartsGood(t, commas[j] + 1, n)
      {
        assert commas[j] in commas && t[commas[j]] == COMMA;
      }
    }
    if forall j :: 0 <= j < |commas| ==> StartsGood(t, commas[j] + 1, n) {
      forall c: nat | e <= c < n && t[c] == COMMA
        ensures StartsGood(t, c + 1, n)
      {
        assert c in commas;
      }
    }
  }
}
