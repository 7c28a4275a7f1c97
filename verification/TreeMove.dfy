/** Moving a subtree: the effect of `_move_account` and `_move_parent` on the table. */
module TreeMove {
  import opened Wrappers
  import opened NestedSet
  import opened TreeInsert

  // ----- the statements of _move_account, row by row -----

  /** Mark the subtree with `deleted + 2` and give it its new numbers. */
  function MarkRow(r: Row, lft: int, rgt: int, diff: int): Row {
    if lft <= r.lft <= rgt then r.(deleted := r.deleted + 2, lft := r.lft + diff, rgt := r.rgt + diff) else r
  }

  /** Open a gap behind `after` among the rows that are not marked. */
  function OpenRow(r: Row, after: int, width: int): Row {
    if r.deleted < 2 then ShiftRow(r, after, width) else r
  }

  /** Close the gap the subtree left behind. */
  function CloseRow(r: Row, lft: int, rgt: int, diff: int, width: int): Row {
    var right := r.(rgt := if (diff < 0 && r.rgt > rgt && r.deleted < 2) || (diff > 0 && r.rgt > lft)
                           then r.rgt - width else r.rgt);
    right.(lft := if (diff < 0 && r.lft > rgt && r.deleted < 2) || (diff > 0 && r.lft > lft)
                  then r.lft - width else r.lft)
  }

  function UnmarkRow(r: Row): Row {
    if r.deleted > 1 then r.(deleted := r.deleted - 2) else r
  }

  /** The shifting statements applied to one row, in the order they are sent. */
  function PassRow(r: Row, lft: int, rgt: int, diff: int, width: int, after: int): Row {
    UnmarkRow(CloseRow(OpenRow(MarkRow(r, lft, rgt, diff), after, width), lft, rgt, diff, width))
  }

  /** The row passed through when the subtree of row `from` goes behind position `after`. */
  function PassFrom(r: Row, from: Row, after: int): Row {
    PassRow(r, from.lft, from.rgt, after + 1 - from.lft, from.rgt - from.lft + 1, after)
  }

  /** All statements: every row is passed through, and row `k` gets its new link. */
  function Passed(t: Table, k: Key, p: Key): Table
    requires k in t && p in t
  {
    map i <- t ::
      var r := PassFrom(t[i], t[k], t[p].lft);
      if i == k then r.(parentAcct := p.acct) else r
  }

  /** The early returns of `_move_account`: the parent is unknown, or the subtree stands right behind its `lft`. */
  predicate Skips(t: Table, k: Key, cluster: string, parent: string)
    requires k in t
  {
    var p := AcctKey(cluster, parent);
    p !in t || t[p].lft + 1 == t[k].lft
  }

  /** `_move_account` for a row and a cluster to look the parent up in. */
  function MoveAccountIn(t: Table, k: Key, cluster: string, parent: string): (m: Table)
    requires k in t
    ensures m.Keys == t.Keys
  {
    if Skips(t, k, cluster, parent) then t else Passed(t, k, AcctKey(cluster, parent))
  }

  /** `_move_account` within the row's own cluster. */
  function MoveAccount(t: Table, k: Key, parent: string): Table
    requires k in t
  {
    MoveAccountIn(t, k, k.cluster, parent)
  }

  // ----- what they amount to -----

  /** Where position `x` goes when the positions lft..rgt are cut out and put back
      right behind position `after`, which is not one of them. */
  function MovePos(x: int, lft: int, rgt: int, after: int): int {
    var width := rgt - lft + 1;
    if lft <= x <= rgt then
      if after < lft then x - lft + after + 1 else x - rgt + after
    else if after < x < lft then
      x + width
    else if rgt < x <= after then
      x - width
    else
      x
  }

  lemma MovePosOrder(x: int, y: int, lft: int, rgt: int, after: int)
    requires lft <= rgt && !(lft <= after <= rgt)
    requires lft <= x <= rgt <==> lft <= y <= rgt
    ensures x < y <==> MovePos(x, lft, rgt, after) < MovePos(y, lft, rgt, after)
  {
  }

  function MovedRow(r: Row, from: Row, after: int): Row {
    r.(lft := MovePos(r.lft, from.lft, from.rgt, after), rgt := MovePos(r.rgt, from.lft, from.rgt, after))
  }

  /** The subtree of `k` becomes the first child of account `p`; only the link of `k` changes. */
  function Moved(t: Table, k: Key, p: Key): Table
    requires k in t && p in t
  {
    map i <- t ::
      var r := MovedRow(t[i], t[k], t[p].lft);
      if i == k then r.(parentAcct := p.acct) else r
  }

  // ----- what a move does to the intervals -----

  lemma InBlock(t: Table, k: Key, i: Key)
    requires Laminar(t) && Ranged(t, 2 * |t|) && k in t && i in t
    ensures Between(t, i, k) <==> t[k].lft <= t[i].rgt <= t[k].rgt && t[k].lft <= t[i].lft
    ensures Between(t, i, k) <==> i == k || Inside(t, i, k)
    ensures !Between(t, i, k) ==> !(t[k].lft <= t[i].rgt <= t[k].rgt)
  {
    if i != k {
      assert Apart(t, i, k);
    }
  }

  /** Two rows that both move or both stay keep their mutual order and nesting. */
  lemma MovedTogether(t: Table, k: Key, p: Key, i: Key, j: Key)
    requires Numbered(t) && k in t && p in t && !Between(t, p, k)
    requires i in t && j in t && i != j && Between(t, i, k) == Between(t, j, k)
    ensures var m := Moved(t, k, p);
      && Apart(m, i, j)
      && (Inside(m, i, j) <==> Inside(t, i, j))
      && (m[i].lft < m[j].lft <==> t[i].lft < t[j].lft)
  {
    InBlock(t, k, i);
    InBlock(t, k, j);
    assert Apart(t, i, j);
    var l, r, a := t[k].lft, t[k].rgt, t[p].lft;
    MovePosOrder(t[i].lft, t[j].lft, l, r, a);
    MovePosOrder(t[i].rgt, t[j].rgt, l, r, a);
    MovePosOrder(t[i].rgt, t[j].lft, l, r, a);
    MovePosOrder(t[j].rgt, t[i].lft, l, r, a);
    MovePosOrder(t[j].lft, t[i].lft, l, r, a);
    MovePosOrder(t[j].rgt, t[i].rgt, l, r, a);
  }

  /** A moved row lies inside a row that stays exactly when the latter is the new parent or around it. */
  lemma MovedAcross(t: Table, k: Key, p: Key, i: Key, j: Key)
    requires Numbered(t) && k in t && p in t && !Between(t, p, k)
    requires i in t && j in t && Between(t, i, k) && !Between(t, j, k)
    ensures var m := Moved(t, k, p);
      && Apart(m, i, j)
      && (Inside(m, i, j) <==> j == p || Inside(t, p, j))
      && !Inside(m, j, i)
  {
    InBlock(t, k, i);
    InBlock(t, k, j);
    assert Apart(t, j, k);
    if j != p {
      assert Apart(t, j, p);
    }
  }

  lemma MovedPair(t: Table, k: Key, p: Key, i: Key, j: Key)
    requires Numbered(t) && k in t && p in t && !Between(t, p, k)
    requires i in t && j in t && i != j
    ensures var m := Moved(t, k, p);
      && Apart(m, i, j)
      && (Inside(m, i, j) <==>
          if Between(t, i, k) == Between(t, j, k) then Inside(t, i, j)
          else Between(t, i, k) && (j == p || Inside(t, p, j)))
  {
    if Between(t, i, k) == Between(t, j, k) {
      MovedTogether(t, k, p, i, j);
    } else if Between(t, i, k) {
      MovedAcross(t, k, p, i, j);
    } else {
      MovedAcross(t, k, p, j, i);
    }
  }

  /** A user only moves within its own account. */
  ghost predicate CanMove(t: Table, k: Key, p: Key) {
    && WellFormed(t) && k in t && p in t
    && (k.user == "" || p.acct == k.acct) && p == AcctKey(k.cluster, p.acct)
    && !Between(t, p, k)
  }

  lemma MovedNumbered(t: Table, k: Key, p: Key)
    requires Numbered(t) && k in t && p in t && !Between(t, p, k)
    ensures Numbered(Moved(t, k, p))
  {
    var m := Moved(t, k, p);
    assert m.Keys == t.Keys;
    assert |m| == |m.Keys| == |t.Keys| == |t|;
    forall i | i in m
      ensures 1 <= m[i].lft < m[i].rgt <= 2 * |m|
    {
      InBlock(t, k, i);
      InBlock(t, k, p);
    }
    forall i, j | i in m && j in m && i != j
      ensures Apart(m, i, j)
    {
      MovedPair(t, k, p, i, j);
    }
  }

  lemma MovedLinkedSelf(t: Table, k: Key, p: Key)
    requires CanMove(t, k, p)
    ensures LinkedRow(Moved(t, k, p), k)
  {
    var m := Moved(t, k, p);
    assert ParentKey(k, m[k]) == p;
    assert p.acct != "";
    MovedPair(t, k, p, k, p);
    forall q | q in m && Inside(m, k, q)
      ensures q == p || Inside(m, p, q)
    {
      MovedPair(t, k, p, k, q);
      if Between(t, q, k) {
        InBlock(t, k, q);
      } else if q != p {
        MovedPair(t, k, p, p, q);
      }
    }
  }

  lemma MovedLinkedRoot(t: Table, k: Key, p: Key, c: Key)
    requires CanMove(t, k, p) && c in t && c != k && IsRoot(c, t[c])
    ensures LinkedRow(Moved(t, k, p), c)
  {
    var m := Moved(t, k, p);
    assert LinkedRow(t, c);
    InBlock(t, k, c);
    forall q | q in m
      ensures !Inside(m, c, q)
    {
      if q != c {
        MovedPair(t, k, p, c, q);
      }
    }
  }

  lemma MovedLinkedOther(t: Table, k: Key, p: Key, c: Key)
    requires CanMove(t, k, p) && c in t && c != k && !IsRoot(c, t[c])
    ensures LinkedRow(Moved(t, k, p), c)
  {
    var m := Moved(t, k, p);
    assert LinkedRow(t, c);
    var pc := ParentKey(c, t[c]);
    InBlock(t, k, c);
    InBlock(t, k, pc);
    assert Between(t, c, k) == Between(t, pc, k) by {
      if Inside(t, c, k) {
        assert k == pc || Inside(t, pc, k);
      }
    }
    MovedPair(t, k, p, c, pc);
    forall q | q in m && Inside(m, c, q)
      ensures q == pc || Inside(m, pc, q)
    {
      MovedPair(t, k, p, c, q);
      if q != pc {
        MovedPair(t, k, p, pc, q);
      }
    }
  }

  /** A move behind an account outside the moved subtree keeps the table well-formed. */
  lemma MovedWellFormed(t: Table, k: Key, p: Key)
    requires CanMove(t, k, p)
    ensures WellFormed(Moved(t, k, p))
  {
    var m := Moved(t, k, p);
    MovedNumbered(t, k, p);
    forall c | c in m
      ensures LinkedRow(m, c)
    {
      if c == k {
        MovedLinkedSelf(t, k, p);
      } else if IsRoot(c, t[c]) {
        MovedLinkedRoot(t, k, p, c);
      } else {
        MovedLinkedOther(t, k, p, c);
      }
    }
  }

  // ----- _move_account -----

  lemma PassRowMoves(r: Row, from: Row, after: int)
    requires from.lft <= from.rgt && !(from.lft <= after <= from.rgt) && 0 <= r.deleted <= 1
    requires from.lft <= r.lft <= from.rgt <==> from.lft <= r.rgt <= from.rgt
    requires after + 1 != from.lft
    ensures PassFrom(r, from, after) == MovedRow(r, from, after)
  {
  }

  lemma PassRowAt(t: Table, k: Key, p: Key, i: Key)
    requires Numbered(t) && Flagged(t) && k in t && p in t && !Between(t, p, k) && t[p].lft + 1 != t[k].lft && i in t
    ensures PassFrom(t[i], t[k], t[p].lft) == MovedRow(t[i], t[k], t[p].lft)
  {
    InBlock(t, k, p);
    InBlock(t, k, i);
    PassRowMoves(t[i], t[k], t[p].lft);
  }

  /** The statements cut the subtree out and put it back right behind the new parent's `lft`. */
  lemma PassedIsMoved(t: Table, k: Key, p: Key)
    requires Numbered(t) && Flagged(t) && k in t && p in t && !Between(t, p, k) && t[p].lft + 1 != t[k].lft
    ensures Passed(t, k, p) == Moved(t, k, p)
  {
    hide PassFrom, MovedRow;
    forall i | i in t
      ensures PassFrom(t[i], t[k], t[p].lft) == MovedRow(t[i], t[k], t[p].lft)
    {
      PassRowAt(t, k, p, i);
    }
  }

  /** The table with other parents for some rows and everything else as it was. */
  function Relinked(t: Table, parents: map<Key, string>): Table {
    map i <- t :: if i in parents then t[i].(parentAcct := parents[i]) else t[i]
  }

  /** `_move_account` skips only a subtree that already is the first child of the parent it names. */
  lemma SkippedIsFirstChild(t: Table, k: Key, p: Key)
    requires CanMove(t, k, p) && t[p].lft + 1 == t[k].lft
    ensures ParentKey(k, t[k]) == p && (k.user == "" ==> t[k].parentAcct == p.acct)
  {
    assert Apart(t, k, p);
    assert Inside(t, k, p);
    assert LinkedRow(t, k);
  }

  /** `_move_account` in both directions: the subtree becomes the first child of the new
      parent, exactly one link changes, and the table stays well-formed. */
  lemma MoveAccountCorrect(t: Table, k: Key, parent: string)
    requires CanMove(t, k, AcctKey(k.cluster, parent)) && k.user == ""
    ensures var m := MoveAccount(t, k, parent);
      && WellFormed(m)
      && SameTree(m, Relinked(t, map[k := parent]))
      && m[k].lft == m[AcctKey(k.cluster, parent)].lft + 1
  {
    var p := AcctKey(k.cluster, parent);
    if t[p].lft + 1 == t[k].lft {
      SkippedIsFirstChild(t, k, p);
    } else {
      PassedIsMoved(t, k, p);
      MovedWellFormed(t, k, p);
      InBlock(t, k, p);
    }
  }

  /** Rows that move together, or stay together, keep their order. */
  lemma MoveAccountKeepsOrder(t: Table, k: Key, parent: string, i: Key, j: Key)
    requires CanMove(t, k, AcctKey(k.cluster, parent))
    requires i in t && j in t && Between(t, i, k) == Between(t, j, k)
    ensures var m := MoveAccount(t, k, parent);
      m[i].lft < m[j].lft <==> t[i].lft < t[j].lft
  {
    var p := AcctKey(k.cluster, parent);
    if i != j && t[p].lft + 1 != t[k].lft {
      PassedIsMoved(t, k, p);
      MovedTogether(t, k, p, i, j);
    }
  }

  // ----- _move_parent -----

  /** First, a new parent inside the moved subtree goes to the old parent of that subtree. */
  function LiftNewParent(t: Table, k: Key, parent: string): Table
    requires k in t
  {
    var c := AcctKey(k.cluster, parent);
    if c in t && Between(t, c, k) then MoveAccount(t, c, t[k].parentAcct) else t
  }

  /** `_move_parent`. */
  function MoveParent(t: Table, k: Key, parent: string): Table
    requires k in t
  {
    MoveAccount(LiftNewParent(t, k, parent), k, parent)
  }

  /** The query of `_move_parent` for the new parent below a row; it does not ask for a cluster. */
  predicate IsBelow(t: Table, lft: int, rgt: int, parent: string, i: Key) {
    i in t && lft <= t[i].lft <= rgt && i.acct == parent && i.user == ""
  }

  /** The row it gives first, `order by lft`. */
  ghost predicate Found(t: Table, lft: int, rgt: int, parent: string, c: Option<Key>) {
    match c
    case None => forall i :: !IsBelow(t, lft, rgt, parent, i)
    case Some(i) =>
      && IsBelow(t, lft, rgt, parent, i)
      && forall j :: IsBelow(t, lft, rgt, parent, j) ==> t[i].lft <= t[j].lft
  }

  /** `_move_parent` on any table, given the row its query found. */
  function MoveFound(t: Table, k: Key, oldParent: string, parent: string, c: Option<Key>): Table
    requires k in t && (c.Some? ==> c.value in t)
  {
    MoveAccount(if c.Some? then MoveAccountIn(t, c.value, k.cluster, oldParent) else t, k, parent)
  }

  /** In a well-formed table a query without a cluster finds the new parent of the right one, or nothing. */
  lemma FoundIsNewParent(t: Table, k: Key, parent: string, i: Key)
    requires WellFormed(t) && k in t
    ensures var c := AcctKey(k.cluster, parent);
      IsBelow(t, t[k].lft, t[k].rgt, parent, i) <==> i == c && c in t && Between(t, c, k)
  {
    if IsBelow(t, t[k].lft, t[k].rgt, parent, i) {
      BetweenIffReaches(t, i, k);
      var n: nat :| ReachesIn(t, i, k, n);
      SameCluster(t, i, k, n);
    }
  }

  lemma MoveFoundIs(t: Table, k: Key, parent: string, c: Option<Key>)
    requires WellFormed(t) && k in t && Found(t, t[k].lft, t[k].rgt, parent, c)
    ensures c.Some? ==> c.value in t
    ensures MoveFound(t, k, t[k].parentAcct, parent, c) == MoveParent(t, k, parent)
  {
    hide MoveAccountIn;
    FoundIsNewParent(t, k, parent, AcctKey(k.cluster, parent));
    if c.Some? {
      FoundIsNewParent(t, k, parent, c.value);
    }
  }

  /** The links `_move_parent` changes: one, or two when the new parent is a descendant. */
  function NewParents(t: Table, k: Key, parent: string): map<Key, string>
    requires k in t
  {
    var c := AcctKey(k.cluster, parent);
    if c !in t then map[]
    else if Between(t, c, k) then map[c := t[k].parentAcct, k := parent]
    else map[k := parent]
  }

  /** What a caller has to check, if the new parent exists: a user stays in its account, an account is
      not its own new parent, and a root is not put below one of its descendants. */
  ghost predicate Movable(t: Table, k: Key, parent: string)
    requires k in t
  {
    var c := AcctKey(k.cluster, parent);
    c in t ==>
      if k.user != "" then parent == k.acct
      else c != k && (IsRoot(k, t[k]) ==> !Reaches(t, c, k))
  }

  lemma LiftCorrect(t: Table, k: Key, parent: string)
    requires WellFormed(t) && k in t && k.user == "" && !IsRoot(k, t[k])
    requires var c := AcctKey(k.cluster, parent); c in t && Inside(t, c, k)
    ensures var u := LiftNewParent(t, k, parent);
      && CanMove(u, k, AcctKey(k.cluster, parent))
      && SameTree(u, Relinked(t, map[AcctKey(k.cluster, parent) := t[k].parentAcct]))
  {
    var c := AcctKey(k.cluster, parent);
    var op := ParentKey(k, t[k]);
    assert LinkedRow(t, k);
    assert Between(t, c, k);
    assert CanMove(t, c, op) && t[op].lft + 1 != t[c].lft;
    MoveAccountCorrect(t, c, t[k].parentAcct);
    PassedIsMoved(t, c, op);
    MovedPair(t, c, op, c, k);
    var u := LiftNewParent(t, k, parent);
    assert u == Moved(t, c, op);
    InBlock(u, k, c);
  }

  lemma SameTreeRelinked(t: Table, u: Table, m: Table, c: Key, oldParent: string, k: Key, parent: string)
    requires SameTree(u, Relinked(t, map[c := oldParent])) && SameTree(m, Relinked(u, map[k := parent])) && c != k
    ensures SameTree(m, Relinked(t, map[c := oldParent, k := parent]))
  {
    var w := Relinked(t, map[c := oldParent, k := parent]);
    forall i | i in m
      ensures m[i].(lft := 0, rgt := 0) == w[i].(lft := 0, rgt := 0)
    {
      assert u[i].(lft := 0, rgt := 0) == Relinked(t, map[c := oldParent])[i].(lft := 0, rgt := 0);
    }
  }

  /** `_move_parent` never makes a cycle: the two views still agree, and exactly the links of
      `NewParents` have changed. */
  lemma MoveParentCorrect(t: Table, k: Key, parent: string)
    requires WellFormed(t) && k in t && k.user == "" && Movable(t, k, parent)
    ensures var m := MoveParent(t, k, parent);
      && WellFormed(m)
      && SameTree(m, Relinked(t, NewParents(t, k, parent)))
      && (AcctKey(k.cluster, parent) in t ==> m[k].lft == m[AcctKey(k.cluster, parent)].lft + 1)
  {
    var c := AcctKey(k.cluster, parent);
    if c in t {
      BetweenIffReaches(t, c, k);
      if Between(t, c, k) {
        LiftCorrect(t, k, parent);
        var u := LiftNewParent(t, k, parent);
        MoveAccountCorrect(u, k, parent);
        SameTreeRelinked(t, u, MoveAccount(u, k, parent), c, t[k].parentAcct, k, parent);
      } else {
        MoveAccountCorrect(t, k, parent);
      }
    }
  }

  // ----- and exactly then -----

  lemma MoveAccountFlagged(t: Table, k: Key, parent: string)
    requires Flagged(t) && k in t
    ensures Flagged(MoveAccount(t, k, parent))
  {
  }

  lemma MoveParentFlagged(t: Table, k: Key, parent: string)
    requires Flagged(t) && k in t
    ensures MoveParent(t, k, parent).Keys == t.Keys && Flagged(MoveParent(t, k, parent))
  {
    var c := AcctKey(k.cluster, parent);
    if c in t {
      MoveAccountFlagged(t, c, t[k].parentAcct);
    }
    MoveAccountFlagged(LiftNewParent(t, k, parent), k, parent);
  }

  lemma {:induction false} PathIntoRoot(t: Table, m: Table, d: Key, k: Key, n: nat) returns (n': nat)
    requires m.Keys == t.Keys && forall i <- t :: i != k ==> m[i].parentAcct == t[i].parentAcct
    requires ReachesIn(t, d, k, n)
    ensures ReachesIn(m, d, k, n')
    decreases n
  {
    if d == k {
      n' := 0;
    } else {
      n' := PathIntoRoot(t, m, ParentKey(d, t[d]), k, n - 1);
      n' := n' + 1;
    }
  }

  lemma RootBelowDescendantFails(t: Table, k: Key, parent: string)
    requires WellFormed(t) && k in t && IsRoot(k, t[k])
    requires var c := AcctKey(k.cluster, parent); c in t && c != k && Reaches(t, c, k)
    ensures !WellFormed(MoveParent(t, k, parent))
  {
    var c := AcctKey(k.cluster, parent);
    BetweenIffReaches(t, c, k);
    assert AcctKey(k.cluster, "") !in t;
    var m := MoveParent(t, k, parent);
    assert m == Passed(t, k, c);
    var n: nat :| ReachesIn(t, c, k, n);
    var n' := PathIntoRoot(t, m, c, k, n);
    assert ReachesIn(m, k, k, n' + 1);
    if WellFormed(m) {
      ReachedIsAround(m, k, k, n' + 1);
    }
  }

  lemma SelfParentFails(t: Table, k: Key)
    requires WellFormed(t) && k in t && k.user == ""
    ensures !WellFormed(MoveParent(t, k, k.acct))
  {
    var m := MoveParent(t, k, k.acct);
    assert AcctKey(k.cluster, k.acct) == k;
    assert m[k].parentAcct == k.acct && ParentKey(k, m[k]) == k;
    assert !LinkedRow(m, k);
  }

  // ----- moving a user -----

  /** Nothing lies below a user. */
  lemma UserHasNoneBelow(t: Table, k: Key, c: Key)
    requires WellFormed(t) && k in t && k.user != "" && c in t && c.user == ""
    ensures !Between(t, c, k)
  {
    BetweenIffReaches(t, c, k);
    if Reaches(t, c, k) {
      var n: nat :| ReachesIn(t, c, k, n);
      LastLinkIsAccount(t, c, k, n);
    }
  }

  lemma {:induction false} LastLinkIsAccount(t: Table, d: Key, a: Key, n: nat)
    requires ReachesIn(t, d, a, n) && n > 0
    ensures a.user == ""
    decreases n
  {
    if n > 1 {
      LastLinkIsAccount(t, ParentKey(d, t[d]), a, n - 1);
    }
  }

  /** A row behind the `lft` of another one lies directly inside it. */
  lemma NextIsChild(t: Table, k: Key, p: Key)
    requires WellFormed(t) && k in t && p in t && t[p].lft + 1 == t[k].lft
    ensures !IsRoot(k, t[k]) && ParentKey(k, t[k]) == p
  {
    assert Apart(t, k, p);
    assert Inside(t, k, p);
    assert LinkedRow(t, k);
  }

  lemma MovedUserCorrect(t: Table, k: Key)
    requires WellFormed(t) && k in t && k.user != ""
    ensures var m := MoveParent(t, k, k.acct);
      && WellFormed(m) && m.Keys == t.Keys && m[k].parentAcct in {k.acct, t[k].parentAcct}
      && forall i <- t :: i != k ==> m[i].parentAcct == t[i].parentAcct
  {
    var p := AcctKey(k.cluster, k.acct);
    assert LinkedRow(t, k);
    UserHasNoneBelow(t, k, p);
    if t[p].lft + 1 != t[k].lft {
      PassedIsMoved(t, k, p);
      MovedWellFormed(t, k, p);
    }
  }

  /** A user put below another account lies inside that one, next to its link. */
  lemma MovedAwayFails(t: Table, k: Key, parent: string)
    requires WellFormed(t) && k in t && k.user != "" && parent != k.acct && AcctKey(k.cluster, parent) in t
    ensures !WellFormed(MoveParent(t, k, parent))
  {
    var p := AcctKey(k.cluster, parent);
    UserHasNoneBelow(t, k, p);
    if t[p].lft + 1 == t[k].lft {
      NextIsChild(t, k, p);
    } else {
      AwayLinkFails(t, k, p);
    }
  }

  lemma AwayLinkFails(t: Table, k: Key, p: Key)
    requires WellFormed(t) && k in t && p in t && !Between(t, p, k) && t[p].lft + 1 != t[k].lft
    requires k.user != "" && p.user == "" && p != AcctKey(k.cluster, k.acct)
    ensures !LinkedRow(Passed(t, k, p), k)
  {
    var m, a := Passed(t, k, p), AcctKey(k.cluster, k.acct);
    assert LinkedRow(t, k);
    PassedIsMoved(t, k, p);
    MovedPair(t, k, p, k, p);
    MovedPair(t, k, p, k, a);
    MovedPair(t, k, p, p, a);
    UserHasNoneBelow(t, k, a);
  }

  /** `_move_parent` keeps the tree exactly when the move is `Movable`. */
  lemma MoveParentKeepsTreeIff(t: Table, k: Key, parent: string)
    requires WellFormed(t) && k in t
    ensures WellFormed(MoveParent(t, k, parent)) <==> Movable(t, k, parent)
  {
    var c := AcctKey(k.cluster, parent);
    if k.user != "" {
      if parent == k.acct {
        MovedUserCorrect(t, k);
      } else if c in t {
        MovedAwayFails(t, k, parent);
      }
    } else if Movable(t, k, parent) {
      MoveParentCorrect(t, k, parent);
    } else if c == k {
      SelfParentFails(t, k);
    } else {
      RootBelowDescendantFails(t, k, parent);
    }
  }

  // ----- roots stay roots -----

  /** A legal move leaves each cluster its root. */
  lemma MoveParentRooted(t: Table, k: Key, parent: string)
    requires WellFormed(t) && Rooted(t) && k in t && Movable(t, k, parent)
    ensures Rooted(MoveParent(t, k, parent))
  {
    var c, m := AcctKey(k.cluster, parent), MoveParent(t, k, parent);
    hide MoveParent;
    if c !in t {
      assert m == t by { NothingMoves(t, k, parent); }
    } else if k.user != "" {
      MovedUserCorrect(t, k);
    } else {
      MoveParentCorrect(t, k, parent);
      RelinkedRooted(t, k, parent);
      var w := Relinked(t, NewParents(t, k, parent));
      forall i | i in m
        ensures m[i].parentAcct == w[i].parentAcct
      {
        assert m[i].(lft := 0, rgt := 0) == w[i].(lft := 0, rgt := 0);
      }
      RootedLinks(w, m);
    }
  }

  lemma RelinkedRooted(t: Table, k: Key, parent: string)
    requires WellFormed(t) && Rooted(t) && k in t && k.user == "" && Movable(t, k, parent)
    ensures Rooted(Relinked(t, NewParents(t, k, parent)))
  {
    var c := AcctKey(k.cluster, parent);
    if c in t {
      BetweenIffReaches(t, c, k);
    }
  }

  lemma NothingMoves(t: Table, k: Key, parent: string)
    requires k in t && AcctKey(k.cluster, parent) !in t
    ensures MoveParent(t, k, parent) == t
  {
  }
}
