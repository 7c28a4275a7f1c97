/** The loop of modify_associations that gives several accounts the same new parent: what it knows of an
    account was read before the first of them moved. */
module TreeModify {
  import opened Wrappers
  import opened NestedSet
  import opened TreeInsert
  import opened TreeMove

  // ----- a row that keeps its numbers -----

  /** Position `x` lies between the old and the new place of the subtree of `k`. */
  predicate Crossed(t: Table, k: Key, p: Key, x: int)
    requires k in t && p in t
  {
    t[p].lft < x < t[k].lft || t[k].rgt < x <= t[p].lft
  }

  /** A move leaves a row's numbers as they were read before exactly when the row is not in the moved subtree,
      and neither starts nor ends between the old and the new place. */
  lemma NumbersKeptIff(t: Table, k: Key, p: Key, i: Key)
    requires CanMove(t, k, p) && t[p].lft + 1 != t[k].lft && i in t
    ensures var m := MoveAccount(t, k, p.acct);
      i in m && (m[i].lft == t[i].lft && m[i].rgt == t[i].rgt <==>
        !Between(t, i, k) && !Crossed(t, k, p, t[i].lft) && !Crossed(t, k, p, t[i].rgt))
  {
    PassedIsMoved(t, k, p);
    InBlock(t, k, i);
    InBlock(t, k, p);
  }

  // ----- a move with whatever the query found -----

  /** Moving account `k` below itself or one of its descendants makes a cycle of links, whatever happens to
      the link of a row `x` that is not on it. */
  lemma BelowItselfFails(t: Table, m: Table, k: Key, p: Key, x: Key)
    requires WellFormed(t) && k in t && p in t && Between(t, p, k) && k.user == "" && p == AcctKey(k.cluster, p.acct)
    requires m.Keys == t.Keys && m[k].parentAcct == p.acct && (x == k || !Reaches(t, p, x))
    requires forall i <- t :: i != k && i != x ==> m[i].parentAcct == t[i].parentAcct
    ensures !WellFormed(m)
  {
    BetweenIffReaches(t, p, k);
    var n: nat :| ReachesIn(t, p, k, n);
    var n' := PathWithout(t, m, p, k, x, n);
    assert p.acct != "";
    assert ReachesIn(m, k, k, n' + 1);
    if WellFormed(m) {
      ReachedIsAround(m, k, k, n' + 1);
    }
  }

  lemma {:induction false} PathWithout(t: Table, m: Table, d: Key, k: Key, x: Key, n: nat) returns (n': nat)
    requires m.Keys == t.Keys && ReachesIn(t, d, k, n) && (x == k || !Reaches(t, d, x))
    requires forall i <- t :: i != k && i != x ==> m[i].parentAcct == t[i].parentAcct
    ensures ReachesIn(m, d, k, n')
    decreases n
  {
    if d == k {
      n' := 0;
    } else {
      var up := ParentKey(d, t[d]);
      if x != k {
        assert ReachesIn(t, d, d, 0);
        if Reaches(t, up, x) {
          var l: nat :| ReachesIn(t, up, x, l);
          assert ReachesIn(t, d, x, l + 1);
        }
      }
      n' := PathWithout(t, m, up, k, x, n - 1);
      n' := n' + 1;
    }
  }

  /** A move that finds no parent below the account. */
  lemma PlainMoveIff(t: Table, k: Key, parent: string)
    requires WellFormed(t) && k in t && k.user == "" && parent != k.acct
    ensures var p := AcctKey(k.cluster, parent);
      WellFormed(MoveAccount(t, k, parent)) <==> (p in t ==> !Reaches(t, p, k))
  {
    var p := AcctKey(k.cluster, parent);
    if p in t {
      BetweenIffReaches(t, p, k);
      if Between(t, p, k) {
        BelowItselfFails(t, MoveAccount(t, k, parent), k, p, k);
      } else {
        MoveParentKeepsTreeIff(t, k, parent);
      }
    }
  }

  ghost predicate Legal(t: Table, k: Key, parent: string)
    requires k in t
  {
    && WellFormed(t) && k.user == "" && parent != k.acct && AcctKey(k.cluster, parent) in t
    && !Reaches(t, AcctKey(k.cluster, parent), k)
  }

  /** The query has found the new parent although it is not below the account: it is first moved below the
      account's parent. */
  lemma ApartMoveIff(t: Table, k: Key, parent: string)
    requires k in t && Legal(t, k, parent) && !IsRoot(k, t[k])
    ensures WellFormed(MoveFound(t, k, t[k].parentAcct, parent, Some(AcctKey(k.cluster, parent)))) <==>
      !Reaches(t, AcctKey(k.cluster, t[k].parentAcct), AcctKey(k.cluster, parent))
  {
    var p, q := AcctKey(k.cluster, parent), AcctKey(k.cluster, t[k].parentAcct);
    assert LinkedRow(t, k);
    BetweenIffReaches(t, q, p);
    BetweenIffReaches(t, p, k);
    if Between(t, q, p) {
      ApartMoveFails(t, k, parent);
    } else {
      MoveAccountCorrect(t, p, q.acct);
      var m := MoveAccount(t, p, q.acct);
      hide Numbered, Linked;
      StillApart(t, m, k, p, q);
      PlainMoveIff(m, k, parent);
    }
  }

  lemma ApartMoveFails(t: Table, k: Key, parent: string)
    requires k in t && Legal(t, k, parent) && !IsRoot(k, t[k])
    requires var q := AcctKey(k.cluster, t[k].parentAcct); q in t && Between(t, q, AcctKey(k.cluster, parent))
    ensures !WellFormed(MoveFound(t, k, t[k].parentAcct, parent, Some(AcctKey(k.cluster, parent))))
  {
    var p, q := AcctKey(k.cluster, parent), AcctKey(k.cluster, t[k].parentAcct);
    var m := MoveFound(t, k, t[k].parentAcct, parent, Some(p));
    assert LinkedRow(t, k);
    BetweenIffReaches(t, q, k);
    hide WellFormed, PassFrom;
    BothMoved(t, k, parent);
    hide *;
    BelowItselfFails(t, m, p, q, k);
  }

  lemma BothMoved(t: Table, k: Key, parent: string)
    requires k in t
    requires var p, q := AcctKey(k.cluster, parent), AcctKey(k.cluster, t[k].parentAcct);
      p in t && q in t && p != k && t[q].lft + 1 != t[p].lft
    ensures var p, q := AcctKey(k.cluster, parent), AcctKey(k.cluster, t[k].parentAcct);
      var m := MoveFound(t, k, t[k].parentAcct, parent, Some(p));
      && m.Keys == t.Keys && m[p].parentAcct == q.acct
      && forall i <- t :: i != k && i != p ==> m[i].parentAcct == t[i].parentAcct
  {
    var p := AcctKey(k.cluster, parent);
    MovedLinks(t, p, k.cluster, t[k].parentAcct);
    MovedLinks(MoveAccountIn(t, p, k.cluster, t[k].parentAcct), k, k.cluster, parent);
    hide MoveAccountIn;
  }

  lemma MovedLinks(t: Table, k: Key, cluster: string, parent: string)
    requires k in t
    ensures var m := MoveAccountIn(t, k, cluster, parent);
      && (forall i <- t :: i != k ==> m[i].parentAcct == t[i].parentAcct)
      && (!Skips(t, k, cluster, parent) ==> m[k].parentAcct == parent)
  {
  }

  lemma StillApart(t: Table, m: Table, k: Key, p: Key, q: Key)
    requires WellFormed(t) && k in t && k.user == "" && !IsRoot(k, t[k]) && q == ParentKey(k, t[k]) && p != k
    requires p in t && p.user == "" && p.cluster == k.cluster
    requires WellFormed(m) && SameTree(m, Relinked(t, map[p := q.acct]))
    ensures !Reaches(m, p, k)
  {
    var w := Relinked(t, map[p := q.acct]);
    assert m[k].(lft := 0, rgt := 0) == w[k].(lft := 0, rgt := 0);
    assert m[p].(lft := 0, rgt := 0) == w[p].(lft := 0, rgt := 0);
    BetweenIffReaches(m, p, k);
    assert LinkedRow(m, k) && LinkedRow(m, p);
  }

  // ----- an account of another cluster -----

  lemma MovedFlagged(t: Table, k: Key, p: Key)
    requires Flagged(t) && k in t && p in t
    ensures Flagged(Moved(t, k, p))
  {
  }

  /** Two rows of other clusters do not come to lie in each other. */
  lemma OtherClusterApart(t: Table, i: Key, k: Key)
    requires WellFormed(t) && i in t && k in t && i.cluster != k.cluster
    ensures !Between(t, i, k)
  {
    BetweenIffReaches(t, i, k);
    if Reaches(t, i, k) {
      var n: nat :| ReachesIn(t, i, k, n);
      SameCluster(t, i, k, n);
    }
  }

  lemma InOtherClusterFails(m: Table, i: Key, q: Key)
    requires i in m && q in m && i.cluster != q.cluster && Inside(m, i, q)
    ensures !WellFormed(m)
  {
    if WellFormed(m) {
      OtherClusterApart(m, i, q);
    }
  }

  /** The first move puts the account of another cluster below the parent of `k`. */
  lemma ForeignMove(t: Table, k: Key, q: Key, i: Key)
    requires WellFormed(t) && k in t && q in t && Inside(t, k, q) && q == AcctKey(k.cluster, t[k].parentAcct)
    requires i in t && i.cluster != k.cluster
    ensures var u := Moved(t, i, q);
      && MoveAccountIn(t, i, k.cluster, t[k].parentAcct) == u
      && Numbered(u) && Flagged(u) && u.Keys == t.Keys
      && Inside(u, i, q) && Inside(u, k, q) && !Between(u, i, k) && !Between(u, q, k)
  {
    OtherClusterApart(t, q, i);
    OtherClusterApart(t, k, i);
    if t[q].lft + 1 == t[i].lft {
      NextIsChild(t, i, q);
    }
    PassedIsMoved(t, i, q);
    MovedNumbered(t, i, q);
    MovedFlagged(t, i, q);
    MovedPair(t, i, q, i, q);
    MovedPair(t, i, q, i, k);
    MovedPair(t, i, q, k, q);
    InBlock(Moved(t, i, q), k, i);
    InBlock(Moved(t, i, q), k, q);
  }

  lemma ForeignBetween(t: Table, k: Key, q: Key, i: Key, p: Key)
    requires WellFormed(t) && k in t && q in t && i in t && p in t && q.cluster == k.cluster == p.cluster != i.cluster
    requires Between(Moved(t, i, q), p, k)
    ensures Between(t, p, k) && !Reaches(t, p, i)
  {
    OtherClusterApart(t, q, i);
    OtherClusterApart(t, k, i);
    OtherClusterApart(t, p, i);
    BetweenIffReaches(t, p, i);
    if p != k {
      MovedNumbered(t, i, q);
      InBlock(Moved(t, i, q), k, p);
      MovedPair(t, i, q, p, k);
    }
  }

  /** A move of `k` elsewhere leaves `i` inside `q`. */
  lemma SecondMoveKeeps(u: Table, k: Key, p: Key, i: Key, q: Key)
    requires Numbered(u) && Flagged(u) && k in u && p in u && i in u && q in u && i != q
    requires Inside(u, i, q) && !Between(u, i, k) && !Between(u, q, k)
    requires !Between(u, p, k) && u[p].lft + 1 != u[k].lft
    ensures Inside(Passed(u, k, p), i, q)
  {
    PassedIsMoved(u, k, p);
    MovedPair(u, k, p, i, q);
  }

  /** The query has found an account of another cluster: it ends up inside the account's own cluster. */
  lemma OtherClusterFails(t: Table, k: Key, parent: string, i: Key)
    requires WellFormed(t) && k in t && k.user == "" && parent != k.acct && !IsRoot(k, t[k])
    requires i in t && i.cluster != k.cluster
    ensures !WellFormed(MoveFound(t, k, t[k].parentAcct, parent, Some(i)))
  {
    var p, q := AcctKey(k.cluster, parent), AcctKey(k.cluster, t[k].parentAcct);
    assert LinkedRow(t, k);
    ForeignMove(t, k, q, i);
    var u, m := Moved(t, i, q), MoveFound(t, k, t[k].parentAcct, parent, Some(i));
    assert m.Keys == u.Keys && (Skips(u, k, k.cluster, parent) ==> m == u) &&
      (!Skips(u, k, k.cluster, parent) ==> m == Passed(u, k, p));
    assert forall j <- t :: j != k && j != i ==> m[j].parentAcct == t[j].parentAcct;
    assert !Skips(u, k, k.cluster, parent) ==> m[k].parentAcct == p.acct;
    hide MoveFound, Moved, Passed, WellFormed, Numbered, Flagged, Linked;
    if Skips(u, k, k.cluster, parent) {
      InOtherClusterFails(m, i, q);
    } else if Between(u, p, k) {
      ForeignBetween(t, k, q, i, p);
      BelowItselfFails(t, m, k, p, i);
    } else {
      SecondMoveKeeps(u, k, p, i, q);
      InOtherClusterFails(m, i, q);
    }
  }

  // ----- and exactly then -----

  /** What the query may find: nothing, and the new parent is not below the account; the new parent, which is
      below the account and this no root, or not above the account's parent; or, for a root, anything. */
  ghost predicate MoveFits(t: Table, k: Key, parent: string, c: Option<Key>)
    requires k in t
  {
    var p := AcctKey(k.cluster, parent);
    if c == Some(p) && !IsRoot(k, t[k]) then
      Reaches(t, p, k) || !Reaches(t, AcctKey(k.cluster, t[k].parentAcct), p)
    else
      (c.None? || IsRoot(k, t[k])) && (p in t ==> !Reaches(t, p, k))
  }

  /** `_move_parent` for an account with another name than its new parent, called with numbers that may have
      been read too early: it keeps the tree exactly when what the query finds in them fits. */
  lemma StaleMoveKeepsTreeIff(t: Table, k: Key, lft: int, rgt: int, parent: string, c: Option<Key>)
    requires WellFormed(t) && k in t && k.user == "" && parent != k.acct
    requires Found(t, lft, rgt, parent, c) && (c.Some? ==> c.value in t)
    ensures WellFormed(MoveFound(t, k, t[k].parentAcct, parent, c)) <==> MoveFits(t, k, parent, c)
  {
    var p := AcctKey(k.cluster, parent);
    if IsRoot(k, t[k]) || c.None? {
      assert AcctKey(k.cluster, "") !in t;
      PlainMoveIff(t, k, parent);
    } else if c.value != p {
      OtherClusterFails(t, k, parent, c.value);
    } else if Reaches(t, p, k) {
      BetweenIffReaches(t, p, k);
      MoveParentKeepsTreeIff(t, k, parent);
    } else {
      ApartMoveIff(t, k, parent);
    }
  }

  // ----- the loop -----

  /** A row as the query before the loop has read it. */
  datatype Selected = Selected(row: Key, lft: int, rgt: int, parentAcct: string)

  /** Users have no parent to give, and an account is not made a child of itself. */
  predicate Passes(s: Selected, parent: string) {
    s.row.user != "" || s.row.acct == parent
  }

  ghost predicate Turn(t: Table, s: Selected, parent: string, c: Option<Key>, u: Table)
    requires s.row in t
  {
    if Passes(s, parent) then u == t
    else
      && Found(t, s.lft, s.rgt, parent, c) && (c.Some? ==> c.value in t)
      && u == MoveFound(t, s.row, s.parentAcct, parent, c)
  }

  ghost predicate IsLoop(tables: seq<Table>, selected: seq<Selected>, parent: string, found: seq<Option<Key>>) {
    && |tables| == |selected| + 1 == |found| + 1
    && forall i :: 0 <= i < |selected| ==>
         selected[i].row in tables[i] && Turn(tables[i], selected[i], parent, found[i], tables[i + 1])
  }

  /** Each row is selected once, with the parent it has in the table. */
  ghost predicate ReadFrom(t: Table, selected: seq<Selected>) {
    && (forall i, j :: 0 <= i < j < |selected| ==> selected[i].row != selected[j].row)
    && forall s <- selected :: s.row in t && s.parentAcct == t[s.row].parentAcct
  }

  ghost predicate TurnFits(t: Table, s: Selected, parent: string, c: Option<Key>)
    requires s.row in t
  {
    Passes(s, parent) || MoveFits(t, s.row, parent, c)
  }

  /** A turn changes the links of the account and of a row with the name of the new parent. */
  lemma TurnLinks(t: Table, s: Selected, parent: string, c: Option<Key>, u: Table, k: Key)
    requires s.row in t && Turn(t, s, parent, c, u) && k in t && k != s.row && k.acct != parent
    ensures u.Keys == t.Keys && u[k].parentAcct == t[k].parentAcct
  {
    if !Passes(s, parent) {
      if c.Some? {
        MovedLinks(t, c.value, s.row.cluster, s.parentAcct);
      }
      MovedLinks(if c.Some? then MoveAccountIn(t, c.value, s.row.cluster, s.parentAcct) else t, s.row, s.row.cluster,
                 parent);
    }
  }

  lemma {:induction false} ParentsStayRead(tables: seq<Table>, selected: seq<Selected>, parent: string,
                                           found: seq<Option<Key>>, i: nat, n: nat)
    requires IsLoop(tables, selected, parent, found) && ReadFrom(tables[0], selected) && i <= n < |selected|
    requires selected[n].row.acct != parent
    ensures selected[n].row in tables[i] && tables[i][selected[n].row].parentAcct == selected[n].parentAcct
    decreases i
  {
    if i > 0 {
      ParentsStayRead(tables, selected, parent, found, i - 1, n);
      assert Turn(tables[i - 1], selected[i - 1], parent, found[i - 1], tables[i - 1 + 1]);
      TurnLinks(tables[i - 1], selected[i - 1], parent, found[i - 1], tables[i], selected[n].row);
    }
  }

  /** As long as what the queries find in the old numbers fits, the loop keeps the tree, and the first time it
      does not, the tree is broken. */
  lemma {:induction false} LoopKeepsTreeIff(tables: seq<Table>, selected: seq<Selected>, parent: string,
                                            found: seq<Option<Key>>, n: nat)
    requires IsLoop(tables, selected, parent, found) && ReadFrom(tables[0], selected) && WellFormed(tables[0])
    requires n < |selected|
    requires forall i :: 0 <= i < n ==> TurnFits(tables[i], selected[i], parent, found[i])
    ensures WellFormed(tables[n])
    ensures WellFormed(tables[n + 1]) <==> TurnFits(tables[n], selected[n], parent, found[n])
    decreases n
  {
    if n > 0 {
      LoopKeepsTreeIff(tables, selected, parent, found, n - 1);
      assert TurnFits(tables[n - 1], selected[n - 1], parent, found[n - 1]);
    }
    var s := selected[n];
    assert Turn(tables[n], s, parent, found[n], tables[n + 1]);
    if !Passes(s, parent) {
      ParentsStayRead(tables, selected, parent, found, n, n);
      hide MoveFound, MoveFits, WellFormed, Found;
      StaleMoveKeepsTreeIff(tables[n], s.row, s.lft, s.rgt, parent, found[n]);
    }
  }
}
