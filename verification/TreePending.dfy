/** Why a list of items must not touch the tree while a group is pending: the flush makes room only at the
    place the group was begun for, and only rows still marked fill it. */
module TreePending {
  import opened Wrappers
  import opened NestedSet
  import opened TreeMove
  import opened TreeInsert
  import opened TreeItems
  import opened TreeBatch
  import opened TreeRemove

  lemma SameSize(t: Table, u: Table)
    requires t.Keys == u.Keys
    ensures |t| == |u|
  {
    assert |t| == |t.Keys| == |u.Keys| == |u|;
  }

  lemma HoleFails(t: Table, x: int)
    requires 1 <= x <= 2 * |t| && forall i <- t :: t[i].lft != x && t[i].rgt != x
    ensures !Numbered(t)
  {
    assert x !in EndPoints(t);
    if Numbered(t) {
      NumberingIsGapFree(t);
    }
  }

  lemma NotWellFormed(t: Table)
    requires !Numbered(t)
    ensures !WellFormed(t)
  {
  }

  /** A position that is made free and filled by no marked row stays empty. */
  lemma GapFails(rows: Table, myLeft: int, incr: int, x: int)
    requires myLeft < x <= myLeft + incr && 1 <= x <= 2 * |rows|
    requires forall i <- rows :: rows[i].deleted >= 2 ==> rows[i].lft != x && rows[i].rgt != x
    ensures !Numbered(FlushedRows(rows, myLeft, incr))
  {
    SameSize(FlushedRows(rows, myLeft, incr), rows);
    HoleFails(FlushedRows(rows, myLeft, incr), x);
  }

  lemma MarkedSize(base: Table, p: Key, batch: seq<Entry>)
    requires p in base
    ensures |Marked(base, p, batch)| == |AddBatch(base, p, batch)|
  {
    var m, rows := AddBatch(base, p, batch), Marked(base, p, batch);
    forall k
      ensures k in rows <==> k in m
    {
      MarkedAt(base, p, batch, k);
      AddedAt(base, p, batch, k);
    }
    SameSize(rows, m);
  }

  /** The positions of the pending rows are among those of the flushed table. */
  lemma PendingFits(base: Table, p: Key, batch: seq<Entry>)
    requires WellFormed(base) && p in base && BatchAddable(base, p, batch) && batch != []
    ensures 1 <= base[p].lft && base[p].lft + 2 * |batch| <= 2 * |Marked(base, p, batch)|
  {
    var e := batch[|batch| - 1];
    assert InBatch(batch, e.key);
    assert IndexOf(batch, e.key) == |batch| - 1;
    AddBatchWellFormed(base, p, batch);
    MarkedSize(base, p, batch);
    hide Marked, AddBatch, BatchAddable, Laminar, Linked;
    AddedAt(base, p, batch, e.key);
  }

  lemma OtherPlace(batch: seq<Entry>, i: Key, k: Key)
    requires InBatch(batch, i) && InBatch(batch, k) && i != k
    ensures IndexOf(batch, i) != IndexOf(batch, k)
  {
  }

  lemma MarkedRowAt(base: Table, p: Key, batch: seq<Entry>, i: Key)
    requires WellFormed(base) && p in base && BatchAddable(base, p, batch) && i in Marked(base, p, batch)
    ensures var r := Marked(base, p, batch)[i];
      if InBatch(batch, i) then r.lft == base[p].lft + 1 + 2 * IndexOf(batch, i) && r.rgt == r.lft + 1 && r.deleted == 2
      else i in base && r == base[i] && 0 <= r.deleted <= 1
  {
    MarkedAt(base, p, batch, i);
  }

  lemma OldRowMarked(base: Table, p: Key, batch: seq<Entry>, k: Key)
    requires p in base && BatchAddable(base, p, batch) && k in base
    ensures k in Marked(base, p, batch) && Marked(base, p, batch)[k] == base[k]
  {
    MarkedAt(base, p, batch, k);
  }

  // ----- rows still marked after a move -----

  /** The rows of group `p` are pending behind a well-formed table. */
  ghost predicate Pending(base: Table, p: Key, batch: seq<Entry>) {
    WellFormed(base) && p in base && BatchAddable(base, p, batch) && batch != []
  }

  /** How far the statements move a marked row of the subtree of `from`. */
  function ShiftOf(from: Row, after: int): int {
    if after + 1 > from.lft then after - from.rgt else after + 1 - from.lft
  }

  /** The rows still marked have been marked before, and all have moved by `d`. */
  ghost predicate ShiftedBy(rows: Table, u: Table, d: int) {
    && u.Keys == rows.Keys
    && forall i <- u ::
      && 0 <= u[i].deleted <= 2
      && (u[i].deleted == 2 ==>
            && rows[i].deleted == 2 && u[i].rgt == u[i].lft + 1
            && u[i].lft == rows[i].lft + d && u[i].rgt == rows[i].rgt + d)
  }

  lemma PassedRow(r: Row, from: Row, after: int)
    requires 0 <= r.deleted <= 2 && (r.deleted == 2 ==> r.rgt == r.lft + 1) && after + 1 != from.lft
    ensures var s := PassFrom(r, from, after);
      && 0 <= s.deleted <= 2
      && (s.deleted == 2 ==>
            && r.deleted == 2 && from.lft <= r.lft <= from.rgt
            && s.lft == r.lft + ShiftOf(from, after) && s.rgt == r.rgt + ShiftOf(from, after))
  {
  }

  lemma PassedAt(t: Table, k: Key, q: Key, i: Key)
    requires k in t && q in t && i in t && t[q].lft + 1 != t[k].lft
    requires 0 <= t[i].deleted <= 2 && (t[i].deleted == 2 ==> t[i].rgt == t[i].lft + 1)
    ensures var r, s, d := t[i], Passed(t, k, q)[i], ShiftOf(t[k], t[q].lft);
      && 0 <= s.deleted <= 2
      && (s.deleted == 2 ==>
            r.deleted == 2 && t[k].lft <= r.lft <= t[k].rgt && s.lft == r.lft + d && s.rgt == r.rgt + d)
  {
    PassedRow(t[i], t[k], t[q].lft);
  }

  /** The statements of a move keep only those rows marked that lie in the moved subtree, and move all of
      them alike. */
  lemma PassShifts(rows: Table, t: Table, d: int, k: Key, q: Key)
    requires ShiftedBy(rows, t, d) && k in t && q in t && t[q].lft + 1 != t[k].lft
    ensures ShiftedBy(rows, Passed(t, k, q), d + ShiftOf(t[k], t[q].lft))
    ensures forall i <- t :: Passed(t, k, q)[i].deleted == 2 ==> t[i].deleted == 2 && t[k].lft <= t[i].lft <= t[k].rgt
  {
    var u := Passed(t, k, q);
    assert u.Keys == t.Keys;
    forall i | i in t
      ensures var r, s, e := t[i], u[i], ShiftOf(t[k], t[q].lft);
        && 0 <= s.deleted <= 2
        && (s.deleted == 2 ==>
              r.deleted == 2 && t[k].lft <= r.lft <= t[k].rgt && s.lft == r.lft + e && s.rgt == r.rgt + e)
    {
      PassedAt(t, k, q, i);
    }
    hide Passed, ShiftOf;
  }

  lemma MoveShifts(rows: Table, t: Table, d: int, k: Key, cluster: string, parent: string) returns (e: int)
    requires ShiftedBy(rows, t, d) && k in t
    ensures ShiftedBy(rows, MoveAccountIn(t, k, cluster, parent), e)
    ensures forall i <- t :: MoveAccountIn(t, k, cluster, parent)[i].deleted == 2 ==> t[i].deleted == 2
    ensures !Skips(t, k, cluster, parent) ==>
      && e == d + ShiftOf(t[k], t[AcctKey(cluster, parent)].lft)
      && forall i <- t :: MoveAccountIn(t, k, cluster, parent)[i].deleted == 2 ==> t[k].lft <= t[i].lft <= t[k].rgt
    ensures Skips(t, k, cluster, parent) ==> e == d
  {
    e := d;
    if !Skips(t, k, cluster, parent) {
      PassShifts(rows, t, d, k, AcctKey(cluster, parent));
      e := d + ShiftOf(t[k], t[AcctKey(cluster, parent)].lft);
    }
  }

  lemma MarkedShifted(base: Table, p: Key, batch: seq<Entry>)
    requires Pending(base, p, batch)
    ensures ShiftedBy(Marked(base, p, batch), Marked(base, p, batch), 0)
  {
    var rows := Marked(base, p, batch);
    forall i | i in rows
      ensures 0 <= rows[i].deleted <= 2 && (rows[i].deleted == 2 ==> rows[i].rgt == rows[i].lft + 1)
    {
      MarkedRowAt(base, p, batch, i);
    }
  }

  /** Some of the positions to be filled is not: all marked rows have moved, or one is marked no more. */
  ghost predicate Spoiled(batch: seq<Entry>, u: Table, d: int) {
    d != 0 || exists i :: InBatch(batch, i) && i in u && u[i].deleted != 2
  }

  lemma PlaceIsFree(base: Table, p: Key, batch: seq<Entry>, u: Table, d: int, j: Key, i: Key, x: int)
    requires Pending(base, p, batch) && ShiftedBy(Marked(base, p, batch), u, d)
    requires j in u && InBatch(batch, j) && (d == 0 ==> u[j].deleted != 2)
    requires x == base[p].lft + if d > 0 then 1 else if d < 0 then 2 * |batch| else 1 + 2 * IndexOf(batch, j)
    requires i in u && u[i].deleted == 2
    ensures u[i].lft != x && u[i].rgt != x
  {
    MarkedRowAt(base, p, batch, i);
    if d == 0 {
      OtherPlace(batch, i, j);
    }
  }

  lemma SpoiledFails(base: Table, p: Key, batch: seq<Entry>, u: Table, d: int)
    requires Pending(base, p, batch) && ShiftedBy(Marked(base, p, batch), u, d) && Spoiled(batch, u, d)
    ensures !WellFormed(FlushedRows(u, base[p].lft, 2 * |batch|))
  {
    var j := batch[0].key;
    assert InBatch(batch, j);
    MarkedAt(base, p, batch, j);
    if d == 0 {
      j :| InBatch(batch, j) && j in u && u[j].deleted != 2;
    }
    var x := base[p].lft + if d > 0 then 1 else if d < 0 then 2 * |batch| else 1 + 2 * IndexOf(batch, j);
    PendingFits(base, p, batch);
    SameSize(u, Marked(base, p, batch));
    forall i | i in u && u[i].deleted >= 2
      ensures u[i].lft != x && u[i].rgt != x
    {
      PlaceIsFree(base, p, batch, u, d, j, i, x);
    }
    hide *;
    GapFails(u, base[p].lft, 2 * |batch|, x);
    NotWellFormed(FlushedRows(u, base[p].lft, 2 * |batch|));
  }

  // ----- an item while rows are pending -----

  /** What the query of `_move_parent` answers, when it is sent. */
  ghost predicate Answer(rows: Table, it: Item, c: Option<Key>) {
    var k := ItemKey(it);
    && k in rows && (c.Some? ==> c.value in rows)
    && (NeedsMove(rows[k], it) ==> Found(rows, rows[k].lft, rows[k].rgt, it.parentAcct.value, c))
  }

  /** The loop at an item whose key is in the table, pending rows or not. */
  function Treated(rows: Table, it: Item, c: Option<Key>): Table
    requires ItemKey(it) in rows && (c.Some? ==> c.value in rows)
  {
    var k := ItemKey(it);
    if rows[k].deleted == 0 then rows
    else
      var u := if NeedsMove(rows[k], it) then MoveFound(rows, k, rows[k].parentAcct, it.parentAcct.value, c) else rows;
      u[k := RevivedRow(u[k], it)]
  }

  /** Both moves return early. */
  predicate Stays(rows: Table, k: Key, oldParent: string, parent: string, c: Option<Key>)
    requires k in rows && (c.Some? ==> c.value in rows)
  {
    (c.Some? ==> Skips(rows, c.value, k.cluster, oldParent)) && Skips(rows, k, k.cluster, parent)
  }

  lemma MoveFoundShifts(base: Table, p: Key, batch: seq<Entry>, k: Key, oldParent: string, parent: string,
                        c: Option<Key>)
    returns (d: int)
    requires Pending(base, p, batch) && k in Marked(base, p, batch) && (c.Some? ==> c.value in Marked(base, p, batch))
    ensures ShiftedBy(Marked(base, p, batch), MoveFound(Marked(base, p, batch), k, oldParent, parent, c), d)
  {
    var rows := Marked(base, p, batch);
    MarkedShifted(base, p, batch);
    hide Marked, ShiftedBy, MoveAccountIn, Pending;
    d := 0;
    if c.Some? {
      d := MoveShifts(rows, rows, d, c.value, k.cluster, oldParent);
    }
    d := MoveShifts(rows, if c.Some? then MoveAccountIn(rows, c.value, k.cluster, oldParent) else rows, d, k,
                    k.cluster, parent);
  }

  lemma RevivedShifted(rows: Table, batch: seq<Entry>, u: Table, d: int, k: Key, it: Item)
    requires ShiftedBy(rows, u, d) && k in u
    ensures ShiftedBy(rows, u[k := RevivedRow(u[k], it)], d)
    ensures Spoiled(batch, u, d) || InBatch(batch, k) ==> Spoiled(batch, u[k := RevivedRow(u[k], it)], d)
  {
    var t := u[k := RevivedRow(u[k], it)];
    assert t[k].deleted != 2;
    if d == 0 && exists i :: InBatch(batch, i) && i in u && u[i].deleted != 2 {
      var i :| InBatch(batch, i) && i in u && u[i].deleted != 2;
      assert i in t && t[i].deleted != 2;
    }
  }

  /** An item that repeats a key of the pending group breaks the tree, wherever it moves that row first. */
  lemma RepeatedKeyFails(base: Table, p: Key, batch: seq<Entry>, it: Item, c: Option<Key>)
    requires Pending(base, p, batch) && InBatch(batch, ItemKey(it)) && Answer(Marked(base, p, batch), it, c)
    ensures !WellFormed(FlushedRows(Treated(Marked(base, p, batch), it, c), base[p].lft, 2 * |batch|))
  {
    var rows, k := Marked(base, p, batch), ItemKey(it);
    MarkedRowAt(base, p, batch, k);
    MarkedShifted(base, p, batch);
    var u, d := rows, 0;
    if NeedsMove(rows[k], it) {
      u := MoveFound(rows, k, rows[k].parentAcct, it.parentAcct.value, c);
      d := MoveFoundShifts(base, p, batch, k, rows[k].parentAcct, it.parentAcct.value, c);
    }
    hide Marked, MoveFound, ShiftedBy, Spoiled, Found, WellFormed, FlushedRows;
    RevivedShifted(rows, batch, u, d, k, it);
    SpoiledFails(base, p, batch, u[k := RevivedRow(u[k], it)], d);
  }

  // ----- a move while rows are pending -----

  /** The first pending position lies within a row only if that is around the group's parent or its first
      child, the only way a user can be there. */
  lemma FirstPlace(base: Table, p: Key, k: Key)
    requires WellFormed(base) && p in base && p.user == "" && k in base
    requires base[k].lft <= base[p].lft + 1 <= base[k].rgt
    ensures k.cluster == p.cluster
    ensures k.user != "" ==> base[k].lft == base[p].lft + 1 && p == AcctKey(k.cluster, k.acct)
  {
    if base[k].lft == base[p].lft + 1 {
      NextIsChild(base, k, p);
    } else if k != p {
      assert Apart(base, k, p);
      BetweenIffReaches(base, p, k);
      var n: nat :| ReachesIn(base, p, k, n);
      SameCluster(base, p, k, n);
      if k.user != "" {
        UserHasNoneBelow(base, k, p);
      }
    }
  }

  lemma EntryOfGroup(base: Table, p: Key, batch: seq<Entry>, i: Key)
    requires Pending(base, p, batch) && InBatch(batch, i)
    ensures i.cluster == p.cluster && p.user == "" && i !in base && i.acct != ""
  {
    assert Addable(base, p, batch[IndexOf(batch, i)]);
  }

  lemma NamelessIsMissing(base: Table, p: Key, batch: seq<Entry>, cluster: string)
    requires Pending(base, p, batch)
    ensures AcctKey(cluster, "") !in Marked(base, p, batch)
  {
    MarkedAt(base, p, batch, AcctKey(cluster, ""));
    if InBatch(batch, AcctKey(cluster, "")) {
      EntryOfGroup(base, p, batch, AcctKey(cluster, ""));
    }
  }

  /** What the situation of a move is: row `k` is no pending one, it names another parent than its present
      one, and the query has found `c`. */
  ghost predicate Moving(base: Table, p: Key, batch: seq<Entry>, k: Key, parent: string, c: Option<Key>) {
    && Pending(base, p, batch) && Rooted(base) && k in base && parent != base[k].parentAcct
    && k in Marked(base, p, batch) && (c.Some? ==> c.value in Marked(base, p, batch))
    && Found(Marked(base, p, batch), base[k].lft, base[k].rgt, parent, c)
  }

  /** The account to be moved below is no pending one, or a user is moved there. */
  ghost predicate OldParentOrUser(batch: seq<Entry>, k: Key, parent: string) {
    k.user != "" || !InBatch(batch, AcctKey(k.cluster, parent))
  }

  /** The query has found a pending row, and it moves: of several pending rows the others are unmarked, and a
      single one would be found by its own cluster only. */
  lemma NewFoundSpoils(base: Table, p: Key, batch: seq<Entry>, k: Key, parent: string, c: Key) returns (j: Key)
    requires Moving(base, p, batch, k, parent, Some(c)) && OldParentOrUser(batch, k, parent) && InBatch(batch, c)
    requires !Skips(Marked(base, p, batch), c, k.cluster, base[k].parentAcct)
    ensures InBatch(batch, j) && j in Marked(base, p, batch)
    ensures MoveAccountIn(Marked(base, p, batch), c, k.cluster, base[k].parentAcct)[j].deleted != 2
  {
    var rows := Marked(base, p, batch);
    MarkedRowAt(base, p, batch, c);
    EntryOfGroup(base, p, batch, c);
    if |batch| == 1 {
      assert IndexOf(batch, c) == 0;
      FirstPlace(base, p, k);
      NamelessIsMissing(base, p, batch, k.cluster);
      OldRowMarked(base, p, batch, p);
      assert false;
    } else {
      var n := if IndexOf(batch, c) == 0 then 1 else 0;
      j := batch[n].key;
      assert InBatch(batch, j);
      MarkedRowAt(base, p, batch, j);
      OtherPlace(batch, j, c);
      MarkedShifted(base, p, batch);
      var d := MoveShifts(rows, rows, 0, c, k.cluster, base[k].parentAcct);
    }
  }

  /** The row passed through when it is the one that moves, and one that contains it and starts behind the
      new place. */
  lemma PassedSelf(r: Row, after: int)
    requires 0 <= r.deleted <= 1 && r.lft < r.rgt && after < r.lft
    ensures PassFrom(r, r, after).lft == after + 1 && PassFrom(r, r, after).rgt == after + 1 + r.rgt - r.lft
  {
  }

  lemma PassedAround(r: Row, from: Row, after: int)
    requires 0 <= r.deleted <= 1 && after < r.lft < from.lft < from.rgt < r.rgt
    ensures PassFrom(r, from, after).lft == r.lft + from.rgt - from.lft + 1
  {
  }

  lemma OldParentIsThere(base: Table, p: Key, batch: seq<Entry>, k: Key, c: Key)
    requires Pending(base, p, batch) && k in base && c in base && Between(base, c, k) && c.user == ""
    requires AcctKey(k.cluster, base[k].parentAcct) in Marked(base, p, batch)
    ensures var q := AcctKey(k.cluster, base[k].parentAcct); q in base && Inside(base, k, q)
  {
    NamelessIsMissing(base, p, batch, k.cluster);
    if k.user != "" {
      UserHasNoneBelow(base, k, c);
    }
    assert LinkedRow(base, k);
  }

  /** The query has found the new parent below the account itself: it is moved to the left, and the account
      then stands behind it. */
  lemma OldFoundSpoils(base: Table, p: Key, batch: seq<Entry>, k: Key, parent: string, c: Key) returns (d: int)
    requires Moving(base, p, batch, k, parent, Some(c)) && !InBatch(batch, c)
    requires !Skips(Marked(base, p, batch), c, k.cluster, base[k].parentAcct)
    ensures var u := MoveFound(Marked(base, p, batch), k, base[k].parentAcct, parent, Some(c));
      ShiftedBy(Marked(base, p, batch), u, d) && Spoiled(batch, u, d)
  {
    var rows, q := Marked(base, p, batch), AcctKey(k.cluster, base[k].parentAcct);
    MarkedRowAt(base, p, batch, c);
    OldRowMarked(base, p, batch, k);
    FoundIsNewParent(base, k, parent, c);
    OldParentIsThere(base, p, batch, k, c);
    OldRowMarked(base, p, batch, q);
    MarkedShifted(base, p, batch);
    InBlock(base, k, c);
    var t := MoveAccountIn(rows, c, k.cluster, base[k].parentAcct);
    d := MoveShifts(rows, rows, 0, c, k.cluster, base[k].parentAcct);
    assert d < 0 && t == Passed(rows, c, q);
    assert t[k].lft == PassFrom(base[k], base[c], base[q].lft).lft &&
      t[k].rgt == PassFrom(base[k], base[c], base[q].lft).rgt;
    assert t[c].lft == PassFrom(base[c], base[c], base[q].lft).lft;
    PassedSelf(base[c], base[q].lft);
    if !Skips(t, k, k.cluster, parent) {
      var e := MoveShifts(rows, t, d, k, k.cluster, parent);
      if c == k {
        d := e;
      } else {
        PassedAround(base[k], base[c], base[q].lft);
        var j := batch[0].key;
        assert InBatch(batch, j);
        MarkedAt(base, p, batch, j);
        assert MoveAccountIn(t, k, k.cluster, parent)[j].deleted != 2;
        d := e;
      }
    }
  }

  lemma EndsDiffer(t: Table, i: Key, k: Key)
    requires WellFormed(t) && i in t && k in t
    ensures t[i].lft != t[k].rgt && (t[k].rgt - t[k].lft) % 2 == 1
  {
    SubtreeSize(t, k);
    if i != k {
      assert Apart(t, i, k);
    }
  }

  lemma NewTargetShifts(base: Table, p: Key, k: Key, n: nat)
    requires WellFormed(base) && p in base && p.user == "" && k in base && k.user != ""
    requires base[k].lft <= base[p].lft + 1 <= base[k].rgt
    ensures ShiftOf(base[k], base[p].lft + 1 + 2 * n) != 0
  {
    FirstPlace(base, p, k);
    EndsDiffer(base, k, k);
  }

  /** The move of the row itself: the marked rows it takes along change their place. */
  lemma MainMoveShifts(base: Table, p: Key, batch: seq<Entry>, k: Key, parent: string)
    requires Pending(base, p, batch) && k in base && OldParentOrUser(batch, k, parent)
    requires var q := AcctKey(k.cluster, parent);
      q in Marked(base, p, batch) && Marked(base, p, batch)[q].lft + 1 != base[k].lft
    requires base[k].lft <= base[p].lft + 1 <= base[k].rgt
    ensures ShiftOf(base[k], Marked(base, p, batch)[AcctKey(k.cluster, parent)].lft) != 0
  {
    var q := AcctKey(k.cluster, parent);
    MarkedRowAt(base, p, batch, q);
    if InBatch(batch, q) {
      EntryOfGroup(base, p, batch, q);
      NewTargetShifts(base, p, k, IndexOf(batch, q));
    } else {
      EndsDiffer(base, q, k);
    }
  }

  lemma MainSpoils(base: Table, p: Key, batch: seq<Entry>, k: Key, oldParent: string, parent: string, c: Option<Key>)
    returns (d: int)
    requires Pending(base, p, batch) && k in base && OldParentOrUser(batch, k, parent)
    requires k in Marked(base, p, batch) && (c.Some? ==> c.value in Marked(base, p, batch))
    requires c.Some? ==> Skips(Marked(base, p, batch), c.value, k.cluster, oldParent)
    requires !Skips(Marked(base, p, batch), k, k.cluster, parent)
    ensures var u := MoveFound(Marked(base, p, batch), k, oldParent, parent, c);
      ShiftedBy(Marked(base, p, batch), u, d) && Spoiled(batch, u, d)
  {
    var rows, j := Marked(base, p, batch), batch[0].key;
    assert InBatch(batch, j) && IndexOf(batch, j) == 0;
    MarkedAt(base, p, batch, j);
    MarkedRowAt(base, p, batch, j);
    OldRowMarked(base, p, batch, k);
    MarkedShifted(base, p, batch);
    d := MoveShifts(rows, rows, 0, k, k.cluster, parent);
    if d == 0 && MoveAccountIn(rows, k, k.cluster, parent)[j].deleted == 2 {
      MainMoveShifts(base, p, batch, k, parent);
    }
  }

  /** Whatever `_move_parent` moves while rows are pending, one of their positions stays empty. */
  lemma MovedSpoils(base: Table, p: Key, batch: seq<Entry>, k: Key, parent: string, c: Option<Key>) returns (d: int)
    requires Moving(base, p, batch, k, parent, c) && OldParentOrUser(batch, k, parent)
    requires !Stays(Marked(base, p, batch), k, base[k].parentAcct, parent, c)
    ensures var u := MoveFound(Marked(base, p, batch), k, base[k].parentAcct, parent, c);
      ShiftedBy(Marked(base, p, batch), u, d) && Spoiled(batch, u, d)
  {
    var rows, op := Marked(base, p, batch), base[k].parentAcct;
    if c.None? || Skips(rows, c.value, k.cluster, op) {
      d := MainSpoils(base, p, batch, k, op, parent, c);
    } else if InBatch(batch, c.value) {
      var j := NewFoundSpoils(base, p, batch, k, parent, c.value);
      d := NewFoundShifts(base, p, batch, k, op, parent, c, j);
    } else {
      d := OldFoundSpoils(base, p, batch, k, parent, c.value);
    }
  }

  lemma NewFoundShifts(base: Table, p: Key, batch: seq<Entry>, k: Key, oldParent: string, parent: string,
                       c: Option<Key>, j: Key)
    returns (d: int)
    requires Pending(base, p, batch) && k in Marked(base, p, batch) && c.Some? && c.value in Marked(base, p, batch)
    requires InBatch(batch, j) && j in Marked(base, p, batch)
    requires MoveAccountIn(Marked(base, p, batch), c.value, k.cluster, oldParent)[j].deleted != 2
    ensures var u := MoveFound(Marked(base, p, batch), k, oldParent, parent, c);
      ShiftedBy(Marked(base, p, batch), u, d) && Spoiled(batch, u, d)
  {
    var rows := Marked(base, p, batch);
    MarkedShifted(base, p, batch);
    hide Marked, ShiftedBy, MoveAccountIn, Pending, InBatch;
    d := MoveShifts(rows, rows, 0, c.value, k.cluster, oldParent);
    d := MoveShifts(rows, MoveAccountIn(rows, c.value, k.cluster, oldParent), d, k, k.cluster, parent);
    assert MoveFound(rows, k, oldParent, parent, c)[j].deleted != 2;
  }

  // ----- and exactly then -----

  /** An account whose new parent is a pending row gets a link to a row that nothing can lie in. */
  lemma PendingParentFails(base: Table, p: Key, batch: seq<Entry>, it: Item, c: Option<Key>)
    requires Pending(base, p, batch) && ItemKey(it) in base && it.user == "" && Answer(Marked(base, p, batch), it, c)
    requires base[ItemKey(it)].deleted != 0 && NeedsMove(base[ItemKey(it)], it)
    requires InBatch(batch, AcctKey(it.cluster, it.parentAcct.value))
    ensures !WellFormed(FlushedRows(Treated(Marked(base, p, batch), it, c), base[p].lft, 2 * |batch|))
  {
    var rows, k, q := Marked(base, p, batch), ItemKey(it), AcctKey(it.cluster, it.parentAcct.value);
    OldRowMarked(base, p, batch, k);
    MarkedRowAt(base, p, batch, q);
    EntryOfGroup(base, p, batch, q);
    var d := MoveFoundShifts(base, p, batch, k, rows[k].parentAcct, it.parentAcct.value, c);
    var u := MoveFound(rows, k, rows[k].parentAcct, it.parentAcct.value, c);
    var t := u[k := RevivedRow(u[k], it)];
    assert t == Treated(rows, it, c) && t[k].parentAcct == q.acct;
    hide Marked, MoveFound, RevivedRow, Treated, Pending, Answer, Spoiled, WellFormed, FlushedRows;
    RevivedShifted(rows, batch, u, d, k, it);
    if t[q].deleted != 2 {
      assert Spoiled(batch, t, d) by { UnmarkedSpoils(batch, t, d, q); }
      SpoiledFails(base, p, batch, t, d);
    } else {
      NothingInPair(t, k, q, base[p].lft, 2 * |batch|);
    }
  }

  lemma UnmarkedSpoils(batch: seq<Entry>, u: Table, d: int, i: Key)
    requires InBatch(batch, i) && i in u && u[i].deleted != 2
    ensures Spoiled(batch, u, d)
  {
  }

  lemma NothingInPair(t: Table, k: Key, q: Key, myLeft: int, incr: int)
    requires k in t && q in t && k.user == "" && q == AcctKey(k.cluster, t[k].parentAcct) && q.acct != ""
    requires t[q].deleted == 2 && t[q].rgt == t[q].lft + 1
    ensures !WellFormed(FlushedRows(t, myLeft, incr))
  {
    var m := FlushedRows(t, myLeft, incr);
    assert m[q].lft == t[q].lft && m[q].rgt == t[q].rgt && m[k].parentAcct == t[k].parentAcct;
    assert m[k].lft < m[k].rgt ==> !LinkedRow(m, k);
  }

  /** A row of the table comes back where it is: that fits if its link is the one it had, or a user's. */
  lemma InPlaceIff(base: Table, p: Key, batch: seq<Entry>, it: Item)
    requires Pending(base, p, batch) && ItemKey(it) in base && ItemKey(it) in Marked(base, p, batch)
    ensures var rows, k := Marked(base, p, batch), ItemKey(it);
      WellFormed(FlushedRows(rows[k := RevivedRow(rows[k], it)], base[p].lft, 2 * |batch|)) <==>
        it.user != "" || base[k].parentAcct == ItemParent(it)
  {
    var k := ItemKey(it);
    var r := RevivedRow(base[k], it);
    OldRowMarked(base, p, batch, k);
    if InBatch(batch, k) {
      EntryOfGroup(base, p, batch, k);
    }
    RevivedMarked(base, p, batch, k, r);
    var b := base[k := r];
    FlushIsAddBatch(b, p, batch, Marked(b, p, batch));
    assert FlushedRows(Marked(b, p, batch), b[p].lft, 2 * |batch|) == AddBatch(b, p, batch);
    hide Marked, FlushedRows;
    ReviveFlushIff(base, p, batch, k, r);
  }

  lemma ReviveFlushIff(base: Table, p: Key, batch: seq<Entry>, k: Key, r: Row)
    requires Pending(base, p, batch) && k in base && !InBatch(batch, k)
    requires r.lft == base[k].lft && r.rgt == base[k].rgt && 0 <= r.deleted <= 1
    requires k.user != "" ==> r.parentAcct == base[k].parentAcct
    ensures WellFormed(AddBatch(base[k := r], p, batch)) <==> r.parentAcct == base[k].parentAcct
  {
    RevivedAddable(base, p, batch, k, r);
    if r.parentAcct == base[k].parentAcct {
      UpdatedWellFormed(base, base[k := r]);
      AddBatchWellFormed(base[k := r], p, batch);
    } else {
      AddBatchWellFormed(base, p, batch);
      SameIntervals(base, p, batch, k, r);
      hide *;
      OtherLinkFails(AddBatch(base, p, batch), AddBatch(base[k := r], p, batch), k);
    }
  }

  lemma SameIntervals(base: Table, p: Key, batch: seq<Entry>, k: Key, r: Row)
    requires p in base && k in base && !InBatch(batch, k) && r.lft == base[k].lft && r.rgt == base[k].rgt
    ensures var m, n := AddBatch(base, p, batch), AddBatch(base[k := r], p, batch);
      && n.Keys == m.Keys && k in m && (forall i <- m :: n[i].lft == m[i].lft && n[i].rgt == m[i].rgt)
      && m[k].parentAcct == base[k].parentAcct && n[k].parentAcct == r.parentAcct
  {
    var m, n := AddBatch(base, p, batch), AddBatch(base[k := r], p, batch);
    forall i
      ensures i in m <==> i in n
      ensures i in m ==> m[i].lft == n[i].lft && m[i].rgt == n[i].rgt
    {
      AddedAt(base, p, batch, i);
      AddedAt(base[k := r], p, batch, i);
    }
    AddedAt(base, p, batch, k);
    AddedAt(base[k := r], p, batch, k);
  }

  lemma OtherLinkFails(m: Table, n: Table, k: Key)
    requires WellFormed(m) && n.Keys == m.Keys && (forall i <- m :: n[i].lft == m[i].lft && n[i].rgt == m[i].rgt)
    requires k in m && k.user == "" && n[k].parentAcct != m[k].parentAcct
    ensures !WellFormed(n)
  {
    assert LinkedRow(m, k);
    if LinkedRow(n, k) {
      LinkIsUnique(m, n, k);
    }
  }

  /** What an item has to keep to while rows are pending: its key is none of theirs; a row that comes back
      and names another parent is a user's, and both moves return early; an account that comes back without
      a parent is below "root". */
  ghost predicate Fits(base: Table, p: Key, batch: seq<Entry>, it: Item, c: Option<Key>)
    requires p in base && Answer(Marked(base, p, batch), it, c)
  {
    var rows, k := Marked(base, p, batch), ItemKey(it);
    && !InBatch(batch, k)
    && (rows[k].deleted == 0 ||
        if NeedsMove(rows[k], it) then it.user != "" && Stays(rows, k, rows[k].parentAcct, it.parentAcct.value, c)
        else it.user != "" || rows[k].parentAcct == ItemParent(it))
  }

  /** A user that comes back naming a parent that nobody is called fits, if it has not moved before. */
  lemma NobodyNamedFits(base: Table, p: Key, batch: seq<Entry>, it: Item, c: Option<Key>)
    requires Pending(base, p, batch) && Answer(Marked(base, p, batch), it, c)
    requires ItemKey(it) in base && it.user != "" && base[ItemKey(it)].parentAcct == ""
    requires it.parentAcct.Some? && AcctKey(it.cluster, it.parentAcct.value) !in Marked(base, p, batch)
    ensures Fits(base, p, batch, it, c)
  {
    OldRowMarked(base, p, batch, ItemKey(it));
    NamelessIsMissing(base, p, batch, it.cluster);
    if InBatch(batch, ItemKey(it)) {
      EntryOfGroup(base, p, batch, ItemKey(it));
    }
  }

  /** An item that finds its key in the table while rows are pending, and the flush behind it: they leave a
      well-formed table if and only if the item fits. */
  lemma TreatedKeepsTreeIff(base: Table, p: Key, batch: seq<Entry>, it: Item, c: Option<Key>)
    requires Pending(base, p, batch) && Rooted(base) && Answer(Marked(base, p, batch), it, c)
    ensures WellFormed(FlushedRows(Treated(Marked(base, p, batch), it, c), base[p].lft, 2 * |batch|)) <==>
      Fits(base, p, batch, it, c)
  {
    var rows, k := Marked(base, p, batch), ItemKey(it);
    if InBatch(batch, k) {
      RepeatedKeyFails(base, p, batch, it, c);
    } else {
      MarkedAt(base, p, batch, k);
      if rows[k].deleted == 0 {
        AddBatchWellFormed(base, p, batch);
        FlushIsAddBatch(base, p, batch, rows);
      } else {
        RevivedKeepsTreeIff(base, p, batch, it, c);
      }
    }
  }

  /** The same for the loop between two flushes. */
  lemma StepKeepsTreeIff(g: Progress, rows: Table, it: Item, c: Option<Key>)
    requires InStep(g) && RowsOf(g, rows) && g.batch != [] && Rooted(g.base) && Answer(rows, it, c)
    ensures WellFormed(FlushedRows(Treated(rows, it, c), g.base[g.group].lft, 2 * |g.batch|)) <==>
      Fits(g.base, g.group, g.batch, it, c)
  {
    TreatedKeepsTreeIff(g.base, g.group, g.batch, it, c);
  }

  /** What a caller sees to in terms of names and links is enough for that. */
  lemma OkItemFits(g: Progress, rows: Table, it: Item, c: Option<Key>)
    requires InStep(g) && RowsOf(g, rows) && g.batch != [] && Answer(rows, it, c)
    requires ItemOk(g.plain, g.open, it)
    ensures Fits(g.base, g.group, g.batch, it, c)
  {
    var k := ItemKey(it);
    RowsOfAt(g, rows, k);
    OldRowAt(g, it);
    RowsOfAt(g, rows, k);
    if rows[k].deleted != 0 && NeedsMove(rows[k], it) {
      assert g.batch[0].key in g.open.keys;
      StaysPutStays(g, rows, it, c);
    }
  }

  lemma StaysPutStays(g: Progress, rows: Table, it: Item, c: Option<Key>)
    requires OldRow(g, it) && RowsOf(g, rows) && StaysPut(g.plain, g.open, it) && Answer(rows, it, c)
    requires NeedsMove(rows[ItemKey(it)], it)
    ensures Stays(rows, ItemKey(it), rows[ItemKey(it)].parentAcct, it.parentAcct.value, c)
  {
    hide InStep, RowsOf, OldRow, ItemOk;
    var k, v := ItemKey(it), it.parentAcct.value;
    StepOfOldRow(g, it);
    OldRowAt(g, it);
    RowsOfAt(g, rows, k);
    RowsOfAt(g, rows, AcctKey(it.cluster, v));
    RowsOfAt(g, rows, AcctKey(it.cluster, ""));
    NoNamelessAccount(g, it.cluster);
    if c.Some? {
      RowsOfAt(g, rows, c.value);
      FoundIsNew(g, it, c.value, rows[k].lft, rows[k].rgt);
    }
  }

  lemma StepOfOldRow(g: Progress, it: Item)
    requires OldRow(g, it)
    ensures InStep(g)
  {
  }

  lemma RevivedKeepsTreeIff(base: Table, p: Key, batch: seq<Entry>, it: Item, c: Option<Key>)
    requires Pending(base, p, batch) && Rooted(base) && Answer(Marked(base, p, batch), it, c)
    requires ItemKey(it) in base && !InBatch(batch, ItemKey(it)) && base[ItemKey(it)].deleted != 0
    ensures WellFormed(FlushedRows(Treated(Marked(base, p, batch), it, c), base[p].lft, 2 * |batch|)) <==>
      Fits(base, p, batch, it, c)
  {
    var rows, k := Marked(base, p, batch), ItemKey(it);
    OldRowMarked(base, p, batch, k);
    hide Marked, WellFormed, FlushedRows, MoveFound;
    if !NeedsMove(base[k], it) || Stays(rows, k, base[k].parentAcct, it.parentAcct.value, c) {
      if NeedsMove(base[k], it) {
        StaysIs(rows, k, base[k].parentAcct, it.parentAcct.value, c);
      }
      InPlaceIff(base, p, batch, it);
    } else {
      MoveWhilePendingFails(base, p, batch, it, c);
    }
  }

  lemma StaysIs(rows: Table, k: Key, oldParent: string, parent: string, c: Option<Key>)
    requires k in rows && (c.Some? ==> c.value in rows) && Stays(rows, k, oldParent, parent, c)
    ensures MoveFound(rows, k, oldParent, parent, c) == rows
  {
  }

  /** An item that moves anything while rows are pending breaks the tree, in one move or in two. */
  lemma MoveWhilePendingFails(base: Table, p: Key, batch: seq<Entry>, it: Item, c: Option<Key>)
    requires Pending(base, p, batch) && Rooted(base) && Answer(Marked(base, p, batch), it, c)
    requires ItemKey(it) in base && base[ItemKey(it)].deleted != 0 && NeedsMove(base[ItemKey(it)], it)
    requires !Stays(Marked(base, p, batch), ItemKey(it), base[ItemKey(it)].parentAcct, it.parentAcct.value, c)
    ensures !WellFormed(FlushedRows(Treated(Marked(base, p, batch), it, c), base[p].lft, 2 * |batch|))
  {
    var rows, k, v := Marked(base, p, batch), ItemKey(it), it.parentAcct.value;
    OldRowMarked(base, p, batch, k);
    if OldParentOrUser(batch, k, v) {
      var d := MovedSpoils(base, p, batch, k, v, c);
      var u := MoveFound(rows, k, base[k].parentAcct, v, c);
      hide Marked, WellFormed, FlushedRows, MoveFound, Stays, ShiftedBy, Spoiled;
      RevivedShifted(rows, batch, u, d, k, it);
      SpoiledFails(base, p, batch, u[k := RevivedRow(u[k], it)], d);
    } else {
      PendingParentFails(base, p, batch, it, c);
    }
  }

  /** A new row joins the pending ones: the flush leaves a well-formed table if and only if its account has a
      name and, for a user, is the parent. */
  lemma NewRowKeepsTreeIff(base: Table, p: Key, batch: seq<Entry>, it: Item)
    requires WellFormed(base) && p in base && BatchAddable(base, p, batch)
    requires ItemKey(it) !in base && !InBatch(batch, ItemKey(it)) && ParentOfItem(it) == p
    ensures WellFormed(AddBatch(base, p, batch + [ItemEntry(it)])) <==>
      it.acct != "" && (it.user != "" ==> ItemParent(it) == it.acct)
  {
    var e := ItemEntry(it);
    var m := AddBatch(base, p, batch + [e]);
    if it.acct != "" && (it.user != "" ==> ItemParent(it) == it.acct) {
      ItemAddable(base, it);
      GrownAddable(base, p, batch, e);
      AddBatchWellFormed(base, p, batch + [e]);
    } else if it.acct != "" {
      WrongGroupFails(base, p, batch, e);
    } else {
      assert InBatch(batch + [e], (batch + [e])[|batch|].key);
      AddedAt(base, p, batch + [e], e.key);
    }
  }

  lemma NotLinked(t: Table, k: Key, p: Key)
    requires k in t && p in t && k.user != "" && p != AcctKey(k.cluster, k.acct) && Inside(t, k, p)
    requires var a := AcctKey(k.cluster, k.acct); a in t ==> !(Inside(t, k, a) && Inside(t, a, p))
    ensures !WellFormed(t)
  {
    assert !LinkedRow(t, k);
  }

  /** A row in the group of another parent than its own lies inside that parent, which its link does not name. */
  lemma WrongGroupFails(base: Table, p: Key, batch: seq<Entry>, e: Entry)
    requires WellFormed(base) && p in base && BatchAddable(base, p, batch) && e.key !in base && !InBatch(batch, e.key)
    requires e.key.user != "" && p != AcctKey(e.key.cluster, e.key.acct)
    ensures !WellFormed(AddBatch(base, p, batch + [e]))
  {
    var all, m, a := batch + [e], AddBatch(base, p, batch + [e]), AcctKey(e.key.cluster, e.key.acct);
    forall i | 0 <= i < |batch|
      ensures batch[i].key != e.key && all[i].key !in base
    {
      assert batch[i].key == batch[i].key && Addable(base, p, batch[i]);
    }
    assert all[|batch|].key == e.key && InBatch(all, e.key) && IndexOf(all, e.key) == |batch|;
    assert !InBatch(all, p);
    AddedAt(base, p, all, e.key);
    AddedAt(base, p, all, p);
    AddedAt(base, p, all, a);
    hide AddBatch, BatchAddable;
    assert Inside(m, e.key, p);
    assert a in m ==> !(Inside(m, e.key, a) && Inside(m, a, p));
    hide *;
    NotLinked(m, e.key, p);
  }
}
