/** Deleting subtrees one after the other while the numbers shift: the loop of `_remove_common`. */
module TreeRemove {
  import opened NestedSet

  function Close(x: int, rgt: int, width: int): int {
    if x > rgt then x - width else x
  }

  /** One round: drop the rows between lft and rgt and close the gap; a row that is gone is skipped. */
  function RemoveSubtree(t: Table, k: Key): Table {
    if k !in t then t
    else
      var width := t[k].rgt - t[k].lft + 1;
      map i <- t | !(t[k].lft <= t[i].lft <= t[k].rgt) ::
        t[i].(lft := Close(t[i].lft, t[k].rgt, width), rgt := Close(t[i].rgt, t[k].rgt, width))
  }

  /** The whole loop, over ids in the order they come. */
  function RemoveEach(t: Table, ids: seq<Key>): Table
    decreases |ids|
  {
    if ids == [] then t else RemoveEach(RemoveSubtree(t, ids[0]), ids[1..])
  }

  // ----- counting the rows of a subtree -----

  ghost function Subtree(t: Table, k: Key): Table
    requires k in t
  {
    map i <- t | Between(t, i, k) :: t[i]
  }

  lemma SubtreeEnds(t: Table, k: Key, i: Key)
    requires Numbered(t) && k in t && i in t
    ensures Between(t, i, k) <==> i == k || Inside(t, i, k)
    ensures !Between(t, i, k) ==> !(t[k].lft <= t[i].rgt <= t[k].rgt)
  {
    if i != k {
      assert Apart(t, i, k);
    }
  }

  lemma SubtreeNumbered(t: Table, k: Key)
    requires Numbered(t) && k in t
    ensures Laminar(Subtree(t, k)) && Ranged(Subtree(t, k), 2 * |t|)
  {
    var s := Subtree(t, k);
    forall i, j | i in s && j in s && i != j
      ensures Apart(s, i, j)
    {
      assert Apart(t, i, j);
    }
  }

  lemma SubtreeEndPoints(t: Table, k: Key)
    requires Numbered(t) && k in t
    ensures EndPoints(Subtree(t, k)) == Interval(t[k].lft, t[k].rgt)
  {
    var s := Subtree(t, k);
    NumberingIsGapFree(t);
    forall x | x in EndPoints(s)
      ensures t[k].lft <= x <= t[k].rgt
    {
      var i :| i in s && (x == s[i].lft || x == s[i].rgt);
      SubtreeEnds(t, k, i);
    }
    forall x | t[k].lft <= x <= t[k].rgt
      ensures x in EndPoints(s)
    {
      assert x in EndPoints(t);
      var i :| i in t && (x == t[i].lft || x == t[i].rgt);
      SubtreeEnds(t, k, i);
      assert i in s;
    }
  }

  /** A subtree has half as many rows as its interval has positions. */
  lemma SubtreeSize(t: Table, k: Key)
    requires Numbered(t) && k in t
    ensures 2 * |Subtree(t, k)| == t[k].rgt - t[k].lft + 1
  {
    SubtreeNumbered(t, k);
    EndPointCount(Subtree(t, k), 2 * |t|);
    SubtreeEndPoints(t, k);
  }

  lemma RemovedCount(t: Table, k: Key)
    requires Numbered(t) && k in t
    ensures 2 * |RemoveSubtree(t, k)| == 2 * |t| - (t[k].rgt - t[k].lft + 1)
  {
    var m, s := RemoveSubtree(t, k), Subtree(t, k);
    SubtreeSize(t, k);
    assert m.Keys == t.Keys - s.Keys;
    assert s.Keys <= t.Keys;
    assert |m| == |m.Keys| && |t| == |t.Keys| && |s| == |s.Keys|;
  }

  // ----- one round -----

  lemma RemovedPair(t: Table, k: Key, i: Key, j: Key)
    requires Numbered(t) && k in t && i in t && j in t && i != j && !Between(t, i, k) && !Between(t, j, k)
    ensures var m := RemoveSubtree(t, k);
      && Apart(m, i, j)
      && (Inside(m, i, j) <==> Inside(t, i, j))
      && (m[i].lft < m[j].lft <==> t[i].lft < t[j].lft)
  {
    SubtreeEnds(t, k, i);
    SubtreeEnds(t, k, j);
    assert Apart(t, i, k) && Apart(t, j, k) && Apart(t, i, j);
  }

  lemma RemovedNumbered(t: Table, k: Key)
    requires Numbered(t) && k in t
    ensures Numbered(RemoveSubtree(t, k))
  {
    var m := RemoveSubtree(t, k);
    RemovedCount(t, k);
    forall i | i in m
      ensures 1 <= m[i].lft < m[i].rgt <= 2 * |m|
    {
      SubtreeEnds(t, k, i);
      assert Apart(t, i, k);
    }
    forall i, j | i in m && j in m && i != j
      ensures Apart(m, i, j)
    {
      RemovedPair(t, k, i, j);
    }
  }

  lemma RemovedLinked(t: Table, k: Key, c: Key)
    requires WellFormed(t) && k in t && c in t && !Between(t, c, k)
    ensures LinkedRow(RemoveSubtree(t, k), c)
  {
    var m := RemoveSubtree(t, k);
    assert LinkedRow(t, c);
    if IsRoot(c, t[c]) {
      forall q | q in m
        ensures !Inside(m, c, q)
      {
        if q != c {
          RemovedPair(t, k, c, q);
        }
      }
    } else {
      var p := ParentKey(c, t[c]);
      SubtreeEnds(t, k, p);
      SubtreeEnds(t, k, c);
      RemovedPair(t, k, c, p);
      forall q | q in m && Inside(m, c, q)
        ensures q == p || Inside(m, p, q)
      {
        RemovedPair(t, k, c, q);
        if q != p {
          RemovedPair(t, k, p, q);
        }
      }
    }
  }

  lemma RemoveSubtreeWellFormed(t: Table, k: Key)
    requires WellFormed(t)
    ensures WellFormed(RemoveSubtree(t, k))
  {
    if k in t {
      RemovedNumbered(t, k);
      forall c | c in RemoveSubtree(t, k)
        ensures LinkedRow(RemoveSubtree(t, k), c)
      {
        RemovedLinked(t, k, c);
      }
    }
  }

  // ----- the loop -----

  /** Some row of `ids` is `i` itself or above it. */
  ghost predicate Doomed(t: Table, ids: seq<Key>, i: Key) {
    exists s {:trigger Reaches(t, i, s)} :: s in ids && s in t && Reaches(t, i, s)
  }

  /** The rows that survive keep their columns, order and nesting. */
  ghost predicate Survives(t: Table, m: Table, i: Key) {
    i in t && i in m && m[i].(lft := 0, rgt := 0) == t[i].(lft := 0, rgt := 0)
  }

  ghost predicate SameOrder(t: Table, m: Table, i: Key, j: Key)
    requires i in t && i in m && j in t && j in m
  {
    && (m[i].lft < m[j].lft <==> t[i].lft < t[j].lft)
    && (Inside(m, i, j) <==> Inside(t, i, j))
  }

  lemma RemovedReaches(t: Table, k: Key, i: Key, a: Key)
    requires WellFormed(t) && k in t && i in t && a in t
    requires !Between(t, i, k)
    ensures Reaches(t, i, a) ==> !Between(t, a, k)
    ensures !Between(t, a, k) ==> (Reaches(RemoveSubtree(t, k), i, a) <==> Reaches(t, i, a))
  {
    var m := RemoveSubtree(t, k);
    RemoveSubtreeWellFormed(t, k);
    BetweenIffReaches(t, i, a);
    SubtreeEnds(t, k, i);
    SubtreeEnds(t, k, a);
    if !Between(t, a, k) {
      BetweenIffReaches(m, i, a);
      if i != a {
        RemovedPair(t, k, i, a);
      }
    }
  }

  lemma DoomedStep(t: Table, ids: seq<Key>, i: Key)
    requires WellFormed(t) && i in t && ids != []
    ensures Doomed(t, ids, i) <==>
      i !in RemoveSubtree(t, ids[0]) || Doomed(RemoveSubtree(t, ids[0]), ids[1..], i)
  {
    var k, m := ids[0], RemoveSubtree(t, ids[0]);
    if k in t {
      BetweenIffReaches(t, i, k);
    }
    if i in m {
      if Doomed(t, ids, i) {
        var s :| s in ids && s in t && Reaches(t, i, s);
        if k in t {
          RemovedReaches(t, k, i, s);
        }
        assert s in ids[1..];
      }
      if Doomed(m, ids[1..], i) {
        var s :| s in ids[1..] && s in m && Reaches(m, i, s);
        if k in t {
          RemovedReaches(t, k, i, s);
        }
        assert s in ids;
      }
    }
  }

  lemma RemoveStepKeeps(t: Table, k: Key, i: Key, j: Key)
    requires WellFormed(t) && i in RemoveSubtree(t, k) && j in RemoveSubtree(t, k)
    ensures Survives(t, RemoveSubtree(t, k), i) && SameOrder(t, RemoveSubtree(t, k), i, j)
  {
    if k in t && i != j {
      RemovedPair(t, k, i, j);
    }
  }

  /** Whatever the order of the ids, exactly the rows with no selected row at or above them stay. */
  lemma {:induction false} RemoveEachKeepsTheRest(t: Table, ids: seq<Key>, i: Key)
    requires WellFormed(t)
    ensures WellFormed(RemoveEach(t, ids))
    ensures i in RemoveEach(t, ids) <==> i in t && !Doomed(t, ids, i)
    ensures i in RemoveEach(t, ids) ==> Survives(t, RemoveEach(t, ids), i)
    decreases |ids|
  {
    if ids != [] {
      var m := RemoveSubtree(t, ids[0]);
      RemoveSubtreeWellFormed(t, ids[0]);
      RemoveEachKeepsTheRest(m, ids[1..], i);
      if i in t {
        DoomedStep(t, ids, i);
        if i in m {
          RemoveStepKeeps(t, ids[0], i, i);
        }
      }
    }
  }

  lemma {:induction false} RemoveEachKeepsOrder(t: Table, ids: seq<Key>, i: Key, j: Key)
    requires WellFormed(t) && i in RemoveEach(t, ids) && j in RemoveEach(t, ids)
    ensures i in t && j in t && SameOrder(t, RemoveEach(t, ids), i, j)
    decreases |ids|
  {
    if ids != [] {
      var m := RemoveSubtree(t, ids[0]);
      RemoveSubtreeWellFormed(t, ids[0]);
      RemoveEachKeepsOrder(m, ids[1..], i, j);
      RemoveStepKeeps(t, ids[0], i, j);
    }
  }
}
