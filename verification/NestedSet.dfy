/** The association table: every row is stored with a link to its parent
    (by name) and with an interval lft..rgt.  This module says what it means
    for the two to agree, and proves that they then answer the same questions. */
module NestedSet {

  datatype Limit = MaxJobs | MaxSubmitJobs | MaxCpusPerJob | MaxNodesPerJob | MaxWallPerJob | MaxCpuMinsPerJob

  /** The unique index of the table.  A row of an account has user "" and partition "". */
  datatype Key = Key(cluster: string, acct: string, user: string, partition: string)

  /** The columns the tree does not look at.  A limit that is NULL is absent from `limits`. */
  datatype Info = Info(limits: map<Limit, int>, qos: string, deltaQos: string, created: int)

  datatype Row = Row(parentAcct: string, lft: int, rgt: int, deleted: int, info: Info)

  type Table = map<Key, Row>

  function AcctKey(cluster: string, acct: string): Key {
    Key(cluster, acct, "", "")
  }

  predicate IsRoot(k: Key, r: Row) {
    k.user == "" && r.parentAcct == ""
  }

  /** A user hangs below its account, an account below its `parent_acct`. */
  function ParentKey(k: Key, r: Row): Key {
    AcctKey(k.cluster, if k.user != "" then k.acct else r.parentAcct)
  }

  // ----- intervals -----

  predicate Inside(t: Table, i: Key, j: Key)
    requires i in t && j in t
  {
    t[j].lft < t[i].lft && t[i].rgt < t[j].rgt
  }

  /** The test `lft between a.lft and a.rgt` used by every subtree query. */
  predicate Between(t: Table, d: Key, a: Key)
    requires d in t && a in t
  {
    t[a].lft <= t[d].lft <= t[a].rgt
  }

  /** Two intervals are disjoint or one lies strictly within the other. */
  predicate Apart(t: Table, i: Key, j: Key)
    requires i in t && j in t
  {
    || t[i].rgt < t[j].lft
    || t[j].rgt < t[i].lft
    || Inside(t, i, j)
    || Inside(t, j, i)
  }

  ghost predicate Ranged(t: Table, last: int) {
    forall i <- t :: 1 <= t[i].lft < t[i].rgt <= last
  }

  ghost predicate Laminar(t: Table) {
    forall i, j {:trigger Apart(t, i, j)} :: i in t && j in t && i != j ==> Apart(t, i, j)
  }

  /** n intervals within 1..2n, any two of them nested or disjoint. */
  ghost predicate Numbered(t: Table) {
    Ranged(t, 2 * |t|) && Laminar(t)
  }

  // ----- parent links -----

  /** The link of `c` names the innermost interval around `c`, and a root has none around it. */
  ghost predicate LinkedRow(t: Table, c: Key)
    requires c in t
  {
    if IsRoot(c, t[c]) then
      forall q {:trigger Inside(t, c, q)} :: q in t ==> !Inside(t, c, q)
    else
      var p := ParentKey(c, t[c]);
      p in t && Inside(t, c, p) &&
      forall q {:trigger Inside(t, c, q)} :: q in t && Inside(t, c, q) ==> q == p || Inside(t, p, q)
  }

  ghost predicate Linked(t: Table) {
    forall c {:trigger LinkedRow(t, c)} :: c in t ==> LinkedRow(t, c)
  }

  ghost predicate Named(t: Table) {
    forall k <- t :: k.acct != "" && (k.user == "" ==> k.partition == "")
  }

  ghost predicate Flagged(t: Table) {
    forall k <- t :: 0 <= t[k].deleted <= 1
  }

  ghost predicate WellFormed(t: Table) {
    Numbered(t) && Linked(t) && Named(t) && Flagged(t)
  }

  /** `a` is `n` parent links above `d`.  Only names are read here, no interval. */
  ghost predicate ReachesIn(t: Table, d: Key, a: Key, n: nat)
    decreases n
  {
    d in t && if n == 0 then d == a else !IsRoot(d, t[d]) && ReachesIn(t, ParentKey(d, t[d]), a, n - 1)
  }

  ghost predicate Reaches(t: Table, d: Key, a: Key) {
    exists n: nat :: ReachesIn(t, d, a, n)
  }

  // ----- the two views agree -----

  /** A subtree stays within one cluster. */
  lemma {:induction false} SameCluster(t: Table, d: Key, a: Key, n: nat)
    requires ReachesIn(t, d, a, n)
    ensures d.cluster == a.cluster
    decreases n
  {
    if n > 0 {
      SameCluster(t, ParentKey(d, t[d]), a, n - 1);
    }
  }

  lemma {:induction false} ReachedIsAround(t: Table, d: Key, a: Key, n: nat)
    requires WellFormed(t) && ReachesIn(t, d, a, n)
    ensures a in t && (if n == 0 then a == d else Inside(t, d, a))
    decreases n
  {
    if n > 0 {
      assert LinkedRow(t, d);
      ReachedIsAround(t, ParentKey(d, t[d]), a, n - 1);
    }
  }

  lemma {:induction false} AroundIsReached(t: Table, d: Key, a: Key) returns (n: nat)
    requires WellFormed(t) && d in t && a in t && Between(t, d, a)
    ensures ReachesIn(t, d, a, n)
    decreases t[d].lft
  {
    if d == a {
      n := 0;
    } else {
      assert Apart(t, d, a);
      assert Inside(t, d, a);
      assert LinkedRow(t, d);
      var p := ParentKey(d, t[d]);
      var m := AroundIsReached(t, p, a);
      n := m + 1;
    }
  }

  /** The interval test answers exactly the question "is `a` an ancestor of `d`, or `d` itself?". */
  lemma BetweenIffReaches(t: Table, d: Key, a: Key)
    requires WellFormed(t) && d in t && a in t
    ensures Between(t, d, a) <==> Reaches(t, d, a)
    ensures Reaches(t, d, a) <==> d == a || Inside(t, d, a)
  {
    if Reaches(t, d, a) {
      var n: nat :| ReachesIn(t, d, a, n);
      ReachedIsAround(t, d, a, n);
    }
    if Between(t, d, a) {
      var n := AroundIsReached(t, d, a);
    }
  }

  /** Same rows with the same links, flags and columns: only the numbering may differ. */
  ghost predicate SameTree(t: Table, u: Table) {
    t.Keys == u.Keys && forall k <- t :: t[k].(lft := 0, rgt := 0) == u[k].(lft := 0, rgt := 0)
  }

  lemma {:induction false} SameTreeReachesIn(t: Table, u: Table, d: Key, a: Key, n: nat)
    requires SameTree(t, u)
    ensures ReachesIn(t, d, a, n) <==> ReachesIn(u, d, a, n)
    decreases n
  {
    if d in t {
      assert t[d].(lft := 0, rgt := 0) == u[d].(lft := 0, rgt := 0);
      if n > 0 {
        SameTreeReachesIn(t, u, ParentKey(d, t[d]), a, n - 1);
      }
    }
  }

  lemma SameTreeReaches(t: Table, u: Table, d: Key, a: Key)
    requires SameTree(t, u)
    ensures Reaches(t, d, a) <==> Reaches(u, d, a)
  {
    forall n: nat
      ensures ReachesIn(t, d, a, n) <==> ReachesIn(u, d, a, n)
    {
      SameTreeReachesIn(t, u, d, a, n);
    }
  }

  /** Two well-formed numberings of the same links differ at most in the order of siblings. */
  lemma LinksDetermineNesting(t: Table, u: Table, d: Key, a: Key)
    requires WellFormed(t) && WellFormed(u) && SameTree(t, u) && d in t && a in t
    ensures Between(t, d, a) <==> Between(u, d, a)
  {
    BetweenIffReaches(t, d, a);
    BetweenIffReaches(u, d, a);
    SameTreeReaches(t, u, d, a);
  }

  // ----- one tree for each cluster -----

  /** The only root of a cluster is its account "root", and a user with a `parent_acct` has its account there. */
  ghost predicate Rooted(t: Table) {
    forall k <- t ::
      && (IsRoot(k, t[k]) ==> k.acct == "root")
      && (k.user != "" ==> t[k].parentAcct == "" || t[k].parentAcct == k.acct)
  }

  lemma {:induction false} RootIsAbove(t: Table, k: Key)
    requires WellFormed(t) && Rooted(t) && k in t
    ensures var root := AcctKey(k.cluster, "root"); root in t && (k == root || Inside(t, k, root))
    decreases t[k].lft
  {
    assert LinkedRow(t, k);
    if !IsRoot(k, t[k]) {
      RootIsAbove(t, ParentKey(k, t[k]));
    }
  }

  lemma RootedLinks(t: Table, u: Table)
    requires Rooted(t) && u.Keys <= t.Keys && forall k <- u :: u[k].parentAcct == t[k].parentAcct
    ensures Rooted(u)
  {
  }

  /** An update that leaves links and intervals alone cannot break the table. */
  lemma UpdatedWellFormed(t: Table, u: Table)
    requires WellFormed(t) && Flagged(u) && u.Keys == t.Keys
    requires forall k <- t :: u[k].parentAcct == t[k].parentAcct && u[k].lft == t[k].lft && u[k].rgt == t[k].rgt
    ensures WellFormed(u)
  {
    assert |u| == |u.Keys| == |t.Keys| == |t|;
    forall i, j | i in u && j in u && i != j
      ensures Apart(u, i, j)
    {
      assert Apart(t, i, j);
    }
    forall c | c in u
      ensures LinkedRow(u, c)
    {
      assert LinkedRow(t, c);
      forall q | q in u
        ensures Inside(u, c, q) <==> Inside(t, c, q)
      {
      }
      if !IsRoot(c, t[c]) {
        var p := ParentKey(c, t[c]);
        forall q | q in u
          ensures Inside(u, p, q) <==> Inside(t, p, q)
        {
        }
      }
    }
  }

  // ----- the numbering has no gaps -----

  ghost function EndPoints(t: Table): set<int> {
    (set k <- t :: t[k].lft) + (set k <- t :: t[k].rgt)
  }

  ghost function Interval(lo: int, hi: int): (s: set<int>)
    ensures forall x :: x in s <==> lo <= x <= hi
    ensures |s| == if lo <= hi then hi - lo + 1 else 0
    decreases hi - lo + 1
  {
    if lo > hi then {} else Interval(lo, hi - 1) + {hi}
  }

  lemma EndPointsSplit(t: Table, k: Key)
    requires k in t
    ensures EndPoints(t) == EndPoints(t - {k}) + {t[k].lft, t[k].rgt}
  {
    var u := t - {k};
    forall x | x in EndPoints(t)
      ensures x in EndPoints(u) + {t[k].lft, t[k].rgt}
    {
      var i :| i in t && (x == t[i].lft || x == t[i].rgt);
      assert i == k || i in u;
    }
  }

  lemma EndPointsApart(t: Table, last: int, k: Key)
    requires Laminar(t) && Ranged(t, last) && k in t
    ensures Laminar(t - {k})
    ensures EndPoints(t - {k}) !! {t[k].lft, t[k].rgt}
  {
    var u := t - {k};
    forall i, j | i in u && j in u && i != j
      ensures Apart(u, i, j)
    {
      assert Apart(t, i, j);
    }
    forall i | i in u
      ensures {u[i].lft, u[i].rgt} !! {t[k].lft, t[k].rgt}
    {
      assert Apart(t, i, k);
    }
  }

  lemma {:induction false} EndPointCount(t: Table, last: int)
    requires Laminar(t) && Ranged(t, last)
    ensures |EndPoints(t)| == 2 * |t|
    decreases |t|
  {
    if t == map[] {
      assert EndPoints(t) == {};
    } else {
      var k :| k in t;
      var u := t - {k};
      assert t.Keys == u.Keys + {k};
      EndPointsSplit(t, k);
      EndPointsApart(t, last, k);
      EndPointCount(u, last);
      assert t[k].lft != t[k].rgt;
    }
  }

  lemma {:induction false} SubsetOfSameSize(a: set<int>, b: set<int>)
    requires a <= b && |a| == |b|
    ensures a == b
  {
    assert |b - a| == 0;
  }

  /** The end points of a well-formed table are exactly 1..2n. */
  lemma NumberingIsGapFree(t: Table)
    requires Numbered(t)
    ensures EndPoints(t) == Interval(1, 2 * |t|)
  {
    EndPointCount(t, 2 * |t|);
    SubsetOfSameSize(EndPoints(t), Interval(1, 2 * |t|));
  }
}
