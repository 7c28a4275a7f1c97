/** The walk down of `_modify_unset_users`: which users are told that a limit set on an account
    now holds for them, and that these are the users for whom the walk up finds that account. */
module LimitPush {
  import opened NestedSet
  import opened Limits

  // ----- the rows between a user and the account -----

  /** The row is not deleted and leaves `l` to its parent. */
  predicate Open(t: Table, k: Key, l: Limit)
    requires k in t
  {
    t[k].deleted == 0 && l !in t[k].info.limits
  }

  /** `u` lies below `top`, and every row from `u` up to but not including `top` is open for `l`. */
  ghost predicate Passes(t: Table, u: Key, top: Key, l: Limit)
    requires WellFormed(t)
    decreases if u in t then t[u].lft else 0
  {
    && u in t && Open(t, u, l) && !IsRoot(u, t[u])
    && (assert LinkedRow(t, u); ParentKey(u, t[u]) == top || Passes(t, ParentKey(u, t[u]), top, l))
  }

  lemma {:induction false} PassesIsBelow(t: Table, u: Key, top: Key, l: Limit)
    requires WellFormed(t) && Passes(t, u, top, l) && top in t
    ensures Inside(t, u, top)
    decreases t[u].lft
  {
    assert LinkedRow(t, u);
    if ParentKey(u, t[u]) != top {
      PassesIsBelow(t, ParentKey(u, t[u]), top, l);
    }
  }

  /** The rows the query of `_modify_unset_users` selects: the live children of `top`. */
  ghost predicate IsChild(t: Table, c: Key, top: Key) {
    c in t && !IsRoot(c, t[c]) && ParentKey(c, t[c]) == top
  }

  lemma {:induction false} PassesThroughChild(t: Table, u: Key, top: Key, l: Limit) returns (c: Key)
    requires WellFormed(t) && Passes(t, u, top, l)
    ensures IsChild(t, c, top) && Open(t, c, l) && (u == c || Passes(t, u, c, l))
    decreases t[u].lft
  {
    assert LinkedRow(t, u);
    if ParentKey(u, t[u]) == top {
      c := u;
    } else {
      c := PassesThroughChild(t, ParentKey(u, t[u]), top, l);
    }
  }

  lemma {:induction false} PassesBelowChild(t: Table, u: Key, c: Key, top: Key, l: Limit)
    requires WellFormed(t) && IsChild(t, c, top) && Open(t, c, l) && (u == c || Passes(t, u, c, l))
    ensures Passes(t, u, top, l)
    decreases if u in t then t[u].lft else 0
  {
    assert LinkedRow(t, c);
    if u != c {
      assert LinkedRow(t, u);
      if ParentKey(u, t[u]) != c {
        PassesBelowChild(t, ParentKey(u, t[u]), c, top, l);
      }
    }
  }

  // ----- the walk down -----

  datatype Told = Told(user: Key, values: Values)

  ghost predicate Reported(told: seq<Told>, u: Key, l: Limit) {
    exists i :: 0 <= i < |told| && told[i].user == u && l in told[i].values
  }

  ghost predicate Due(t: Table, top: Key, values: Values, u: Key, l: Limit)
    requires WellFormed(t)
  {
    u.user != "" && l in values && Passes(t, u, top, l)
  }

  predicate Part(part: Values, values: Values) {
    forall l <- part :: l in values && part[l] == values[l]
  }

  /** Each user is named once, in the order of the tree, with a non-empty part of the values. */
  ghost predicate Listed(t: Table, told: seq<Told>, values: Values) {
    && (forall i :: 0 <= i < |told| ==> told[i].user in t && told[i].values != map[] && Part(told[i].values, values))
    && (forall i, j :: 0 <= i < j < |told| ==> t[told[i].user].lft < t[told[j].user].lft)
  }

  /** Exactly the due users are told, each once. */
  ghost predicate ToldBelow(t: Table, top: Key, values: Values, told: seq<Told>)
    requires WellFormed(t)
  {
    && Listed(t, told, values)
    && forall u, l {:trigger Reported(told, u, l)} :: Reported(told, u, l) <==> Due(t, top, values, u, l)
  }

  function Unset(values: Values, own: Values): Values {
    map l <- values | l !in own :: values[l]
  }

  lemma QueryFindsChildren(t: Table, top: Key, found: set<Key>)
    requires WellFormed(t) && top in t && top.user == ""
    requires found == set k <- t | t[k].deleted == 0 && t[top].lft <= t[k].lft <= t[top].rgt &&
      ((k.user == "" && t[k].parentAcct == top.acct) || (k.user != "" && k.acct == top.acct))
    ensures forall k :: k in found <==> IsChild(t, k, top) && t[k].deleted == 0
  {
    forall k | k in t
      ensures k in found <==> IsChild(t, k, top) && t[k].deleted == 0
    {
      assert LinkedRow(t, k);
      if k in found {
        BetweenIffReaches(t, k, top);
        var n: nat :| ReachesIn(t, k, top, n);
        SameCluster(t, k, top, n);
      }
    }
  }

  lemma {:induction false} FirstExists(t: Table, todo: set<Key>) returns (k: Key)
    requires todo != {} && forall i <- todo :: i in t
    ensures k in todo && forall i <- todo :: t[k].lft <= t[i].lft
    decreases |todo|
  {
    k :| k in todo;
    var rest := todo - {k};
    if rest != {} {
      var m := FirstExists(t, rest);
      if t[m].lft < t[k].lft {
        k := m;
      }
    }
  }

  // ----- one child -----

  ghost predicate LiveChild(t: Table, c: Key, top: Key) {
    IsChild(t, c, top) && t[c].deleted == 0
  }

  ghost predicate Via(t: Table, c: Key, values: Values, u: Key, l: Limit)
    requires WellFormed(t) && c in t
  {
    u.user != "" && l in values && Open(t, c, l) && (u == c || Passes(t, u, c, l))
  }

  lemma DueIsVia(t: Table, top: Key, values: Values, u: Key, l: Limit)
    requires WellFormed(t)
    ensures Due(t, top, values, u, l) <==> exists c :: LiveChild(t, c, top) && Via(t, c, values, u, l)
  {
    if Due(t, top, values, u, l) {
      var c := PassesThroughChild(t, u, top, l);
      assert LiveChild(t, c, top) && Via(t, c, values, u, l);
    }
    if c :| LiveChild(t, c, top) && Via(t, c, values, u, l) {
      PassesBelowChild(t, u, c, top, l);
    }
  }

  lemma {:induction false} NothingBelowUsers(t: Table, u: Key, c: Key, l: Limit)
    requires WellFormed(t) && Passes(t, u, c, l)
    ensures c.user == ""
    decreases t[u].lft
  {
    assert LinkedRow(t, u);
    if ParentKey(u, t[u]) != c {
      NothingBelowUsers(t, ParentKey(u, t[u]), c, l);
    }
  }

  /** What one child adds to the list. */
  ghost predicate ChildTold(t: Table, c: Key, values: Values, part: seq<Told>)
    requires WellFormed(t) && c in t
  {
    && Listed(t, part, values)
    && (forall i :: 0 <= i < |part| ==> t[c].lft <= t[part[i].user].lft < t[c].rgt)
    && forall u, l {:trigger Reported(part, u, l)} :: Reported(part, u, l) <==> Via(t, c, values, u, l)
  }

  lemma NoValuesLeft(t: Table, c: Key, values: Values)
    requires WellFormed(t) && c in t && Unset(values, t[c].info.limits) == map[]
    ensures ChildTold(t, c, values, [])
  {
    forall u, l
      ensures !Via(t, c, values, u, l)
    {
      assert l in Unset(values, t[c].info.limits) <==> l in values && l !in t[c].info.limits;
    }
  }

  lemma UserTold(t: Table, c: Key, values: Values)
    requires WellFormed(t) && c in t && t[c].deleted == 0 && c.user != "" && Unset(values, t[c].info.limits) != map[]
    ensures ChildTold(t, c, values, [Told(c, Unset(values, t[c].info.limits))])
  {
    var part := [Told(c, Unset(values, t[c].info.limits))];
    forall u, l
      ensures Reported(part, u, l) <==> Via(t, c, values, u, l)
    {
      if Via(t, c, values, u, l) {
        if u != c {
          NothingBelowUsers(t, u, c, l);
        }
        assert part[0].user == u;
      }
    }
  }

  lemma AccountTold(t: Table, c: Key, values: Values, part: seq<Told>)
    requires WellFormed(t) && c in t && t[c].deleted == 0 && c.user == ""
    requires ToldBelow(t, c, Unset(values, t[c].info.limits), part)
    ensures ChildTold(t, c, values, part)
  {
    var sub := Unset(values, t[c].info.limits);
    forall u, l
      ensures Reported(part, u, l) <==> Via(t, c, values, u, l)
    {
      assert Reported(part, u, l) <==> Due(t, c, sub, u, l);
      if Via(t, c, values, u, l) && u == c {
        assert c.user == "";
      }
    }
    forall i | 0 <= i < |part|
      ensures t[c].lft <= t[part[i].user].lft < t[c].rgt
    {
      var l :| l in part[i].values;
      assert Reported(part, part[i].user, l);
      PassesIsBelow(t, part[i].user, c, l);
    }
  }

  // ----- joining the children -----

  lemma ReportedJoin(a: seq<Told>, b: seq<Told>, u: Key, l: Limit)
    ensures Reported(a + b, u, l) <==> Reported(a, u, l) || Reported(b, u, l)
  {
    if i :| 0 <= i < |a + b| && (a + b)[i].user == u && l in (a + b)[i].values {
      if i < |a| {
        assert a[i].user == u;
      } else {
        assert b[i - |a|].user == u;
      }
    }
    if i :| 0 <= i < |a| && a[i].user == u && l in a[i].values {
      assert (a + b)[i].user == u;
    }
    if i :| 0 <= i < |b| && b[i].user == u && l in b[i].values {
      assert (a + b)[|a| + i].user == u;
    }
  }

  /** The list after the children `done`, all of which come before the children `todo`. */
  ghost predicate SoFar(t: Table, top: Key, values: Values, done: set<Key>, todo: set<Key>, told: seq<Told>)
    requires WellFormed(t) && forall c <- done :: c in t
  {
    && Listed(t, told, values)
    && (forall i, c :: 0 <= i < |told| && c in todo && c in t ==> t[told[i].user].lft < t[c].lft)
    && forall u, l {:trigger Reported(told, u, l)} ::
         Reported(told, u, l) <==> exists c :: c in done && Via(t, c, values, u, l)
  }

  lemma SiblingsApart(t: Table, top: Key, c: Key, d: Key)
    requires WellFormed(t) && IsChild(t, c, top) && IsChild(t, d, top) && c != d && t[c].lft <= t[d].lft
    ensures t[c].rgt < t[d].lft
  {
    assert LinkedRow(t, c) && LinkedRow(t, d) && Apart(t, c, d);
  }

  lemma SoFarStep(t: Table, top: Key, values: Values, done: set<Key>, todo: set<Key>, told: seq<Told>, c: Key,
                  part: seq<Told>)
    requires WellFormed(t) && (forall d <- done :: d in t) && SoFar(t, top, values, done, todo, told)
    requires c in t && c in todo && (forall d <- todo :: IsChild(t, d, top) && t[c].lft <= t[d].lft)
    requires ChildTold(t, c, values, part)
    ensures SoFar(t, top, values, done + {c}, todo - {c}, told + part)
  {
    forall u, l
      ensures Reported(told + part, u, l) <==> exists d :: d in done + {c} && Via(t, d, values, u, l)
    {
      ReportedJoin(told, part, u, l);
      assert Reported(told, u, l) <==> exists d :: d in done && Via(t, d, values, u, l);
      assert Reported(part, u, l) <==> Via(t, c, values, u, l);
    }
    forall i, d | 0 <= i < |told + part| && d in todo - {c} && d in t
      ensures t[(told + part)[i].user].lft < t[d].lft
    {
      SiblingsApart(t, top, c, d);
    }
  }

  lemma SoFarDone(t: Table, top: Key, values: Values, done: set<Key>, told: seq<Told>)
    requires WellFormed(t) && (forall d <- done :: d in t) && SoFar(t, top, values, done, {}, told)
    requires forall c :: c in done <==> LiveChild(t, c, top)
    ensures ToldBelow(t, top, values, told)
  {
    forall u, l
      ensures Reported(told, u, l) <==> Due(t, top, values, u, l)
    {
      DueIsVia(t, top, values, u, l);
      assert Reported(told, u, l) <==> exists d :: d in done && Via(t, d, values, u, l);
    }
  }

  /** A selected row: users are listed, accounts are walked through in turn. */
  method TellChild(t: Table, c: Key, values: Values) returns (part: seq<Told>)
    requires WellFormed(t) && c in t && t[c].deleted == 0
    ensures ChildTold(t, c, values, part)
    decreases t[c].rgt - t[c].lft, 1
  {
    var sub := Unset(values, t[c].info.limits);
    if sub == map[] {
      NoValuesLeft(t, c, values);
      part := [];
    } else if c.user == "" {
      part := ModifyUnsetUsers(t, c, sub, t[c].lft, t[c].rgt);
      AccountTold(t, c, values, part);
    } else {
      UserTold(t, c, values);
      part := [Told(c, sub)];
    }
  }

  /** `_modify_unset_users` for one account: its interval, and the values just set on it. */
  method ModifyUnsetUsers(t: Table, top: Key, values: Values, lft: int, rgt: int) returns (told: seq<Told>)
    requires WellFormed(t) && top in t && top.user == "" && lft == t[top].lft && rgt == t[top].rgt
    ensures ToldBelow(t, top, values, told)
    decreases rgt - lft, 0
  {
    var todo := set k <- t | t[k].deleted == 0 && lft <= t[k].lft <= rgt &&
      ((k.user == "" && t[k].parentAcct == top.acct) || (k.user != "" && k.acct == top.acct));
    QueryFindsChildren(t, top, todo);
    ghost var done := {};
    told := [];
    while todo != {}
      invariant forall k :: k in done + todo <==> LiveChild(t, k, top)
      invariant forall k <- done :: k in t
      invariant SoFar(t, top, values, done, todo, told)
      decreases |todo|
    {
      forall i | i in todo
        ensures LiveChild(t, i, top)
      {
        assert i in done + todo;
      }
      ghost var first := FirstExists(t, todo);
      var c :| c in todo && forall i <- todo :: t[c].lft <= t[i].lft;
      assert LiveChild(t, c, top) && LinkedRow(t, c);
      var part := TellChild(t, c, values);
      SoFarStep(t, top, values, done, todo, told, c, part);
      told, todo, done := told + part, todo - {c}, done + {c};
    }
    assert done + todo == done;
    SoFarDone(t, top, values, done, told);
  }

  // ----- the walk down agrees with the walk up -----

  /** No row from `u` up to but not including `top` is deleted. */
  ghost predicate LiveUpTo(t: Table, u: Key, top: Key) {
    forall k {:trigger Reaches(t, u, k)} :: k in t && Reaches(t, u, k) && Reaches(t, k, top) && k != top ==>
      t[k].deleted == 0
  }

  lemma ReachesFromParent(t: Table, u: Key, k: Key)
    requires u in t && !IsRoot(u, t[u])
    ensures Reaches(t, u, k) <==> k == u || Reaches(t, ParentKey(u, t[u]), k)
  {
    if Reaches(t, u, k) {
      var n: nat :| ReachesIn(t, u, k, n);
      assert n == 0 || ReachesIn(t, ParentKey(u, t[u]), k, n - 1);
    }
    if Reaches(t, ParentKey(u, t[u]), k) {
      var n: nat :| ReachesIn(t, ParentKey(u, t[u]), k, n);
      assert ReachesIn(t, u, k, n + 1);
    }
    assert ReachesIn(t, u, u, 0);
  }

  lemma LiveFromParent(t: Table, u: Key, top: Key)
    requires u in t && u != top && !IsRoot(u, t[u]) && Reaches(t, ParentKey(u, t[u]), top)
    ensures LiveUpTo(t, u, top) <==> t[u].deleted == 0 && LiveUpTo(t, ParentKey(u, t[u]), top)
  {
    var p := ParentKey(u, t[u]);
    ReachesFromParent(t, u, u);
    ReachesFromParent(t, u, top);
    if LiveUpTo(t, u, top) {
      forall k | k in t && Reaches(t, p, k) && Reaches(t, k, top) && k != top
        ensures t[k].deleted == 0
      {
        ReachesFromParent(t, u, k);
      }
    }
    if t[u].deleted == 0 && LiveUpTo(t, p, top) {
      forall k | k in t && Reaches(t, u, k) && Reaches(t, k, top) && k != top
        ensures t[k].deleted == 0
      {
        ReachesFromParent(t, u, k);
      }
    }
  }

  /** The walk down passes through to `u` exactly when `top` is the nearest holder the walk up finds from
      there and no row on the way is deleted; the walk up does not look at that. */
  lemma {:induction false} PassesIsNearest(t: Table, u: Key, top: Key, l: Limit)
    requires WellFormed(t) && u in t && top in t && u != top && l in t[top].info.limits
    ensures Passes(t, u, top, l) <==> Nearest(t, u, l, top) && LiveUpTo(t, u, top)
    decreases t[u].lft
  {
    assert LinkedRow(t, u);
    if l !in t[u].info.limits && !IsRoot(u, t[u]) {
      var p := ParentKey(u, t[u]);
      NearestFromParent(t, u, l, top);
      if p == top {
        assert NearestIn(t, top, l, top, 0) && ReachesIn(t, top, top, 0);
        NothingUpToItself(t, top);
        LiveFromParent(t, u, top);
      } else {
        PassesIsNearest(t, p, top, l);
        if Nearest(t, p, l, top) {
          var n: nat :| NearestIn(t, p, l, top, n);
          NearestGivesWalk(t, p, l, top, n);
          LiveFromParent(t, u, top);
        }
      }
    } else {
      assert forall n: nat :: NearestIn(t, u, l, top, n) ==> false;
    }
  }

  lemma NothingUpToItself(t: Table, top: Key)
    requires WellFormed(t) && top in t
    ensures LiveUpTo(t, top, top)
  {
    forall k | k in t && Reaches(t, top, k) && Reaches(t, k, top)
      ensures k == top
    {
      BetweenIffReaches(t, top, k);
      BetweenIffReaches(t, k, top);
    }
  }

  lemma NearestFromParent(t: Table, u: Key, l: Limit, a: Key)
    requires u in t && l !in t[u].info.limits && !IsRoot(u, t[u])
    ensures Nearest(t, u, l, a) <==> Nearest(t, ParentKey(u, t[u]), l, a)
  {
    if Nearest(t, u, l, a) {
      var n: nat :| NearestIn(t, u, l, a, n);
      assert NearestIn(t, ParentKey(u, t[u]), l, a, n - 1);
    }
    if Nearest(t, ParentKey(u, t[u]), l, a) {
      var n: nat :| NearestIn(t, ParentKey(u, t[u]), l, a, n);
      assert NearestIn(t, u, l, a, n + 1);
    }
  }

  /** The users told about a value set on `top` are those for whom `top` is the nearest holder with no
      deleted row on the way, and the value they are told is the one the walk up returns for them. */
  lemma ToldIsInherited(t: Table, top: Key, values: Values, told: seq<Told>, u: Key, l: Limit)
    requires WellFormed(t) && top in t && top.user == "" && u in t && u.user != ""
    requires ToldBelow(t, top, values, told)
    requires l in values && l in t[top].info.limits && t[top].info.limits[l] == values[l]
    ensures Reported(told, u, l) <==> Nearest(t, u, l, top) && LiveUpTo(t, u, top)
    ensures Reported(told, u, l) ==> l in Walk(t, u) && Walk(t, u)[l] == values[l]
  {
    assert Reported(told, u, l) <==> Due(t, top, values, u, l);
    PassesIsNearest(t, u, top, l);
    WalkIsNearest(t, u, l);
  }
}
