/** Limits inherited over the association tree: the walk up of `get_parent_limits`, the cache in
    `get_associations`, and the walk down of `_modify_unset_users`. */
module Limits {
  import opened Wrappers
  import opened NestedSet
  import opened TextOrder

  type Values = map<Limit, int>

  // ----- what a row inherits -----

  /** The values in force at `k`: its own ones, and those of the rows above where it has none. */
  ghost function Walk(t: Table, k: Key): Values
    requires WellFormed(t) && k in t
    decreases t[k].lft
  {
    assert LinkedRow(t, k);
    (if IsRoot(k, t[k]) then map[] else Walk(t, ParentKey(k, t[k]))) + t[k].info.limits
  }

  /** The qos string in force at `k` with the changes collected on the way down to `k`. */
  ghost function WalkQos(t: Table, k: Key): (string, string)
    requires WellFormed(t) && k in t
    decreases t[k].lft
  {
    assert LinkedRow(t, k);
    var own := t[k].info;
    if own.qos != "" || IsRoot(k, t[k]) then (own.qos, own.deltaQos)
    else
      var up := WalkQos(t, ParentKey(k, t[k]));
      (up.0, up.1 + own.deltaQos)
  }

  /** `a` has a value for `l` and no row from `k` up to `a` has one. */
  ghost predicate NearestIn(t: Table, k: Key, l: Limit, a: Key, n: nat)
    decreases n
  {
    k in t &&
    if l in t[k].info.limits then n == 0 && a == k
    else n > 0 && !IsRoot(k, t[k]) && NearestIn(t, ParentKey(k, t[k]), l, a, n - 1)
  }

  ghost predicate Nearest(t: Table, k: Key, l: Limit, a: Key) {
    exists n: nat :: NearestIn(t, k, l, a, n)
  }

  lemma {:induction false} NearestGivesWalk(t: Table, k: Key, l: Limit, a: Key, n: nat)
    requires WellFormed(t) && NearestIn(t, k, l, a, n)
    ensures a in t && l in t[a].info.limits && ReachesIn(t, k, a, n)
    ensures l in Walk(t, k) && Walk(t, k)[l] == t[a].info.limits[l]
    decreases n
  {
    assert LinkedRow(t, k);
    if n > 0 {
      NearestGivesWalk(t, ParentKey(k, t[k]), l, a, n - 1);
    }
  }

  lemma {:induction false} WalkHasNearest(t: Table, k: Key, l: Limit) returns (a: Key, n: nat)
    requires WellFormed(t) && k in t && l in Walk(t, k)
    ensures NearestIn(t, k, l, a, n)
    decreases t[k].lft
  {
    assert LinkedRow(t, k);
    if l in t[k].info.limits {
      a, n := k, 0;
    } else {
      a, n := WalkHasNearest(t, ParentKey(k, t[k]), l);
      n := n + 1;
    }
  }

  /** A limit is in force exactly when some row at or above has it, and its value is that of the
      nearest such row. */
  lemma WalkIsNearest(t: Table, k: Key, l: Limit)
    requires WellFormed(t) && k in t
    ensures l in Walk(t, k) <==> exists a :: Nearest(t, k, l, a)
    ensures forall a :: Nearest(t, k, l, a) ==>
      && a in t && Reaches(t, k, a) && l in Walk(t, k)
      && l in t[a].info.limits && Walk(t, k)[l] == t[a].info.limits[l]
  {
    if l in Walk(t, k) {
      var a, n := WalkHasNearest(t, k, l);
      assert Nearest(t, k, l, a);
    }
    forall a | Nearest(t, k, l, a)
      ensures a in t && l in Walk(t, k) && l in t[a].info.limits
      ensures Walk(t, k)[l] == t[a].info.limits[l] && Reaches(t, k, a)
    {
      var n: nat :| NearestIn(t, k, l, a, n);
      NearestGivesWalk(t, k, l, a, n);
    }
  }

  /** The rows from `k` up to the nearest one with a qos, or to the root. */
  ghost predicate QosLine(t: Table, k: Key, line: seq<Key>) {
    && line != [] && line[0] == k && (forall a <- line :: a in t)
    && (forall i :: 0 <= i < |line| - 1 ==>
         t[line[i]].info.qos == "" && !IsRoot(line[i], t[line[i]]) && line[i + 1] == ParentKey(line[i], t[line[i]]))
    && (var last := line[|line| - 1]; t[last].info.qos != "" || IsRoot(last, t[last]))
  }

  /** The text is made of the changes of those rows, each put behind those of the rows above it: that of
      `line[i]` ends at `cuts[i]`. */
  ghost predicate PutTogether(t: Table, line: seq<Key>, text: string, cuts: seq<nat>)
    requires forall a <- line :: a in t
  {
    && |cuts| == |line| + 1 && cuts[0] == |text| && cuts[|line|] == 0
    && forall i :: 0 <= i < |line| ==>
         cuts[i + 1] <= cuts[i] <= |text| && text[cuts[i + 1]..cuts[i]] == t[line[i]].info.deltaQos
  }

  ghost predicate QosIs(t: Table, k: Key, line: seq<Key>, cuts: seq<nat>, qos: string, deltaQos: string) {
    QosLine(t, k, line) && PutTogether(t, line, deltaQos, cuts) && qos == t[line[|line| - 1]].info.qos
  }

  /** The qos in force is that of the nearest row that has one, and what changes it comes from that row
      and the rows below it on the way down to `k`, in this order. */
  lemma {:induction false} QosIsNearest(t: Table, k: Key) returns (line: seq<Key>, cuts: seq<nat>)
    requires WellFormed(t) && k in t
    ensures QosIs(t, k, line, cuts, WalkQos(t, k).0, WalkQos(t, k).1)
    decreases t[k].lft
  {
    assert LinkedRow(t, k);
    var own := t[k].info;
    if own.qos != "" || IsRoot(k, t[k]) {
      line, cuts := [k], [|own.deltaQos|, 0];
    } else {
      var up := ParentKey(k, t[k]);
      var above, before := QosIsNearest(t, up);
      line, cuts := [k] + above, [|WalkQos(t, k).1|] + before;
      OneMoreBelow(t, k, above, before, WalkQos(t, up).1);
      LineFurtherDown(t, k, above);
      hide *;
    }
  }

  lemma LineFurtherDown(t: Table, k: Key, line: seq<Key>)
    requires k in t && t[k].info.qos == "" && !IsRoot(k, t[k]) && QosLine(t, ParentKey(k, t[k]), line)
    ensures QosLine(t, k, [k] + line) && ([k] + line)[|[k] + line| - 1] == line[|line| - 1]
  {
  }

  lemma OneMoreBelow(t: Table, k: Key, line: seq<Key>, cuts: seq<nat>, text: string)
    requires k in t && (forall a <- line :: a in t) && PutTogether(t, line, text, cuts)
    ensures var whole := text + t[k].info.deltaQos; PutTogether(t, [k] + line, whole, [|whole|] + cuts)
  {
    var whole, all, ends := text + t[k].info.deltaQos, [k] + line, [|text + t[k].info.deltaQos|] + cuts;
    forall i | 0 <= i < |all|
      ensures ends[i + 1] <= ends[i] <= |whole| && whole[ends[i + 1]..ends[i]] == t[all[i]].info.deltaQos
    {
      if i > 0 {
        assert ends[i] == cuts[i - 1] && all[i] == line[i - 1];
        assert whole[cuts[i]..cuts[i - 1]] == text[cuts[i]..cuts[i - 1]];
      }
    }
  }

  // ----- get_parent_limits -----

  const ALL_LIMITS: set<Limit> :=
    {MaxJobs, MaxSubmitJobs, MaxCpusPerJob, MaxNodesPerJob, MaxWallPerJob, MaxCpuMinsPerJob}

  /** The stop test: every limit has a value other than -1, and a qos was found. */
  predicate AllFound(values: Values, qos: string) {
    (forall l <- ALL_LIMITS :: l in values && values[l] != -1) && qos != ""
  }

  lemma AllLimits(l: Limit)
    ensures l in ALL_LIMITS
  {
  }

  datatype ParentInfo = ParentInfo(id: Key, values: Values, qos: string, deltaQos: string)

  /** The stored procedure `get_parent_limits`. */
  method GetParentLimits(t: Table, cluster: string, acct: string) returns (p: ParentInfo)
    requires WellFormed(t) && AcctKey(cluster, acct) in t
    ensures p.id == AcctKey(cluster, acct)
    ensures p.values == Walk(t, AcctKey(cluster, acct))
    ensures (p.qos, p.deltaQos) == WalkQos(t, AcctKey(cluster, acct))
    ensures exists line, cuts :: QosIs(t, AcctKey(cluster, acct), line, cuts, p.qos, p.deltaQos)
  {
    ghost var start := AcctKey(cluster, acct);
    var k := AcctKey(cluster, acct);
    var values: Values := map[];
    var qos, delta, done := "", "", false;
    assert Walk(t, k) + values == Walk(t, k);
    assert WalkQos(t, k).1 + delta == WalkQos(t, k).1;
    while !done
      invariant !done ==> k in t && k.user == "" && k.cluster == cluster
      invariant Walk(t, start) == if done then values else Walk(t, k) + values
      invariant WalkQos(t, start) ==
        if done || qos != "" then (qos, delta) else (WalkQos(t, k).0, WalkQos(t, k).1 + delta)
      decreases !done, if done then 0 else t[k].lft
    {
      var r := t[k];
      assert LinkedRow(t, k);
      ghost var up: Values := if IsRoot(k, r) then map[] else Walk(t, ParentKey(k, r));
      assert up + r.info.limits + values == up + (r.info.limits + values);
      if qos == "" && !IsRoot(k, r) {
        assert WalkQos(t, ParentKey(k, r)).1 + r.info.deltaQos + delta
            == WalkQos(t, ParentKey(k, r)).1 + (r.info.deltaQos + delta);
      }
      values := r.info.limits + values;
      if qos == "" {
        qos, delta := r.info.qos, r.info.deltaQos + delta;
      }
      if AllFound(values, qos) {
        forall l: Limit
          ensures l in values
        {
          AllLimits(l);
        }
        assert up + values == values;
        done := true;
      } else if r.parentAcct == "" {
        done := true;
      } else {
        k := AcctKey(cluster, r.parentAcct);
      }
    }
    p := ParentInfo(AcctKey(cluster, acct), values, qos, delta);
    ghost var line, cuts := QosIsNearest(t, start);
  }

  // ----- the cache of get_associations -----

  /** The parent whose answer is at hand after the rows `keys`: that of the last row that is not a root. */
  ghost function LastParent(t: Table, keys: seq<Key>): (p: Option<Key>)
    requires forall k <- keys :: k in t
    ensures p.Some? ==> exists k :: k in keys && !IsRoot(k, t[k]) && p.value == ParentKey(k, t[k])
  {
    if keys == [] then None
    else
      var k := keys[|keys| - 1];
      if IsRoot(k, t[k]) then LastParent(t, keys[..|keys| - 1]) else Some(ParentKey(k, t[k]))
  }

  /** What one returned association says about limits; None for the parent id 0 of a root. */
  datatype Effective = Effective(key: Key, parent: Option<Key>, values: Values)

  /** A root is given the values of whichever parent was looked up before it. */
  ghost function Stale(t: Table, keys: seq<Key>): Values
    requires WellFormed(t) && forall k <- keys :: k in t
  {
    match LastParent(t, keys)
    case None => map[]
    case Some(p) => if p in t then Walk(t, p) else map[]
  }

  /** `order by cluster,lft`. */
  ghost predicate SortedRows(t: Table, keys: seq<Key>)
    requires forall k <- keys :: k in t
  {
    forall i, j :: 0 <= i < j < |keys| ==>
      StrLeq(keys[i].cluster, keys[j].cluster) &&
      (keys[i].cluster == keys[j].cluster ==> t[keys[i]].lft < t[keys[j]].lft)
  }

  /** The rows of a cluster stand together, its root first. */
  ghost predicate Ordered(t: Table, keys: seq<Key>)
    requires forall k <- keys :: k in t
  {
    && (forall i, j :: 0 <= i < j < |keys| && keys[i].cluster == keys[j].cluster ==> !IsRoot(keys[j], t[keys[j]]))
    && (forall i, j, m :: 0 <= i < j < m < |keys| && keys[i].cluster == keys[m].cluster ==>
         keys[j].cluster == keys[i].cluster)
  }

  lemma SortedIsOrdered(t: Table, keys: seq<Key>)
    requires WellFormed(t) && Rooted(t) && (forall k <- keys :: k in t) && SortedRows(t, keys)
    ensures Ordered(t, keys)
  {
    forall i, j | 0 <= i < j < |keys| && keys[i].cluster == keys[j].cluster
      ensures !IsRoot(keys[j], t[keys[j]])
    {
      RootIsAbove(t, keys[i]);
    }
    forall i, j, m | 0 <= i < j < m < |keys| && keys[i].cluster == keys[m].cluster
      ensures keys[j].cluster == keys[i].cluster
    {
      StrTotal(keys[i].cluster, keys[j].cluster);
    }
  }

  /** A row that is not a root gets its parent and the values in force at it; a root has no parent
      and gets its own values over the stale ones. */
  ghost predicate Right(t: Table, keys: seq<Key>, i: nat, e: Effective)
    requires WellFormed(t) && i < |keys| && forall k <- keys :: k in t
  {
    var k := keys[i];
    if IsRoot(k, t[k]) then e == Effective(k, None, Stale(t, keys[..i]) + t[k].info.limits)
    else e == Effective(k, Some(ParentKey(k, t[k])), Walk(t, k))
  }

  lemma NextStale(t: Table, keys: seq<Key>, i: nat)
    requires WellFormed(t) && i < |keys| && forall k <- keys :: k in t
    ensures var k := keys[i];
      if IsRoot(k, t[k]) then
        LastParent(t, keys[..i + 1]) == LastParent(t, keys[..i]) && Stale(t, keys[..i + 1]) == Stale(t, keys[..i])
      else
        var p := ParentKey(k, t[k]);
        && p in t && LastParent(t, keys[..i + 1]) == Some(p) && Stale(t, keys[..i + 1]) == Walk(t, p)
        && Walk(t, k) == Walk(t, p) + t[k].info.limits
  {
    assert LinkedRow(t, keys[i]);
    assert keys[..i + 1][..i] == keys[..i];
  }

  /** The variables kept from row to row: the last parent looked up and its answer. */
  datatype Cache = Cache(last: Option<Key>, parent: Option<Key>, values: Values)

  /** One row: look the parent up unless it is the last one. */
  method NextAssociation(t: Table, k: Key, c: Cache) returns (d: Cache)
    requires WellFormed(t) && Rooted(t) && k in t
    requires c.last.Some? ==> c.last.value in t && c.values == Walk(t, c.last.value)
    ensures IsRoot(k, t[k]) ==> d == c.(parent := None)
    ensures !IsRoot(k, t[k]) ==> ParentKey(k, t[k]) in t && d.last == Some(ParentKey(k, t[k]))
    ensures !IsRoot(k, t[k]) ==> d.values == Walk(t, d.last.value)
    ensures !IsRoot(k, t[k]) ==> d.parent == if c.last == d.last then c.parent else d.last
  {
    d := c;
    var parentAcct := Some(k.acct);
    if t[k].parentAcct != "" {
      parentAcct := Some(t[k].parentAcct);
    } else if k.user == "" {
      parentAcct := None;
      d := d.(parent := None);
    }
    if parentAcct.Some? {
      assert LinkedRow(t, k);
      if d.last != Some(AcctKey(k.cluster, parentAcct.value)) {
        var p := GetParentLimits(t, k.cluster, parentAcct.value);
        d := Cache(Some(p.id), Some(p.id), p.values);
      }
    }
  }

  /** What the cache holds before row `i`. */
  ghost predicate CacheAt(t: Table, keys: seq<Key>, i: nat, c: Cache)
    requires WellFormed(t) && i <= |keys| && forall k <- keys :: k in t
  {
    && c.last == LastParent(t, keys[..i]) && c.values == Stale(t, keys[..i])
    && (c.last.Some? ==> c.last.value in t && exists j :: 0 <= j < i && keys[j].cluster == c.last.value.cluster)
    && (c.last.Some? && c.parent != c.last ==> forall j :: i <= j < |keys| ==> keys[j].cluster != c.last.value.cluster)
  }

  lemma CacheUsable(t: Table, keys: seq<Key>, i: nat, c: Cache)
    requires WellFormed(t) && i < |keys| && (forall k <- keys :: k in t) && CacheAt(t, keys, i, c)
    ensures keys[i] in t
    ensures c.last.Some? ==> c.last.value in t && c.values == Walk(t, c.last.value)
  {
  }

  lemma CacheStep(t: Table, keys: seq<Key>, i: nat, c: Cache, d: Cache)
    requires WellFormed(t) && (forall k <- keys :: k in t) && Ordered(t, keys) && i < |keys| && CacheAt(t, keys, i, c)
    requires var k := keys[i];
      if IsRoot(k, t[k]) then d == c.(parent := None)
      else
        && ParentKey(k, t[k]) in t && d.last == Some(ParentKey(k, t[k])) && d.values == Walk(t, d.last.value)
        && d.parent == if c.last == d.last then c.parent else d.last
    ensures CacheAt(t, keys, i + 1, d)
    ensures Right(t, keys, i, Effective(keys[i], d.parent, d.values + t[keys[i]].info.limits))
  {
    NextStale(t, keys, i);
    if c.last.Some? {
      var j :| 0 <= j < i && keys[j].cluster == c.last.value.cluster;
      assert keys[j].cluster == keys[i].cluster ==> !IsRoot(keys[i], t[keys[i]]);
    }
  }

  /** One turn of the loop: the cache goes on, and the row is right. */
  method ReportRow(t: Table, keys: seq<Key>, i: nat, c: Cache) returns (e: Effective, d: Cache)
    requires WellFormed(t) && Rooted(t) && (forall k <- keys :: k in t) && Ordered(t, keys)
    requires i < |keys| && CacheAt(t, keys, i, c)
    ensures CacheAt(t, keys, i + 1, d) && Right(t, keys, i, e)
  {
    hide *;
    CacheUsable(t, keys, i, c);
    d := NextAssociation(t, keys[i], c);
    CacheStep(t, keys, i, c, d);
    e := Effective(keys[i], d.parent, d.values + t[keys[i]].info.limits);
  }

  /** The rows reported so far are right. */
  ghost predicate AllRight(t: Table, keys: seq<Key>, out: seq<Effective>)
    requires WellFormed(t) && forall k <- keys :: k in t
  {
    |out| <= |keys| && forall i {:trigger Right(t, keys, i, out[i])} :: 0 <= i < |out| ==> Right(t, keys, i, out[i])
  }

  lemma OneMoreRight(t: Table, keys: seq<Key>, out: seq<Effective>, e: Effective)
    requires WellFormed(t) && forall k <- keys :: k in t
    requires |out| < |keys| && AllRight(t, keys, out) && Right(t, keys, |out|, e)
    ensures AllRight(t, keys, out + [e])
  {
  }

  /** The limits part of `acct_storage_p_get_associations` over the selected rows. */
  method GetAssociations(t: Table, keys: seq<Key>) returns (out: seq<Effective>)
    requires WellFormed(t) && Rooted(t) && (forall k <- keys :: k in t) && SortedRows(t, keys)
    ensures |out| == |keys| && AllRight(t, keys, out)
  {
    SortedIsOrdered(t, keys);
    out := [];
    var c := Cache(None, None, map[]);
    assert CacheAt(t, keys, 0, c) && AllRight(t, keys, out);
    hide *;
    for i := 0 to |keys|
      invariant |out| == i && CacheAt(t, keys, i, c) && AllRight(t, keys, out)
    {
      var e;
      e, c := ReportRow(t, keys, i, c);
      OneMoreRight(t, keys, out, e);
      out := out + [e];
    }
  }

  /** Row `a`, at or above `p`, holds limit `l`. */
  ghost predicate HeldAbove(t: Table, p: Key, a: Key, l: Limit) {
    a in t && Reaches(t, p, a) && l in t[a].info.limits
  }

  lemma {:induction false} HeldIsInForce(t: Table, p: Key, a: Key, l: Limit, n: nat)
    requires WellFormed(t) && ReachesIn(t, p, a, n) && a in t && l in t[a].info.limits
    ensures l in Walk(t, p)
    decreases n
  {
    assert LinkedRow(t, p);
    if n > 0 {
      HeldIsInForce(t, ParentKey(p, t[p]), a, l, n - 1);
    }
  }

  /** A limit is in force at a row exactly when some row at or above it holds it. */
  lemma InForceIff(t: Table, p: Key, l: Limit)
    requires WellFormed(t) && p in t
    ensures l in Walk(t, p) <==> exists a :: HeldAbove(t, p, a, l)
  {
    WalkIsNearest(t, p, l);
    if l in Walk(t, p) {
      var a :| Nearest(t, p, l, a);
      assert HeldAbove(t, p, a, l);
    }
    if a :| HeldAbove(t, p, a, l) {
      var n: nat :| ReachesIn(t, p, a, n);
      HeldIsInForce(t, p, a, l, n);
    }
  }

  /** A root is reported with just its own limits exactly when no row at or above the parent that was
      looked up last, which belongs to another cluster, holds a limit the root lacks. */
  lemma RootReportedAsStoredIff(t: Table, keys: seq<Key>, i: nat, e: Effective)
    requires WellFormed(t) && (forall k <- keys :: k in t) && i < |keys|
    requires IsRoot(keys[i], t[keys[i]]) && Right(t, keys, i, e)
    ensures e.values == Walk(t, keys[i]) <==>
      forall p, a, l {:trigger HeldAbove(t, p, a, l)} ::
        LastParent(t, keys[..i]) == Some(p) && HeldAbove(t, p, a, l) ==> l in t[keys[i]].info.limits
  {
    var own, stale := t[keys[i]].info.limits, Stale(t, keys[..i]);
    assert Walk(t, keys[i]) == own;
    forall l
      ensures l in stale <==>
        exists p, a {:trigger HeldAbove(t, p, a, l)} :: LastParent(t, keys[..i]) == Some(p) && HeldAbove(t, p, a, l)
    {
      match LastParent(t, keys[..i])
      case None =>
      case Some(p) =>
        if p in t {
          InForceIff(t, p, l);
        }
    }
    if stale.Keys <= own.Keys {
      assert stale + own == own;
    } else {
      var l :| l in stale && l !in own;
      assert l in stale + own;
    }
  }
}
