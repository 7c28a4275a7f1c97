/** Adding rows: cluster roots, one child at a time, and a batch of children of one parent. */
module TreeInsert {
  import opened NestedSet
  import opened Columns

  /** A row to be added: its key and the columns that do not depend on its place. */
  datatype Entry = Entry(key: Key, parentAcct: string, info: Info)

  function EntryRow(e: Entry, lft: int, deleted: int): Row {
    Row(e.parentAcct, lft, lft + 1, deleted, e.info)
  }

  /** Make room for `incr` positions behind position `after`. */
  function Shift(x: int, after: int, incr: int): int {
    if x > after then x + incr else x
  }

  function ShiftRow(r: Row, after: int, incr: int): Row {
    r.(lft := Shift(r.lft, after, incr), rgt := Shift(r.rgt, after, incr))
  }

  /** The plain insertion: shift everything behind the parent's `lft` by two and put the row there. */
  function AddOne(t: Table, p: Key, e: Entry): Table
    requires p in t
  {
    (map i <- t :: ShiftRow(t[i], t[p].lft, 2))[e.key := EntryRow(e, t[p].lft + 1, 0)]
  }

  ghost predicate Addable(t: Table, p: Key, e: Entry) {
    && p in t && e.key !in t
    && e.key.acct != "" && (e.key.user == "" ==> e.key.partition == "")
    && !IsRoot(e.key, EntryRow(e, 0, 0)) && ParentKey(e.key, EntryRow(e, 0, 0)) == p
  }

  lemma AddOnePair(t: Table, p: Key, e: Entry, i: Key, j: Key)
    requires Numbered(t) && p in t && e.key !in t && i in t && j in t && i != j
    ensures var m := AddOne(t, p, e);
      && Apart(m, i, j)
      && (Inside(m, i, j) <==> Inside(t, i, j))
      && (m[i].lft < m[j].lft <==> t[i].lft < t[j].lft)
  {
    assert Apart(t, i, j);
  }

  lemma AddOneNew(t: Table, p: Key, e: Entry, i: Key)
    requires Numbered(t) && p in t && e.key !in t && i in t
    ensures var m := AddOne(t, p, e);
      && Apart(m, i, e.key) && Apart(m, e.key, i)
      && (Inside(m, e.key, i) <==> i == p || Inside(t, p, i))
      && !Inside(m, i, e.key)
  {
    if i != p {
      assert Apart(t, i, p);
    }
  }

  lemma AddOneNumbered(t: Table, p: Key, e: Entry)
    requires Numbered(t) && p in t && e.key !in t
    ensures Numbered(AddOne(t, p, e)) && |AddOne(t, p, e)| == |t| + 1
  {
    var m := AddOne(t, p, e);
    assert m.Keys == t.Keys + {e.key};
    assert |m| == |m.Keys| == |t.Keys| + 1;
    forall i, j | i in m && j in m && i != j
      ensures Apart(m, i, j)
    {
      if i == e.key {
        AddOneNew(t, p, e, j);
      } else if j == e.key {
        AddOneNew(t, p, e, i);
      } else {
        AddOnePair(t, p, e, i, j);
      }
    }
  }

  lemma AddOneLinkedNew(t: Table, p: Key, e: Entry)
    requires WellFormed(t) && Addable(t, p, e)
    ensures LinkedRow(AddOne(t, p, e), e.key)
  {
    var m := AddOne(t, p, e);
    AddOneNew(t, p, e, p);
    forall q | q in m && Inside(m, e.key, q)
      ensures q == p || Inside(m, p, q)
    {
      if q != e.key && q != p {
        AddOneNew(t, p, e, q);
        AddOnePair(t, p, e, p, q);
      }
    }
  }

  lemma AddOneLinkedOld(t: Table, p: Key, e: Entry, c: Key)
    requires WellFormed(t) && Addable(t, p, e) && c in t
    ensures LinkedRow(AddOne(t, p, e), c)
  {
    var m := AddOne(t, p, e);
    assert LinkedRow(t, c);
    AddOneNew(t, p, e, c);
    if IsRoot(c, t[c]) {
      forall q | q in m
        ensures !Inside(m, c, q)
      {
        if q != c && q != e.key {
          AddOnePair(t, p, e, c, q);
        }
      }
    } else {
      var pc := ParentKey(c, t[c]);
      AddOnePair(t, p, e, c, pc);
      forall q | q in m && Inside(m, c, q)
        ensures q == pc || Inside(m, pc, q)
      {
        if q != c && q != e.key && q != pc {
          AddOnePair(t, p, e, c, q);
          AddOnePair(t, p, e, pc, q);
        }
      }
    }
  }

  lemma AddOneWellFormed(t: Table, p: Key, e: Entry)
    requires WellFormed(t) && Addable(t, p, e)
    ensures WellFormed(AddOne(t, p, e))
  {
    var m := AddOne(t, p, e);
    AddOneNumbered(t, p, e);
    forall c | c in m
      ensures LinkedRow(m, c)
    {
      if c == e.key {
        AddOneLinkedNew(t, p, e);
      } else {
        AddOneLinkedOld(t, p, e, c);
      }
    }
  }

  // ----- a batch -----

  ghost predicate DistinctKeys(batch: seq<Entry>) {
    forall i, j :: 0 <= i < j < |batch| ==> batch[i].key != batch[j].key
  }

  ghost predicate InBatch(batch: seq<Entry>, k: Key) {
    exists i :: 0 <= i < |batch| && batch[i].key == k
  }

  ghost function IndexOf(batch: seq<Entry>, k: Key): (i: int)
    requires InBatch(batch, k)
    ensures 0 <= i < |batch| && batch[i].key == k
  {
    var i :| 0 <= i < |batch| && batch[i].key == k; i
  }

  /** The rows of a batch, two positions each, from position `lft` on. */
  ghost function BatchRows(batch: seq<Entry>, lft: int, deleted: int): (m: Table)
    ensures forall k :: k in m <==> InBatch(batch, k)
  {
    map k <- (set i | 0 <= i < |batch| :: batch[i].key) ::
      EntryRow(batch[IndexOf(batch, k)], lft + 2 * IndexOf(batch, k), deleted)
  }

  /** One shift for a whole group: the rows of the batch follow the parent's `lft` in order. */
  ghost function AddBatch(t: Table, p: Key, batch: seq<Entry>): Table
    requires p in t
  {
    (map i <- t :: ShiftRow(t[i], t[p].lft, 2 * |batch|)) + BatchRows(batch, t[p].lft + 1, 0)
  }

  /** The commented-out way of adding: one plain insertion after the other. */
  function AddEach(t: Table, p: Key, batch: seq<Entry>): Table
    requires p in t
    decreases |batch|
  {
    if batch == [] then t else AddEach(AddOne(t, p, batch[0]), p, batch[1..])
  }

  function Reversed(batch: seq<Entry>): seq<Entry> {
    if batch == [] then [] else Reversed(batch[1..]) + [batch[0]]
  }

  ghost predicate BatchAddable(t: Table, p: Key, batch: seq<Entry>) {
    DistinctKeys(batch) && forall i :: 0 <= i < |batch| ==> Addable(t, p, batch[i])
  }

  lemma IndexInTail(batch: seq<Entry>, k: Key)
    requires DistinctKeys(batch) && batch != []
    ensures DistinctKeys(batch[1..])
    ensures InBatch(batch, k) <==> k == batch[0].key || InBatch(batch[1..], k)
    ensures InBatch(batch, batch[0].key) && IndexOf(batch, batch[0].key) == 0
    ensures InBatch(batch[1..], k) ==> k != batch[0].key && IndexOf(batch, k) == IndexOf(batch[1..], k) + 1
  {
    assert batch[0].key == batch[0].key;
    if InBatch(batch[1..], k) {
      var i := IndexOf(batch[1..], k);
      assert batch[i + 1].key == k;
    }
    if InBatch(batch, k) && k != batch[0].key {
      assert batch[1..][IndexOf(batch, k) - 1].key == k;
    }
  }

  lemma BatchRowsFirst(batch: seq<Entry>, lft: int, k: Key)
    requires DistinctKeys(batch) && batch != []
    ensures var all, rest := BatchRows(batch, lft, 0), BatchRows(batch[1..], lft, 0);
      && batch[0].key in all && all[batch[0].key] == EntryRow(batch[0], lft, 0)
      && (k in all <==> k == batch[0].key || k in rest)
      && (k in rest ==> k != batch[0].key && all[k] == ShiftRow(rest[k], lft - 1, 2))
  {
    IndexInTail(batch, k);
  }

  ghost predicate BatchAt(t: Table, p: Key, batch: seq<Entry>, m: Table, k: Key)
    requires p in t
  {
    var rows := BatchRows(batch, t[p].lft + 1, 0);
    && (k in m <==> k in t || k in rows)
    && (k in m ==> m[k] == if k in rows then rows[k] else ShiftRow(t[k], t[p].lft, 2 * |batch|))
  }

  lemma AddBatchAt(t: Table, p: Key, batch: seq<Entry>, k: Key)
    requires p in t
    ensures BatchAt(t, p, batch, AddBatch(t, p, batch), k)
  {
  }

  lemma BatchFirstAt(t: Table, p: Key, batch: seq<Entry>, m: Table, rest: Table, k: Key)
    requires p in t && DistinctKeys(batch) && batch != [] && batch[0].key !in t && !InBatch(batch, p)
    requires BatchAt(t, p, batch, m, k) && BatchAt(t, p, batch[1..], rest, k) && BatchAt(t, p, batch[1..], rest, p)
    ensures p in rest
    ensures k in m <==> k in AddOne(rest, p, batch[0])
    ensures k in m ==> m[k] == AddOne(rest, p, batch[0])[k]
  {
    IndexInTail(batch, p);
    BatchRowsFirst(batch, t[p].lft + 1, k);
    hide BatchRows, InBatch, IndexOf, DistinctKeys;
    assert rest[p].lft == t[p].lft;
    if k in t && k != batch[0].key && !InBatch(batch[1..], k) {
      assert m[k] == ShiftRow(rest[k], t[p].lft, 2);
    }
  }

  /** Peeling the first entry off a batch is one plain insertion in front of the rest. */
  lemma AddBatchFirst(t: Table, p: Key, batch: seq<Entry>)
    requires p in t && DistinctKeys(batch) && batch != [] && forall i :: 0 <= i < |batch| ==> batch[i].key !in t
    ensures DistinctKeys(batch[1..]) && p in AddBatch(t, p, batch[1..])
    ensures AddBatch(t, p, batch) == AddOne(AddBatch(t, p, batch[1..]), p, batch[0])
  {
    var m, rest := AddBatch(t, p, batch), AddBatch(t, p, batch[1..]);
    AddBatchAt(t, p, batch[1..], p);
    assert !InBatch(batch, p);
    var one := AddOne(rest, p, batch[0]);
    forall k
      ensures k in m <==> k in one
      ensures k in m ==> m[k] == one[k]
    {
      AddBatchAt(t, p, batch, k);
      AddBatchAt(t, p, batch[1..], k);
      BatchFirstAt(t, p, batch, m, rest, k);
    }
  }

  lemma {:induction false} AddEachAppend(t: Table, p: Key, batch: seq<Entry>, e: Entry)
    requires p in t
    ensures p in AddEach(t, p, batch)
    ensures AddEach(t, p, batch + [e]) == AddOne(AddEach(t, p, batch), p, e)
    decreases |batch|
  {
    if batch == [] {
      assert (batch + [e])[1..] == [];
    } else {
      assert (batch + [e])[1..] == batch[1..] + [e];
      AddEachAppend(AddOne(t, p, batch[0]), p, batch[1..], e);
    }
  }

  /** The batched insertion is the plain insertion of the same entries in reverse order. */
  lemma {:induction false} BatchIsEachReversed(t: Table, p: Key, batch: seq<Entry>)
    requires p in t && DistinctKeys(batch) && forall i :: 0 <= i < |batch| ==> batch[i].key !in t
    ensures AddBatch(t, p, batch) == AddEach(t, p, Reversed(batch))
    decreases |batch|
  {
    if batch == [] {
      assert AddBatch(t, p, batch) == t;
    } else {
      AddBatchFirst(t, p, batch);
      BatchIsEachReversed(t, p, batch[1..]);
      AddEachAppend(t, p, Reversed(batch[1..]), batch[0]);
    }
  }

  lemma BatchTail(t: Table, p: Key, batch: seq<Entry>)
    requires p in t && BatchAddable(t, p, batch) && batch != []
    ensures BatchAddable(t, p, batch[1..])
    ensures Addable(AddBatch(t, p, batch[1..]), p, batch[0])
  {
    assert forall i :: 0 <= i < |batch| - 1 ==> batch[1..][i] == batch[i + 1];
    var rest := AddBatch(t, p, batch[1..]);
    AddBatchAt(t, p, batch[1..], batch[0].key);
    AddBatchAt(t, p, batch[1..], p);
    IndexInTail(batch, batch[0].key);
  }

  /** Flushing a batch keeps the table well-formed. */
  lemma {:induction false} AddBatchWellFormed(t: Table, p: Key, batch: seq<Entry>)
    requires WellFormed(t) && p in t && BatchAddable(t, p, batch)
    ensures WellFormed(AddBatch(t, p, batch))
    decreases |batch|
  {
    if batch == [] {
      assert AddBatch(t, p, batch) == t;
    } else {
      BatchTail(t, p, batch);
      AddBatchWellFormed(t, p, batch[1..]);
      AddBatchFirst(t, p, batch);
      AddOneWellFormed(AddBatch(t, p, batch[1..]), p, batch[0]);
    }
  }

  // ----- a cluster root -----

  function RootKey(cluster: string): Key {
    AcctKey(cluster, "root")
  }

  /** `acct_storage_p_add_clusters`: a new root gets the two positions behind all others,
      a known one is only marked as not deleted. */
  function AddRoot(t: Table, cluster: string, given: Given): Table {
    var k := RootKey(cluster);
    if k in t then t[k := t[k].(deleted := 0, info := Updated(t[k].info, given))]
    else t[k := Row("", 2 * |t| + 1, 2 * |t| + 2, 0, Inserted(given))]
  }

  lemma AddRootNumbered(t: Table, cluster: string, given: Given)
    requires WellFormed(t) && RootKey(cluster) !in t
    ensures Numbered(AddRoot(t, cluster, given))
  {
    var k := RootKey(cluster);
    var m := AddRoot(t, cluster, given);
    assert m.Keys == t.Keys + {k};
    assert |m| == |m.Keys| == |t.Keys| + 1;
    forall i, j | i in m && j in m && i != j
      ensures Apart(m, i, j)
    {
      if i != k && j != k {
        assert Apart(t, i, j);
      }
    }
  }

  lemma AddRootLinkedOld(t: Table, cluster: string, given: Given, c: Key)
    requires WellFormed(t) && RootKey(cluster) !in t && c in t
    ensures LinkedRow(AddRoot(t, cluster, given), c)
  {
    var m := AddRoot(t, cluster, given);
    assert LinkedRow(t, c);
    if IsRoot(c, t[c]) {
      forall q | q in m
        ensures !Inside(m, c, q)
      {
        assert q in t ==> !Inside(t, c, q);
      }
    } else {
      var p := ParentKey(c, t[c]);
      forall q | q in m && Inside(m, c, q)
        ensures q == p || Inside(m, p, q)
      {
        assert q in t && Inside(t, c, q);
      }
    }
  }

  lemma AddRootWellFormed(t: Table, cluster: string, given: Given)
    requires WellFormed(t)
    ensures WellFormed(AddRoot(t, cluster, given))
  {
    var k := RootKey(cluster);
    var m := AddRoot(t, cluster, given);
    if k in t {
      UpdatedWellFormed(t, m);
    } else {
      AddRootNumbered(t, cluster, given);
      forall c | c in m
        ensures LinkedRow(m, c)
      {
        if c != k {
          AddRootLinkedOld(t, cluster, given, c);
        }
      }
    }
  }
}
