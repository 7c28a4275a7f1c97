/** The state between two flushes of `acct_storage_p_add_associations`: rows of the current
    group already sit in the table, marked `deleted=2`, on positions not yet made free. */
module TreeBatch {
  import opened Wrappers
  import opened NestedSet
  import opened TreeMove
  import opened TreeInsert
  import opened TreeItems

  // ----- rows without their numbers -----

  function BareRow(r: Row): Row {
    r.(lft := 0, rgt := 0)
  }

  function BareEntry(e: Entry): Row {
    Row(e.parentAcct, 0, 0, 0, e.info)
  }

  lemma AddOneAt(t: Table, p: Key, e: Entry, k: Key)
    requires p in t
    ensures var m := AddOne(t, p, e);
      && (k in m <==> k in t || k == e.key)
      && (k in m ==> BareRow(m[k]) == if k == e.key then BareEntry(e) else BareRow(t[k]))
  {
  }

  // ----- growing a batch -----

  lemma IndexInFront(batch: seq<Entry>, e: Entry, k: Key)
    requires DistinctKeys(batch + [e])
    ensures InBatch(batch + [e], k) <==> k == e.key || InBatch(batch, k)
    ensures InBatch(batch + [e], e.key) && IndexOf(batch + [e], e.key) == |batch|
    ensures InBatch(batch, k) ==> k != e.key && IndexOf(batch + [e], k) == IndexOf(batch, k)
  {
    assert (batch + [e])[|batch|].key == e.key;
    if InBatch(batch, k) {
      assert (batch + [e])[IndexOf(batch, k)].key == k;
    }
    if InBatch(batch + [e], k) && k != e.key {
      assert batch[IndexOf(batch + [e], k)].key == k;
    }
  }

  // ----- the state of the loop -----

  /** The table without the pending rows, the group they belong to, what the plain way of adding
      has reached with the same items, and the group as its caller knows it. */
  datatype Progress = Progress(base: Table, group: Key, batch: seq<Entry>, plain: Table, open: Group)

  ghost function Marked(base: Table, p: Key, batch: seq<Entry>): Table
    requires p in base
  {
    base + BatchRows(batch, base[p].lft + 1, 2)
  }

  ghost predicate MatchesAt(base: Table, batch: seq<Entry>, plain: Table, k: Key) {
    && (k in plain <==> k in base || InBatch(batch, k))
    && (k in base ==> !InBatch(batch, k) && BareRow(base[k]) == BareRow(plain[k]))
    && (InBatch(batch, k) ==> BareRow(plain[k]) == BareEntry(batch[IndexOf(batch, k)]))
  }

  /** The table with its batch has the rows the plain way has reached, up to their numbers. */
  ghost predicate Matches(base: Table, batch: seq<Entry>, plain: Table) {
    forall k {:trigger MatchesAt(base, batch, plain, k)} :: MatchesAt(base, batch, plain, k)
  }

  ghost predicate InStep(g: Progress) {
    && WellFormed(g.base) && WellFormed(g.plain)
    && (g.batch != [] ==> g.group in g.base && BatchAddable(g.base, g.group, g.batch))
    && Matches(g.base, g.batch, g.plain)
    && (g.open.keys == {} ==> g.batch == [] && g.base == g.plain)
    && (g.batch != [] ==> g.open.parent == Some(g.group))
    && (forall i :: 0 <= i < |g.batch| ==> g.batch[i].key in g.open.keys)
  }

  // ----- flushing -----

  /** `UPDATE ... SET deleted = 0 WHERE deleted = 2`. */
  function SettleRow(r: Row): Row {
    if r.deleted == 2 then r.(deleted := 0) else r
  }

  function FlushRow(r: Row, after: int, incr: int): Row {
    SettleRow(if r.deleted < 2 then ShiftRow(r, after, incr) else r)
  }

  lemma MarkedAt(base: Table, p: Key, batch: seq<Entry>, k: Key)
    requires p in base
    ensures k in Marked(base, p, batch) <==> k in base || InBatch(batch, k)
    ensures InBatch(batch, k) ==>
      var n := IndexOf(batch, k);
      Marked(base, p, batch)[k] == EntryRow(batch[n], base[p].lft + 1 + 2 * n, 2)
    ensures k in base && !InBatch(batch, k) ==> Marked(base, p, batch)[k] == base[k]
  {
  }

  lemma AddedAt(base: Table, p: Key, batch: seq<Entry>, k: Key)
    requires p in base
    ensures k in AddBatch(base, p, batch) <==> k in base || InBatch(batch, k)
    ensures InBatch(batch, k) ==>
      var n := IndexOf(batch, k);
      AddBatch(base, p, batch)[k] == EntryRow(batch[n], base[p].lft + 1 + 2 * n, 0)
    ensures k in base && !InBatch(batch, k) ==>
      AddBatch(base, p, batch)[k] == ShiftRow(base[k], base[p].lft, 2 * |batch|)
  {
  }

  lemma FlushAt(base: Table, p: Key, batch: seq<Entry>, marked: Table, m: Table, k: Key)
    requires p in base && Flagged(base) && marked == Marked(base, p, batch) && m == AddBatch(base, p, batch)
    ensures k in marked <==> k in m
    ensures k in marked ==> FlushRow(marked[k], base[p].lft, 2 * |batch|) == m[k]
  {
    MarkedAt(base, p, batch, k);
    AddedAt(base, p, batch, k);
  }

  lemma FlushIsAddBatch(base: Table, p: Key, batch: seq<Entry>, marked: Table)
    requires p in base && Flagged(base) && marked == Marked(base, p, batch)
    ensures (map i <- marked :: FlushRow(marked[i], base[p].lft, 2 * |batch|)) == AddBatch(base, p, batch)
  {
    var flushed, m := map i <- marked :: FlushRow(marked[i], base[p].lft, 2 * |batch|), AddBatch(base, p, batch);
    forall k
      ensures k in flushed <==> k in m
      ensures k in flushed ==> flushed[k] == m[k]
    {
      FlushAt(base, p, batch, marked, m, k);
    }
  }

  lemma FlushedMatchesAt(base: Table, p: Key, batch: seq<Entry>, plain: Table, k: Key)
    requires p in base && MatchesAt(base, batch, plain, k)
    ensures MatchesAt(AddBatch(base, p, batch), [], plain, k)
  {
    AddBatchAt(base, p, batch, k);
  }

  lemma FlushDone(g: Progress)
    requires InStep(g) && g.batch != [] && g.group in g.base
    ensures InStep(g.(base := AddBatch(g.base, g.group, g.batch), batch := []))
  {
    AddBatchWellFormed(g.base, g.group, g.batch);
    forall k
      ensures MatchesAt(AddBatch(g.base, g.group, g.batch), [], g.plain, k)
    {
      assert MatchesAt(g.base, g.batch, g.plain, k);
      FlushedMatchesAt(g.base, g.group, g.batch, g.plain, k);
    }
  }

  // ----- following the plain way -----

  /** The item takes the plain way from `g.plain` to `h.plain`. */
  ghost predicate Follows(g: Progress, it: Item, h: Progress) {
    AddItem(g.plain, it) == Some(h.plain) && h.open == GroupAfter(g.plain, g.open, it)
  }

  // ----- one more row in the group -----

  ghost predicate NewRow(g: Progress, it: Item) {
    && InStep(g) && ItemOk(g.plain, g.open, it) && ItemKey(it) !in g.plain
    && ParentOfItem(it) in g.base && (g.batch != [] ==> g.group == ParentOfItem(it))
  }

  lemma NewRowAddable(g: Progress, it: Item)
    requires NewRow(g, it)
    ensures ParentOfItem(it) in g.plain && ItemKey(it) !in g.base && !InBatch(g.batch, ItemKey(it))
    ensures Addable(g.base, ParentOfItem(it), ItemEntry(it))
  {
    assert MatchesAt(g.base, g.batch, g.plain, ParentOfItem(it));
    assert MatchesAt(g.base, g.batch, g.plain, ItemKey(it));
    ItemAddable(g.base, it);
  }

  lemma GrownAddable(base: Table, p: Key, batch: seq<Entry>, e: Entry)
    requires BatchAddable(base, p, batch) && Addable(base, p, e) && !InBatch(batch, e.key)
    ensures BatchAddable(base, p, batch + [e])
  {
    forall i | 0 <= i < |batch|
      ensures batch[i].key != e.key
    {
      assert batch[i].key == batch[i].key;
    }
  }

  lemma GrownMatches(base: Table, p: Key, batch: seq<Entry>, plain: Table, e: Entry)
    requires Matches(base, batch, plain) && p in plain && DistinctKeys(batch + [e]) && e.key !in base
    ensures Matches(base, batch + [e], AddOne(plain, p, e))
  {
    forall k
      ensures MatchesAt(base, batch + [e], AddOne(plain, p, e), k)
    {
      assert MatchesAt(base, batch, plain, k);
      AddOneAt(plain, p, e, k);
      IndexInFront(batch, e, k);
    }
  }

  ghost function WithRow(g: Progress, it: Item): Progress
    requires ParentOfItem(it) in g.plain
  {
    var p, e := ParentOfItem(it), ItemEntry(it);
    Progress(g.base, p, g.batch + [e], AddOne(g.plain, p, e), GroupAfter(g.plain, g.open, it))
  }

  lemma WithRowInStep(g: Progress, it: Item)
    requires NewRow(g, it)
    ensures ParentOfItem(it) in g.plain && InStep(WithRow(g, it))
    ensures Follows(g, it, WithRow(g, it))
  {
    var p, e := ParentOfItem(it), ItemEntry(it);
    NewRowAddable(g, it);
    GrownAddable(g.base, p, g.batch, e);
    GrownMatches(g.base, p, g.batch, g.plain, e);
    ItemAddable(g.plain, it);
    AddOneWellFormed(g.plain, p, e);
  }

  lemma GrownMarkedAt(base: Table, p: Key, batch: seq<Entry>, e: Entry, all: Table, front: Table, k: Key)
    requires p in base && DistinctKeys(batch + [e])
    requires all == Marked(base, p, batch + [e]) && front == Marked(base, p, batch)
    ensures k in all <==> k in front || k == e.key
    ensures k in all ==> all[k] == if k == e.key then EntryRow(e, base[p].lft + 1 + 2 * |batch|, 2) else front[k]
  {
    MarkedAt(base, p, batch + [e], k);
    MarkedAt(base, p, batch, k);
    IndexInFront(batch, e, k);
  }

  lemma UpdatedPointwise(t: Table, u: Table, k: Key, r: Row)
    requires forall i :: (i in t <==> i in u || i == k) && (i in t ==> t[i] == if i == k then r else u[i])
    ensures t == u[k := r]
  {
  }

  lemma WithRowMarked(base: Table, p: Key, batch: seq<Entry>, e: Entry)
    requires p in base && DistinctKeys(batch + [e])
    ensures Marked(base, p, batch + [e])
         == Marked(base, p, batch)[e.key := EntryRow(e, base[p].lft + 1 + 2 * |batch|, 2)]
  {
    var all, front := Marked(base, p, batch + [e]), Marked(base, p, batch);
    var r := EntryRow(e, base[p].lft + 1 + 2 * |batch|, 2);
    forall k
      ensures (k in all <==> k in front || k == e.key) && (k in all ==> all[k] == if k == e.key then r else front[k])
    {
      GrownMarkedAt(base, p, batch, e, all, front, k);
    }
    hide *;
    UpdatedPointwise(all, front, e.key, r);
  }

  // ----- reviving a row while a batch is pending -----

  lemma RevivedMatches(base: Table, batch: seq<Entry>, plain: Table, k: Key, it: Item)
    requires Matches(base, batch, plain) && k in base && k in plain && !InBatch(batch, k)
    ensures Matches(base[k := RevivedRow(base[k], it)], batch, plain[k := RevivedRow(plain[k], it)])
  {
    var b, q := base[k := RevivedRow(base[k], it)], plain[k := RevivedRow(plain[k], it)];
    forall i
      ensures MatchesAt(b, batch, q, i)
    {
      assert MatchesAt(base, batch, plain, i);
      assert MatchesAt(base, batch, plain, k);
    }
  }

  ghost function WithRevived(g: Progress, it: Item): Progress
    requires ItemKey(it) in g.base && ItemKey(it) in g.plain
  {
    var k := ItemKey(it);
    g.(base := g.base[k := RevivedRow(g.base[k], it)], plain := g.plain[k := RevivedRow(g.plain[k], it)])
  }

  ghost predicate OldRow(g: Progress, it: Item) {
    InStep(g) && ItemOk(g.plain, g.open, it) && ItemKey(it) in g.plain
  }

  lemma OldRowAt(g: Progress, it: Item)
    requires OldRow(g, it)
    ensures ItemKey(it) in g.base && !InBatch(g.batch, ItemKey(it))
    ensures BareRow(g.base[ItemKey(it)]) == BareRow(g.plain[ItemKey(it)])
  {
    var k := ItemKey(it);
    assert MatchesAt(g.base, g.batch, g.plain, k);
    assert InBatch(g.batch, k) ==> k in g.open.keys;
  }

  lemma RevivedAddable(base: Table, p: Key, batch: seq<Entry>, k: Key, r: Row)
    requires BatchAddable(base, p, batch) && k in base && p in base
    ensures BatchAddable(base[k := r], p, batch)
  {
    forall i | 0 <= i < |batch|
      ensures Addable(base[k := r], p, batch[i])
    {
      assert Addable(base, p, batch[i]);
    }
  }

  lemma RevivedWellFormed(t: Table, it: Item)
    requires WellFormed(t) && ItemKey(it) in t && (it.user != "" || !NeedsMove(t[ItemKey(it)], it)) && Revivable(t, it)
    ensures WellFormed(t[ItemKey(it) := RevivedRow(t[ItemKey(it)], it)])
  {
    UpdatedWellFormed(t, t[ItemKey(it) := RevivedRow(t[ItemKey(it)], it)]);
  }

  /** The item moves nothing, for whichever reason. */
  predicate InPlace(t: Table, g: Group, it: Item)
    requires ItemKey(it) in t
  {
    !NeedsMove(t[ItemKey(it)], it) || StaysPut(t, g, it)
  }

  lemma PlainInPlace(g: Progress, it: Item)
    requires OldRow(g, it) && g.plain[ItemKey(it)].deleted != 0 && InPlace(g.plain, g.open, it)
    ensures AddItem(g.plain, it) == Some(g.plain[ItemKey(it) := RevivedRow(g.plain[ItemKey(it)], it)])
  {
    if NeedsMove(g.plain[ItemKey(it)], it) {
      NothingMoves(g.plain, ItemKey(it), it.parentAcct.value);
    }
  }

  lemma RevivedInStep(g: Progress, it: Item)
    requires OldRow(g, it) && g.plain[ItemKey(it)].deleted != 0 && InPlace(g.plain, g.open, it)
    ensures ItemKey(it) in g.base && InStep(WithRevived(g, it))
    ensures Follows(g, it, WithRevived(g, it))
  {
    var k := ItemKey(it);
    OldRowAt(g, it);
    PlainInPlace(g, it);
    RevivableInBase(g, it);
    RevivedWellFormed(g.plain, it);
    RevivedWellFormed(g.base, it);
    RevivedMatches(g.base, g.batch, g.plain, k, it);
    if g.batch != [] {
      RevivedAddable(g.base, g.group, g.batch, k, RevivedRow(g.base[k], it));
    }
  }

  lemma RevivableInBase(g: Progress, it: Item)
    requires OldRow(g, it) && g.plain[ItemKey(it)].deleted != 0 && InPlace(g.plain, g.open, it)
    ensures ItemKey(it) in g.base && Revivable(g.base, it)
    ensures it.user != "" || !NeedsMove(g.base[ItemKey(it)], it)
  {
    OldRowAt(g, it);
    if StaysPut(g.plain, g.open, it) {
      assert MatchesAt(g.base, g.batch, g.plain, AcctKey(it.cluster, it.parentAcct.value));
    }
  }

  lemma RevivedMarked(base: Table, p: Key, batch: seq<Entry>, k: Key, r: Row)
    requires p in base && k in base && !InBatch(batch, k) && r.lft == base[k].lft
    ensures Marked(base[k := r], p, batch) == Marked(base, p, batch)[k := r]
  {
    hide BatchRows, InBatch;
    UpdatePlus(base, BatchRows(batch, base[p].lft + 1, 2), k, r);
    assert base[k := r][p].lft == base[p].lft;
  }

  lemma UpdatePlus(a: Table, b: Table, k: Key, r: Row)
    requires k !in b
    ensures a[k := r] + b == (a + b)[k := r]
  {
  }

  // ----- the rows as the loop finds them -----

  ghost predicate RowsOf(g: Progress, rows: Table) {
    if g.batch == [] then rows == g.base
    else g.group in g.base && rows == Marked(g.base, g.group, g.batch)
  }

  lemma RowsOfAt(g: Progress, rows: Table, k: Key)
    requires InStep(g) && RowsOf(g, rows)
    ensures k in rows <==> k in g.plain
    ensures k in g.base ==> k in rows && rows[k] == g.base[k]
    ensures k in g.base && g.batch == [] ==> rows == g.base
  {
    assert MatchesAt(g.base, g.batch, g.plain, k);
  }

  lemma EmptyMarked(base: Table, p: Key)
    requires p in base
    ensures Marked(base, p, []) == base
  {
  }

  lemma GrownRows(base: Table, p: Key, batch: seq<Entry>, rows: Table, e: Entry)
    requires p in base && DistinctKeys(batch + [e])
    requires rows == if batch == [] then base else Marked(base, p, batch)
    ensures rows[e.key := EntryRow(e, base[p].lft + 1 + 2 * |batch|, 2)] == Marked(base, p, batch + [e])
  {
    WithRowMarked(base, p, batch, e);
    if batch == [] {
      EmptyMarked(base, p);
    }
  }

  lemma WithRowRows(g: Progress, it: Item, rows: Table)
    requires NewRow(g, it) && RowsOf(g, rows) && ParentOfItem(it) in g.plain
    ensures RowsOf(WithRow(g, it),
      rows[ItemKey(it) := EntryRow(ItemEntry(it), g.base[ParentOfItem(it)].lft + 1 + 2 * |g.batch|, 2)])
  {
    hide InStep;
    NewRowAddable(g, it);
    NewRowGrows(g, it);
    GrownRows(g.base, ParentOfItem(it), g.batch, rows, ItemEntry(it));
  }

  lemma NewRowGrows(g: Progress, it: Item)
    requires NewRow(g, it)
    ensures BatchAddable(g.base, ParentOfItem(it), g.batch + [ItemEntry(it)])
  {
    NewRowAddable(g, it);
    GrownAddable(g.base, ParentOfItem(it), g.batch, ItemEntry(it));
  }

  lemma RevivedRows(g: Progress, it: Item, rows: Table)
    requires OldRow(g, it) && RowsOf(g, rows)
    ensures ItemKey(it) in g.base && ItemKey(it) in rows && rows[ItemKey(it)] == g.base[ItemKey(it)]
    ensures ItemKey(it) in g.plain && RowsOf(WithRevived(g, it), rows[ItemKey(it) := RevivedRow(rows[ItemKey(it)], it)])
  {
    hide InStep;
    OldRowAt(g, it);
    RowsOfAt(g, rows, ItemKey(it));
    if g.batch != [] {
      RevivedMarked(g.base, g.group, g.batch, ItemKey(it), RevivedRow(g.base[ItemKey(it)], it));
    }
  }

  function FlushedRows(rows: Table, myLeft: int, incr: int): Table {
    map i <- rows :: FlushRow(rows[i], myLeft, incr)
  }

  lemma FlushDoneRows(g: Progress, rows: Table)
    requires InStep(g) && RowsOf(g, rows) && g.batch != [] && g.group in g.base
    ensures RowsOf(g.(base := AddBatch(g.base, g.group, g.batch), batch := []),
                   FlushedRows(rows, g.base[g.group].lft, 2 * |g.batch|))
  {
    assert Flagged(g.base);
    FlushIsAddBatch(g.base, g.group, g.batch, rows);
  }

  // ----- the list of items -----

  /** Where the loop stands: the table it started from, the next item, and its variables. */
  datatype Cursor = Cursor(before: Table, items: seq<Item>, i: nat, g: Progress, incr: int, myLeft: int,
                           oldGroup: Option<Key>)

  /** The plain way has dealt with the first `i` items. */
  ghost predicate Planned(before: Table, items: seq<Item>, i: nat, g: Progress) {
    && i <= |items|
    && ItemsOk(g.plain, g.open, items[i..])
    && AddItems(before, items) == AddItems(g.plain, items[i..])
    && AddedItems(before, items) == AddedItems(g.plain, items[i..])
  }

  lemma PlanStep(before: Table, items: seq<Item>, i: nat, g: Progress, h: Progress)
    requires Planned(before, items, i, g) && i < |items|
    requires Follows(g, items[i], h)
    ensures Planned(before, items, i + 1, h)
  {
    assert items[i..][0] == items[i];
    assert items[i..][1..] == items[i + 1..];
  }

  lemma PlanItem(before: Table, items: seq<Item>, i: nat, g: Progress)
    requires Planned(before, items, i, g) && i < |items|
    ensures ItemOk(g.plain, g.open, items[i])
    ensures AddItem(g.plain, items[i]).None? ==> AddItems(before, items).None? && AddedItems(before, items) == g.plain
  {
    assert items[i..][0] == items[i];
  }

  // ----- the whole loop state -----

  ghost predicate InLoop(c: Cursor, rows: Table) {
    && c.i <= |c.items|
    && InStep(c.g) && RowsOf(c.g, rows) && Planned(c.before, c.items, c.i, c.g)
    && c.incr == 2 * |c.g.batch|
    && (if c.incr == 0 then c.oldGroup == None
        else c.g.group in c.g.base && c.oldGroup == Some(c.g.group) && c.myLeft == c.g.base[c.g.group].lft)
  }

  /** The plain way meets a new row whose parent does not exist, and what it has reached by then is there. */
  ghost predicate Blocked(before: Table, items: seq<Item>, rows: Table) {
    AddItems(before, items).None? && WellFormed(rows) && SameTree(rows, AddedItems(before, items))
  }

  ghost function StartCursor(t: Table, items: seq<Item>): Cursor {
    Cursor(t, items, 0, Progress(t, RootKey(""), [], t, NO_GROUP), 0, 0, None)
  }

  lemma LoopStart(t: Table, items: seq<Item>)
    requires WellFormed(t) && ItemsOk(t, NO_GROUP, items)
    ensures InLoop(StartCursor(t, items), t)
  {
    var g := Progress(t, RootKey(""), [], t, NO_GROUP);
    forall k
      ensures MatchesAt(g.base, g.batch, g.plain, k)
    {
    }
    assert items[0..] == items;
  }

  lemma LoopFlush(c: Cursor, rows: Table) returns (d: Cursor)
    requires InLoop(c, rows) && c.incr != 0
    ensures d == c.(g := d.g, incr := 0, oldGroup := None)
    ensures InLoop(d, FlushedRows(rows, c.myLeft, c.incr))
  {
    hide InStep, RowsOf, Planned;
    FlushDone(c.g);
    FlushDoneRows(c.g, rows);
    d := c.(g := c.g.(base := AddBatch(c.g.base, c.g.group, c.g.batch), batch := []), incr := 0, oldGroup := None);
    FlushPlanned(c, d.g);
  }

  lemma FlushPlanned(c: Cursor, h: Progress)
    requires Planned(c.before, c.items, c.i, c.g) && h.plain == c.g.plain && h.open == c.g.open
    ensures Planned(c.before, c.items, c.i, h)
  {
  }

  /** Without pending rows, the table holds what the plain way has reached. */
  lemma LoopFlushed(c: Cursor, rows: Table)
    requires InLoop(c, rows) && c.incr == 0
    ensures WellFormed(rows) && SameTree(rows, c.g.plain)
  {
    forall k
      ensures k in rows <==> k in c.g.plain
      ensures k in rows ==> BareRow(rows[k]) == BareRow(c.g.plain[k])
    {
      assert MatchesAt(c.g.base, c.g.batch, c.g.plain, k);
    }
  }

  lemma LoopMissing(c: Cursor, rows: Table)
    requires InLoop(c, rows) && c.i < |c.items| && c.incr == 0
    requires ItemKey(c.items[c.i]) !in rows && ParentOfItem(c.items[c.i]) !in rows
    ensures Blocked(c.before, c.items, rows)
  {
    hide InStep, RowsOf, Planned, SameTree, WellFormed;
    RowsOfAt(c.g, rows, ItemKey(c.items[c.i]));
    RowsOfAt(c.g, rows, ParentOfItem(c.items[c.i]));
    PlanItem(c.before, c.items, c.i, c.g);
    LoopFlushed(c, rows);
  }

  lemma LoopNewRow(c: Cursor, rows: Table, myLeft: int)
    requires InLoop(c, rows) && c.i < |c.items| && ItemKey(c.items[c.i]) !in rows
    requires var p := ParentOfItem(c.items[c.i]);
      if c.incr == 0 then p in rows && myLeft == rows[p].lft else c.oldGroup == Some(p) && myLeft == c.myLeft
    ensures NewRow(c.g, c.items[c.i]) && myLeft == c.g.base[ParentOfItem(c.items[c.i])].lft
  {
    hide InStep, Planned;
    var it := c.items[c.i];
    RowsOfAt(c.g, rows, ItemKey(it));
    PlanItem(c.before, c.items, c.i, c.g);
    if c.incr == 0 {
    }
  }

  lemma LoopInsert(c: Cursor, rows: Table, myLeft: int) returns (d: Cursor)
    requires InLoop(c, rows) && c.i < |c.items| && ItemKey(c.items[c.i]) !in rows
    requires var p := ParentOfItem(c.items[c.i]);
      if c.incr == 0 then p in rows && myLeft == rows[p].lft else c.oldGroup == Some(p) && myLeft == c.myLeft
    ensures var it := c.items[c.i];
      && d == c.(i := c.i + 1, g := d.g, incr := c.incr + 2, myLeft := myLeft, oldGroup := Some(ParentOfItem(it)))
      && InLoop(d, rows[ItemKey(it) := EntryRow(ItemEntry(it), myLeft + (c.incr + 2 - 1), 2)])
  {
    hide InStep, RowsOf, Planned;
    var it := c.items[c.i];
    LoopNewRow(c, rows, myLeft);
    WithRowInStep(c.g, it);
    WithRowRows(c.g, it, rows);
    PlanStep(c.before, c.items, c.i, c.g, WithRow(c.g, it));
    assert EntryRow(ItemEntry(it), c.g.base[ParentOfItem(it)].lft + 1 + 2 * |c.g.batch|, 2)
        == EntryRow(ItemEntry(it), myLeft + (c.incr + 2 - 1), 2);
    d := c.(i := c.i + 1, g := WithRow(c.g, it), incr := c.incr + 2, myLeft := myLeft,
            oldGroup := Some(ParentOfItem(it)));
  }

  lemma LoopOldRow(c: Cursor, rows: Table)
    requires InLoop(c, rows) && c.i < |c.items| && ItemKey(c.items[c.i]) in rows
    ensures OldRow(c.g, c.items[c.i]) &&
      BareRow(rows[ItemKey(c.items[c.i])]) == BareRow(c.g.plain[ItemKey(c.items[c.i])])
  {
    hide InStep, RowsOf, Planned;
    RowsOfAt(c.g, rows, ItemKey(c.items[c.i]));
    PlanItem(c.before, c.items, c.i, c.g);
    OldRowAt(c.g, c.items[c.i]);
  }

  lemma LoopReviveInPlace(c: Cursor, rows: Table) returns (d: Cursor)
    requires InLoop(c, rows) && c.i < |c.items| && ItemKey(c.items[c.i]) in rows
    requires rows[ItemKey(c.items[c.i])].deleted != 0
    requires ItemKey(c.items[c.i]) in c.g.plain && InPlace(c.g.plain, c.g.open, c.items[c.i])
    ensures var it := c.items[c.i];
      && d == c.(i := c.i + 1, g := d.g)
      && InLoop(d, rows[ItemKey(it) := RevivedRow(rows[ItemKey(it)], it)])
  {
    hide InStep, RowsOf, Planned, InPlace;
    var it := c.items[c.i];
    LoopOldRow(c, rows);
    RevivedInStep(c.g, it);
    RevivedRows(c.g, it, rows);
    PlanStep(c.before, c.items, c.i, c.g, WithRevived(c.g, it));
    d := c.(i := c.i + 1, g := WithRevived(c.g, it));
  }

  /** While rows are pending, whatever the query without a cluster finds, nothing moves. */
  lemma LoopStays(c: Cursor, rows: Table, found: Option<Key>)
    requires InLoop(c, rows) && c.i < |c.items| && ItemKey(c.items[c.i]) in rows
    requires ItemKey(c.items[c.i]) in c.g.plain && StaysPut(c.g.plain, c.g.open, c.items[c.i])
    requires found.Some? ==> found.value in rows
    requires var r := rows[ItemKey(c.items[c.i])]; Found(rows, r.lft, r.rgt, c.items[c.i].parentAcct.value, found)
    ensures var it := c.items[c.i];
      MoveFound(rows, ItemKey(it), rows[ItemKey(it)].parentAcct, it.parentAcct.value, found) == rows
  {
    hide InStep, RowsOf, Planned, Passed;
    var it := c.items[c.i];
    var k, v := ItemKey(it), it.parentAcct.value;
    LoopOldRow(c, rows);
    OldRowAt(c.g, it);
    RowsOfAt(c.g, rows, k);
    RowsOfAt(c.g, rows, AcctKey(it.cluster, v));
    RowsOfAt(c.g, rows, AcctKey(it.cluster, ""));
    NoNamelessAccount(c.g, it.cluster);
    if found.Some? {
      RowsOfAt(c.g, rows, found.value);
      FoundIsNew(c.g, it, found.value, rows[k].lft, rows[k].rgt);
    }
  }

  lemma NoNamelessAccount(g: Progress, cluster: string)
    requires InStep(g)
    ensures AcctKey(cluster, "") !in g.plain
  {
  }

  /** What the query finds is a pending row. */
  lemma FoundIsNew(g: Progress, it: Item, i: Key, lft: int, rgt: int)
    requires OldRow(g, it) && StaysPut(g.plain, g.open, it) && i in g.plain
    requires ItemKey(it) in g.base && lft == g.base[ItemKey(it)].lft && rgt == g.base[ItemKey(it)].rgt
    requires i in g.base ==> IsBelow(g.base, lft, rgt, it.parentAcct.value, i)
    ensures i in g.open.keys
  {
    assert MatchesAt(g.base, g.batch, g.plain, i);
    assert MatchesAt(g.base, g.batch, g.plain, AcctKey(it.cluster, it.parentAcct.value));
    if i in g.base {
      FoundIsNewParent(g.base, ItemKey(it), it.parentAcct.value, i);
    }
  }

  lemma LoopCanMove(c: Cursor, rows: Table)
    requires InLoop(c, rows) && c.i < |c.items| && ItemKey(c.items[c.i]) in rows
    requires rows[ItemKey(c.items[c.i])].deleted != 0 && NeedsMove(rows[ItemKey(c.items[c.i])], c.items[c.i])
    requires ItemKey(c.items[c.i]) in c.g.plain && !StaysPut(c.g.plain, c.g.open, c.items[c.i])
    ensures rows == c.g.plain && rows == c.g.base && c.g.batch == [] && WellFormed(rows)
    ensures Movable(rows, ItemKey(c.items[c.i]), c.items[c.i].parentAcct.value)
    ensures ItemOk(rows, c.g.open, c.items[c.i])
  {
    hide Planned;
    LoopOldRow(c, rows);
  }

  lemma MovedInStep(t: Table, g: Progress, it: Item)
    requires WellFormed(t) && ItemOk(t, g.open, it) && ItemKey(it) in t && t[ItemKey(it)].deleted != 0
    requires NeedsMove(t[ItemKey(it)], it) && g.batch == []
    ensures InStep(g.(base := Revive(t, it), plain := Revive(t, it)))
    ensures g.plain == t ==> Follows(g, it, g.(base := Revive(t, it), plain := Revive(t, it)))
  {
    var u := Revive(t, it);
    AddItemCorrect(t, g.open, it);
    forall k
      ensures MatchesAt(u, g.batch, u, k)
    {
    }
  }

  lemma LoopReviveMoved(c: Cursor, rows: Table, moved: Table) returns (d: Cursor)
    requires InLoop(c, rows) && c.i < |c.items| && ItemKey(c.items[c.i]) in rows
    requires rows[ItemKey(c.items[c.i])].deleted != 0 && NeedsMove(rows[ItemKey(c.items[c.i])], c.items[c.i])
    requires ItemKey(c.items[c.i]) in c.g.plain && !StaysPut(c.g.plain, c.g.open, c.items[c.i])
    requires moved == MoveParent(rows, ItemKey(c.items[c.i]), c.items[c.i].parentAcct.value)
    ensures var it := c.items[c.i];
      && ItemKey(it) in moved
      && d == c.(i := c.i + 1, g := d.g)
      && InLoop(d, moved[ItemKey(it) := RevivedRow(moved[ItemKey(it)], it)])
  {
    var it := c.items[c.i];
    var h := c.g.(base := Revive(rows, it), plain := Revive(rows, it));
    LoopCanMove(c, rows);
    assert moved[ItemKey(it) := RevivedRow(moved[ItemKey(it)], it)] == Revive(rows, it);
    hide InStep, Planned, StaysPut, Revive, MoveParent, RevivedRow, NeedsMove, Movable, Found;
    MovedInStep(rows, c.g, it);
    BaseRows(h);
    PlanStep(c.before, c.items, c.i, c.g, h);
    d := c.(i := c.i + 1, g := h);
  }

  lemma BaseRows(g: Progress)
    requires g.batch == []
    ensures RowsOf(g, g.base)
  {
  }

  lemma LoopSkip(c: Cursor, rows: Table)
    requires InLoop(c, rows) && c.i < |c.items| && ItemKey(c.items[c.i]) in rows
    requires rows[ItemKey(c.items[c.i])].deleted == 0
    ensures InLoop(c.(i := c.i + 1), rows)
  {
    hide InStep, RowsOf, Planned;
    LoopOldRow(c, rows);
    assert Follows(c.g, c.items[c.i], c.g);
    PlanStep(c.before, c.items, c.i, c.g, c.g);
  }

  lemma LoopEnd(c: Cursor, rows: Table)
    requires InLoop(c, rows) && c.i == |c.items| && c.incr == 0
    ensures WellFormed(rows) && AddItems(c.before, c.items).Some? && SameTree(rows, AddItems(c.before, c.items).value)
  {
    hide InStep, RowsOf, SameTree, WellFormed;
    LoopFlushed(c, rows);
  }
}
