/** The association table as the plugin changes it: one assignment to `rows` per SQL statement. */
module AssocTable {
  import opened Wrappers
  import opened NestedSet
  import opened Columns
  import opened TreeMove
  import opened TreeInsert
  import opened TreeRemove
  import opened TreeItems
  import opened TreeBatch
  import opened TreeColumns
  import opened TreeModify

  // ----- the query of _move_parent -----

  /** One of the rows with the least `lft`. */
  method FirstByLft(t: Table, below: set<Key>) returns (c: Key)
    requires below != {} && below <= t.Keys
    ensures c in below && forall i <- below :: t[c].lft <= t[i].lft
  {
    c :| c in below;
    var rest := below - {c};
    while rest != {}
      invariant c in below && rest <= below && forall i <- below - rest :: t[c].lft <= t[i].lft
      decreases |rest|
    {
      var i :| i in rest;
      if t[i].lft < t[c].lft {
        c := i;
      }
      rest := rest - {i};
    }
  }

  // ----- the statements around a batch and a deletion -----

  /** `coalesce(max(rgt), 0)`. */
  predicate IsMaxRgt(t: Table, max: int) {
    if t == map[] then max == 0
    else max in (set i <- t :: t[i].rgt) && forall i <- t :: t[i].rgt <= max
  }

  lemma MaxRgtIsLast(t: Table)
    requires Numbered(t)
    ensures IsMaxRgt(t, 2 * |t|)
    ensures forall max {:trigger IsMaxRgt(t, max)} :: IsMaxRgt(t, max) ==> max == 2 * |t|
  {
    if t != map[] {
      NumberingIsGapFree(t);
      assert 2 * |t| in EndPoints(t);
      var i :| i in t && (t[i].lft == 2 * |t| || t[i].rgt == 2 * |t|);
      assert t[i].lft < t[i].rgt;
      assert 2 * |t| in (set i <- t :: t[i].rgt);
    }
  }

  /** `select id ... where creation_time > dayOld && (...)`. */
  function Recent(t: Table, selected: seq<Key>, dayOld: int): seq<Key>
    decreases |selected|
  {
    if selected == [] then []
    else
      var rest := Recent(t, selected[1..], dayOld);
      if selected[0] in t && t[selected[0]].info.created > dayOld then [selected[0]] + rest else rest
  }

  /** The fields `_remove_common` clears on a row it only marks as deleted. */
  function ClearedRow(r: Row): Row {
    r.(deleted := 1,
       info := r.info.(limits := r.info.limits - {MaxJobs, MaxNodesPerJob, MaxWallPerJob, MaxCpuMinsPerJob}))
  }

  function ClearRows(t: Table, selected: seq<Key>): Table {
    map i <- t :: if i in selected then ClearedRow(t[i]) else t[i]
  }

  lemma RemovalDone(t: Table, gone: seq<Key>, selected: seq<Key>)
    requires WellFormed(t)
    ensures var m := ClearRows(RemoveEach(t, gone), selected);
      && WellFormed(m)
      && m.Keys == (set i <- t | !Doomed(t, gone, i))
      && (forall i <- m :: i in t &&
            var was := if i in selected then ClearedRow(t[i]) else t[i];
            m[i].(lft := 0, rgt := 0) == was.(lft := 0, rgt := 0))
      && (forall i, j {:trigger SameOrder(t, m, i, j)} :: i in m && j in m ==>
           i in t && j in t && SameOrder(t, m, i, j))
  {
    var e := RemoveEach(t, gone);
    var m := ClearRows(e, selected);
    forall i
      ensures i in e <==> i in t && !Doomed(t, gone, i)
      ensures i in e ==> Survives(t, e, i)
    {
      RemoveEachKeepsTheRest(t, gone, i);
    }
    RemoveEachKeepsTheRest(t, gone, RootKey(""));
    UpdatedWellFormed(e, m);
    forall i, j | i in m && j in m
      ensures i in t && j in t && SameOrder(t, m, i, j)
    {
      RemoveEachKeepsOrder(t, gone, i, j);
    }
  }

  // ----- what a removal does, row by row -----

  /** A row goes for good when some selected row at or above it is newer than a day and no jobs have run. */
  ghost predicate GoneForGood(t: Table, selected: seq<Key>, dayOld: int, hasJobs: bool, k: Key) {
    !hasJobs && exists a {:trigger Reaches(t, k, a)} ::
      a in selected && a in t && t[a].info.created > dayOld && Reaches(t, k, a)
  }

  /** A selected row that stays is marked and loses four limits; nothing else changes but numbers. */
  ghost predicate MarkedOrKept(was: Row, now: Row, selected: bool) {
    && now.deleted == (if selected then 1 else was.deleted)
    && now.parentAcct == was.parentAcct && now.info == was.info.(limits := now.info.limits)
    && (forall l :: l in now.info.limits <==>
          l in was.info.limits && !(selected && l in {MaxJobs, MaxNodesPerJob, MaxWallPerJob, MaxCpuMinsPerJob}))
    && forall l <- now.info.limits :: l in was.info.limits && now.info.limits[l] == was.info.limits[l]
  }

  lemma {:induction false} RecentIs(t: Table, selected: seq<Key>, dayOld: int, a: Key)
    ensures a in Recent(t, selected, dayOld) <==> a in selected && a in t && t[a].info.created > dayOld
    decreases |selected|
  {
    if selected != [] {
      RecentIs(t, selected[1..], dayOld, a);
    }
  }

  lemma DoomedIsGone(t: Table, selected: seq<Key>, dayOld: int, hasJobs: bool, k: Key)
    ensures Doomed(t, if hasJobs then [] else Recent(t, selected, dayOld), k) <==>
      GoneForGood(t, selected, dayOld, hasJobs, k)
  {
    if !hasJobs {
      forall a
        ensures a in Recent(t, selected, dayOld) <==> a in selected && a in t && t[a].info.created > dayOld
      {
        RecentIs(t, selected, dayOld, a);
      }
    }
  }

  lemma ClearedIs(r: Row, now: Row, selected: bool)
    requires now.(lft := 0, rgt := 0) == (if selected then ClearedRow(r) else r).(lft := 0, rgt := 0)
    ensures MarkedOrKept(r, now, selected)
  {
    assert now.info == (if selected then ClearedRow(r) else r).info;
  }

  ghost predicate Removed(t: Table, selected: seq<Key>, dayOld: int, hasJobs: bool, u: Table) {
    && (forall k :: k in u <==> k in t && !GoneForGood(t, selected, dayOld, hasJobs, k))
    && forall k <- u :: k in t && MarkedOrKept(t[k], u[k], k in selected)
  }

  lemma RemovedRow(t: Table, selected: seq<Key>, gone: seq<Key>, k: Key)
    requires WellFormed(t)
    ensures var u := ClearRows(RemoveEach(t, gone), selected);
      && (k in u <==> k in t && !Doomed(t, gone, k))
      && (k in u ==> MarkedOrKept(t[k], u[k], k in selected))
  {
    RemovalDone(t, gone, selected);
    var u := ClearRows(RemoveEach(t, gone), selected);
    hide Doomed, MarkedOrKept, ClearedRow, ClearRows, RemoveEach, WellFormed, SameOrder;
    assert k in u.Keys <==> k in (set i <- t | !Doomed(t, gone, i));
    if k in u {
      ClearedIs(t[k], u[k], k in selected);
    }
  }

  lemma RemovalIs(t: Table, selected: seq<Key>, dayOld: int, hasJobs: bool)
    requires WellFormed(t)
    ensures var gone := if hasJobs then [] else Recent(t, selected, dayOld);
      Removed(t, selected, dayOld, hasJobs, ClearRows(RemoveEach(t, gone), selected))
  {
    var gone := if hasJobs then [] else Recent(t, selected, dayOld);
    var u := ClearRows(RemoveEach(t, gone), selected);
    hide Doomed, GoneForGood, MarkedOrKept, ClearRows, RemoveEach, Recent, WellFormed;
    forall k
      ensures k in u <==> k in t && !GoneForGood(t, selected, dayOld, hasJobs, k)
      ensures k in u ==> MarkedOrKept(t[k], u[k], k in selected)
    {
      RemovedRow(t, selected, gone, k);
      DoomedIsGone(t, selected, dayOld, hasJobs, k);
    }
  }

  // ----- what adding a cluster does -----

  /** The cluster's root is there, live and with what is given, a new one behind all numbers; no other row
      changes. */
  ghost predicate ClusterAdded(t: Table, cluster: string, given: Given, u: Table) {
    var k := Key(cluster, "root", "", "");
    && u.Keys == t.Keys + {k} && (forall i <- t :: i != k ==> u[i] == t[i])
    && u[k].deleted == 0
    && (k in t ==> Holds(t[k].info, given, u[k].info) && u[k] == t[k].(deleted := 0, info := u[k].info))
    && (k !in t ==>
          && NewHolds(given, u[k].info) && u[k].parentAcct == ""
          && u[k].lft == 2 * |t| + 1 && u[k].rgt == 2 * |t| + 2)
  }

  lemma KnownRootIsAdded(t: Table, cluster: string, given: Given)
    requires RootKey(cluster) in t
    ensures ClusterAdded(t, cluster, given, AddRoot(t, cluster, given))
  {
    hide Holds, NewHolds, Updated, Inserted;
    UpdatedHolds(t[RootKey(cluster)].info, given);
    assert AddRoot(t, cluster, given).Keys == t.Keys + {RootKey(cluster)};
  }

  lemma NewRootIsAdded(t: Table, cluster: string, given: Given)
    requires RootKey(cluster) !in t
    ensures ClusterAdded(t, cluster, given, AddRoot(t, cluster, given))
  {
    hide Holds, NewHolds, Updated, Inserted;
    InsertedHolds(given);
    assert AddRoot(t, cluster, given).Keys == t.Keys + {RootKey(cluster)};
  }

  lemma RootIsAdded(t: Table, cluster: string, given: Given)
    ensures ClusterAdded(t, cluster, given, AddRoot(t, cluster, given))
  {
    if RootKey(cluster) in t {
      KnownRootIsAdded(t, cluster, given);
    } else {
      NewRootIsAdded(t, cluster, given);
    }
    hide *;
  }

  lemma PassesDone(t: Table, k: Key, p: Key, lft: int, rgt: int, diff: int, passed: Table)
    requires k in t && p in t && passed.Keys == t.Keys
    requires lft == t[k].lft && rgt == t[k].rgt && diff == t[p].lft + 1 - lft
    requires forall i <- passed :: passed[i] == PassRow(t[i], lft, rgt, diff, rgt - lft + 1, t[p].lft)
    ensures passed[k := passed[k].(parentAcct := p.acct)] == Passed(t, k, p)
  {
    hide PassRow;
  }

  lemma FlaggedWhenWellFormed(t: Table)
    requires WellFormed(t)
    ensures Flagged(t)
  {
  }

  class AssociationTable {
    var rows: Table

    constructor ()
      ensures rows == map[]
    {
      rows := map[];
    }

    /** The shifting statements of `_move_account`, one pass over the rows each. */
    method RunPasses(lft: int, rgt: int, diff: int, width: int, after: int)
      modifies this
      ensures rows.Keys == old(rows.Keys)
      ensures forall i <- rows :: rows[i] == PassRow(old(rows)[i], lft, rgt, diff, width, after)
    {
      rows := map i <- rows :: MarkRow(rows[i], lft, rgt, diff);
      rows := map i <- rows :: OpenRow(rows[i], after, width);
      rows := map i <- rows :: CloseRow(rows[i], lft, rgt, diff, width);
      rows := map i <- rows :: UnmarkRow(rows[i]);
    }

    /** `_move_account`: `lft` and `rgt` are those of row `id`, the parent is looked up in `cluster`. */
    method MoveAccountRows(id: Key, lft: int, rgt: int, cluster: string, parent: string)
      requires id in rows && lft == rows[id].lft && rgt == rows[id].rgt
      modifies this
      ensures rows == MoveAccountIn(old(rows), id, cluster, parent)
    {
      var p := AcctKey(cluster, parent);
      if p !in rows {
        return;
      }
      var parLeft := rows[p].lft;
      var diff := parLeft + 1 - lft;
      if diff == 0 {
        return;
      }
      hide PassRow, Passed, MarkRow, OpenRow, CloseRow, UnmarkRow;
      ghost var t := rows;
      RunPasses(lft, rgt, diff, rgt - lft + 1, parLeft);
      PassesDone(t, id, p, lft, rgt, diff, rows);
      rows := rows[id := rows[id].(parentAcct := parent)];
    }

    /** The query of `_move_parent`. */
    method FindBelow(lft: int, rgt: int, parent: string) returns (c: Option<Key>)
      ensures Found(rows, lft, rgt, parent, c) && (c.Some? ==> c.value in rows)
    {
      var below := set i <- rows | lft <= rows[i].lft <= rgt && i.acct == parent && i.user == "";
      if below == {} {
        assert forall i :: IsBelow(rows, lft, rgt, parent, i) ==> i in below;
        c := None;
      } else {
        var first := FirstByLft(rows, below);
        c := Some(first);
      }
    }

    /** `_move_parent`: the query for the new parent below `id` looks at intervals and names only.  Its numbers
        and the old parent are those the caller has read; for the second move they are read again. */
    method MoveParentRows(id: Key, lft: int, rgt: int, oldParent: string, parent: string)
      returns (ghost found: Option<Key>)
      requires id in rows
      modifies this
      ensures Found(old(rows), lft, rgt, parent, found) && (found.Some? ==> found.value in old(rows))
      ensures rows == MoveFound(old(rows), id, oldParent, parent, found)
      ensures var r := old(rows)[id];
        WellFormed(old(rows)) && lft == r.lft && rgt == r.rgt && oldParent == r.parentAcct ==>
          && rows == MoveParent(old(rows), id, parent)
          && (WellFormed(rows) <==> Movable(old(rows), id, parent))
    {
      hide WellFormed, Found, MoveAccountIn, Movable;
      ghost var t := rows;
      var c := FindBelow(lft, rgt, parent);
      found := c;
      if c.Some? {
        MoveAccountRows(c.value, rows[c.value].lft, rows[c.value].rgt, id.cluster, oldParent);
      }
      MoveAccountRows(id, rows[id].lft, rows[id].rgt, id.cluster, parent);
      if WellFormed(t) && lft == t[id].lft && rgt == t[id].rgt && oldParent == t[id].parentAcct {
        MoveFoundIs(t, id, parent, c);
        MoveParentKeepsTreeIff(t, id, parent);
      }
    }

    /** The loop of modify_associations over the selected rows. */
    method ModifyParents(selected: seq<Selected>, parent: string)
      returns (ghost tables: seq<Table>, ghost found: seq<Option<Key>>)
      requires forall s <- selected :: s.row in rows
      modifies this
      ensures IsLoop(tables, selected, parent, found) && tables[0] == old(rows) && tables[|selected|] == rows
    {
      tables, found := [rows], [];
      for n := 0 to |selected|
        invariant rows.Keys == old(rows.Keys) && |tables| == n + 1 && |found| == n
        invariant tables[0] == old(rows) && tables[n] == rows
        invariant forall i :: 0 <= i < n ==>
          selected[i].row in tables[i] && Turn(tables[i], selected[i], parent, found[i], tables[i + 1])
      {
        hide MoveFound, Found;
        var s := selected[n];
        ghost var c: Option<Key> := None;
        if s.row.user == "" && s.row.acct != parent {
          c := MoveParentRows(s.row, s.lft, s.rgt, s.parentAcct, parent);
        }
        tables, found := tables + [rows], found + [c];
      }
    }

    /** `SELECT coalesce(max(rgt), 0)`. */
    method MaxRgt() returns (max: int)
      requires Numbered(rows)
      ensures max == 2 * |rows|
    {
      MaxRgtIsLast(rows);
      max :| max in {0} + (set i <- rows :: rows[i].rgt) && IsMaxRgt(rows, max);
    }

    /** One cluster of `acct_storage_p_add_clusters`: its root association. */
    method AddClusterRow(cluster: string, given: Given)
      requires WellFormed(rows)
      modifies this
      ensures WellFormed(rows) && rows == AddRoot(old(rows), cluster, given)
      ensures ClusterAdded(old(rows), cluster, given, rows)
    {
      ghost var t := rows;
      var max := MaxRgt();
      var k := RootKey(cluster);
      if k in rows {
        rows := rows[k := rows[k].(deleted := 0, info := Updated(rows[k].info, given))];
      } else {
        rows := rows[k := Row("", max + 1, max + 2, 0, Inserted(given))];
      }
      assert rows == AddRoot(t, cluster, given);
      hide *;
      AddRootWellFormed(t, cluster, given);
      RootIsAdded(t, cluster, given);
    }

    /** The statements that make room for the pending rows and unmark them. */
    method FlushRows(incr: int, myLeft: int)
      modifies this
      ensures rows == FlushedRows(old(rows), myLeft, incr)
      ensures rows.Keys == old(rows.Keys)
    {
      rows := map i <- rows :: if rows[i].deleted < 2 then ShiftRow(rows[i], myLeft, incr) else rows[i];
      rows := map i <- rows :: SettleRow(rows[i]);
    }

    /** A deleted row comes back, and moves first if it names another parent. */
    method ReviveDeleted(it: Item, ghost c: Cursor) returns (ghost d: Cursor)
      requires InLoop(c, rows) && c.i < |c.items| && c.items[c.i] == it
      requires ItemKey(it) in rows && rows[ItemKey(it)].deleted != 0
      modifies this
      ensures d == c.(i := c.i + 1, g := d.g) && InLoop(d, rows)
    {
      var k := ItemKey(it);
      LoopOldRow(c, rows);
      hide InLoop, StaysPut, Found, MoveFound, MoveParent, OldRow;
      if it.parentAcct.Some? && it.parentAcct.value != rows[k].parentAcct {
        ghost var stays := StaysPut(c.g.plain, c.g.open, it);
        if !stays {
          LoopCanMove(c, rows);
        }
        ghost var found := MoveParentRows(k, rows[k].lft, rows[k].rgt, rows[k].parentAcct, it.parentAcct.value);
        if stays {
          LoopStays(c, old(rows), found);
          d := LoopReviveInPlace(c, rows);
        } else {
          d := LoopReviveMoved(c, old(rows), rows);
        }
      } else {
        d := LoopReviveInPlace(c, rows);
      }
      rows := rows[k := RevivedRow(rows[k], it)];
    }

    /** A new row joins the pending group, or ends that group and starts the next one. */
    method InsertItem(it: Item, oldIncr: int, oldLeft: int, oldGroup: Option<Key>, ghost c: Cursor)
      returns (ok: bool, incr: int, myLeft: int, group: Option<Key>, ghost d: Cursor)
      requires InLoop(c, rows) && c.i < |c.items| && c.items[c.i] == it && ItemKey(it) !in rows
      requires c.incr == oldIncr && c.myLeft == oldLeft && c.oldGroup == oldGroup
      requires 0 <= oldIncr && (oldIncr == 0 ==> oldGroup == None)
      modifies this
      ensures !ok ==> Blocked(c.before, c.items, rows)
      ensures ok ==> InLoop(d, rows) && incr > 0
      ensures ok ==> d == c.(i := c.i + 1, g := d.g, incr := incr, myLeft := myLeft, oldGroup := group)
    {
      hide InLoop, Blocked, FlushedRows, EntryRow, ItemEntry, ItemKey, ParentOfItem;
      var p := ParentOfItem(it);
      d, incr, myLeft, group := c, oldIncr, oldLeft, oldGroup;
      if group != Some(p) {
        if incr != 0 {
          d := LoopFlush(d, rows);
          FlushRows(incr, myLeft);
        }
        if p !in rows {
          LoopMissing(d, rows);
          ok := false;
          return;
        }
        myLeft := rows[p].lft;
        group := Some(p);
        incr := 0;
      }
      d := LoopInsert(d, rows, myLeft);
      incr := incr + 2;
      rows := rows[ItemKey(it) := EntryRow(ItemEntry(it), myLeft + (incr - 1), 2)];
      ok := true;
    }

    /** The loop of `acct_storage_p_add_associations`, with its last flush. */
    method AddEachItem(items: seq<Item>, ghost start: Cursor) returns (ok: bool, ghost c: Cursor)
      requires InLoop(start, rows) && start.items == items && start.i == 0
      requires start.incr == 0 && start.myLeft == 0 && start.oldGroup == None
      modifies this
      ensures c.before == start.before && c.items == items
      ensures ok ==> InLoop(c, rows) && c.i == |items| && c.incr == 0
      ensures !ok ==> Blocked(start.before, items, rows)
    {
      hide InLoop, Blocked;
      var incr, myLeft, i := 0, 0, 0;
      var oldGroup: Option<Key> := None;
      c := start;
      while i < |items|
        invariant i <= |items| && InLoop(c, rows)
        invariant c.before == start.before && c.items == items && c.i == i
        invariant c.incr == incr && c.myLeft == myLeft && c.oldGroup == oldGroup
        invariant 0 <= incr && (incr == 0 ==> oldGroup == None)
      {
        var it := items[i];
        if ItemKey(it) !in rows {
          ghost var d;
          ok, incr, myLeft, oldGroup, d := InsertItem(it, incr, myLeft, oldGroup, c);
          if !ok {
            return;
          }
          c := d;
        } else if rows[ItemKey(it)].deleted != 0 {
          c := ReviveDeleted(it, c);
        } else {
          LoopSkip(c, rows);
          c := c.(i := i + 1);
        }
        i := i + 1;
      }
      if incr != 0 {
        c := LoopFlush(c, rows);
        FlushRows(incr, myLeft);
      }
      ok := true;
    }

    /** `acct_storage_p_add_associations`.  The batched way reaches the tree of the plain way.  A missing
        parent ends the call; then a connection with rollback gets its rows back, and without it what the
        plain way has added by then stays. */
    method AddAssociations(items: seq<Item>, rollback: bool) returns (ok: bool)
      requires WellFormed(rows) && ItemsOk(rows, NO_GROUP, items)
      modifies this
      ensures ok <==> AddItems(old(rows), items).Some?
      ensures ok <==> forall n: nat :: n < |items| ==> FindsPlace(old(rows), items, n)
      ensures WellFormed(rows)
      ensures ok ==> SameTree(rows, AddItems(old(rows), items).value) && ListDone(old(rows), items, rows)
      ensures !ok && rollback ==> rows == old(rows)
      ensures !ok && !rollback ==>
        SameTree(rows, AddedItems(old(rows), items)) && exists n: nat :: StoppedAt(old(rows), items, n, rows)
    {
      var before := rows;  // what a rollback restores
      LoopStart(rows, items);
      GoesThroughIff(rows, items);
      ghost var c;
      ok, c := AddEachItem(items, StartCursor(rows, items));
      hide WellFormed, InLoop, SameTree, FindsPlace, ListDone, AddItems, AddedItems, ItemsOk;
      FlaggedWhenWellFormed(before);
      if ok {
        LoopEnd(c, rows);
        ListIsDone(before, items, rows);
      } else if rollback {
        rows := before;
      } else {
        ListIsStopped(before, items, rows);
      }
    }

    /** The deletion loop of `_remove_common`: the numbers are read again for every id. */
    method DeleteSubtrees(ids: seq<Key>)
      requires WellFormed(rows)
      modifies this
      ensures rows == RemoveEach(old(rows), ids) && WellFormed(rows)
    {
      ghost var before := rows;
      for i := 0 to |ids|
        invariant WellFormed(rows)
        invariant RemoveEach(before, ids) == RemoveEach(rows, ids[i..])
      {
        assert ids[i..][0] == ids[i] && ids[i..][1..] == ids[i + 1..];
        if ids[i] in rows {
          DeleteSubtree(ids[i]);
        }
      }
    }

    method DeleteSubtree(id: Key)
      requires id in rows && WellFormed(rows)
      modifies this
      ensures rows == RemoveSubtree(old(rows), id) && WellFormed(rows)
    {
      RemoveSubtreeWellFormed(rows, id);
      var lft, rgt := rows[id].lft, rows[id].rgt;
      var width := rgt - lft + 1;
      rows := map i <- rows | !(lft <= rows[i].lft <= rgt) :: rows[i];
      rows := map i <- rows :: rows[i].(rgt := Close(rows[i].rgt, rgt, width));
      rows := map i <- rows :: rows[i].(lft := Close(rows[i].lft, rgt, width));
    }

    /** The association part of `_remove_common`.  `selected` are the rows to remove; those newer than
        a day go for good with everything below them unless jobs have run, the others are marked. */
    method RemoveAssociations(selected: seq<Key>, dayOld: int, hasJobs: bool)
      requires WellFormed(rows)
      modifies this
      ensures WellFormed(rows)
      ensures var gone := if hasJobs then [] else Recent(old(rows), selected, dayOld);
        && rows == ClearRows(RemoveEach(old(rows), gone), selected)
        && rows.Keys == (set i <- old(rows) | !Doomed(old(rows), gone, i))
      ensures rows.Keys <= old(rows.Keys) && forall i <- rows ::
        var was := if i in selected then ClearedRow(old(rows)[i]) else old(rows)[i];
        rows[i].(lft := 0, rgt := 0) == was.(lft := 0, rgt := 0)
      ensures Removed(old(rows), selected, dayOld, hasJobs, rows)
      ensures forall i, j {:trigger SameOrder(old(rows), rows, i, j)} :: i in rows && j in rows ==>
        i in old(rows) && j in old(rows) && SameOrder(old(rows), rows, i, j)
    {
      ghost var gone: seq<Key> := [];
      if !hasJobs {
        var ids := Recent(rows, selected, dayOld);
        gone := ids;
        DeleteSubtrees(ids);
      }
      rows := ClearRows(rows, selected);
      RemovalDone(old(rows), gone, selected);
      RemovalIs(old(rows), selected, dayOld, hasJobs);
    }
  }
}
