/** Any run of the operations on the association table, from the empty table on. */
module TreeRuns {
  import opened Wrappers
  import opened NestedSet
  import opened Columns
  import opened TreeMove
  import opened TreeInsert
  import opened TreeItems
  import opened TreeRemove
  import opened AssocTable

  datatype Step =
    | AddCluster(cluster: string, given: Given)
    | AddList(items: seq<Item>, rollback: bool)
    | Reparent(row: Key, parent: string)
    | Remove(selected: seq<Key>, dayOld: int, hasJobs: bool)

  /** The preconditions of the operations, in terms of links and names only. */
  ghost predicate Allowed(t: Table, s: Step) {
    match s
    case AddCluster(_, _) => true
    case AddList(items, _) => ItemsOk(t, NO_GROUP, items)
    case Reparent(k, parent) => k in t && k.user == "" && Movable(t, k, parent)
    case Remove(_, _, _) => true
  }

  /** The table a step leaves.  For a list of items its links, flags and columns are those of the plain
      way; the order of siblings is the batch's own. */
  ghost predicate Leaves(t: Table, s: Step, u: Table)
    requires Allowed(t, s)
  {
    match s
    case AddCluster(cluster, given) => u == AddRoot(t, cluster, given)
    case AddList(items, rollback) =>
      if AddItems(t, items).None? && rollback then u == t
      else WellFormed(u) && SameTree(u, AddedItems(t, items))
    case Reparent(k, parent) => u == MoveParent(t, k, parent)
    case Remove(selected, dayOld, hasJobs) =>
      u == ClearRows(RemoveEach(t, if hasJobs then [] else Recent(t, selected, dayOld)), selected)
  }

  /** The operations as they are coded leave that table. */
  method Perform(table: AssociationTable, s: Step)
    requires WellFormed(table.rows) && Allowed(table.rows, s)
    modifies table
    ensures Leaves(old(table.rows), s, table.rows)
  {
    match s
    case AddCluster(cluster, given) => table.AddClusterRow(cluster, given);
    case AddList(items, rollback) =>
      var ok := table.AddAssociations(items, rollback);
      if ok {
        AddedIsAll(old(table.rows), items);
      }
    case Reparent(k, parent) =>
      ghost var found := table.MoveParentRows(k, table.rows[k].lft, table.rows[k].rgt, table.rows[k].parentAcct,
                                              parent);
    case Remove(selected, dayOld, hasJobs) =>
      table.RemoveAssociations(selected, dayOld, hasJobs);
  }

  lemma StepWellFormed(t: Table, s: Step, u: Table)
    requires WellFormed(t) && Allowed(t, s) && Leaves(t, s, u)
    ensures WellFormed(u)
  {
    match s
    case AddCluster(cluster, given) => AddRootWellFormed(t, cluster, given);
    case AddList(_, _) =>
    case Reparent(k, parent) => MoveParentCorrect(t, k, parent);
    case Remove(selected, dayOld, hasJobs) =>
      RemovalDone(t, if hasJobs then [] else Recent(t, selected, dayOld), selected);
  }

  lemma StepRooted(t: Table, s: Step, u: Table)
    requires WellFormed(t) && Rooted(t) && Allowed(t, s) && Leaves(t, s, u)
    ensures Rooted(u)
  {
    match s
    case AddCluster(cluster, given) =>
    case AddList(items, _) =>
      AddedItemsRooted(t, NO_GROUP, items);
      if u != t {
        SameLinks(AddedItems(t, items), u);
      }
    case Reparent(k, parent) => MoveParentRooted(t, k, parent);
    case Remove(selected, dayOld, hasJobs) =>
      RemovalRooted(t, if hasJobs then [] else Recent(t, selected, dayOld), selected);
  }

  lemma RemovalRooted(t: Table, gone: seq<Key>, selected: seq<Key>)
    requires WellFormed(t) && Rooted(t)
    ensures Rooted(ClearRows(RemoveEach(t, gone), selected))
  {
    var u := ClearRows(RemoveEach(t, gone), selected);
    RemovalDone(t, gone, selected);
    forall i | i in u
      ensures i in t && u[i].parentAcct == t[i].parentAcct
    {
      var was := if i in selected then ClearedRow(t[i]) else t[i];
      assert u[i].(lft := 0, rgt := 0) == was.(lft := 0, rgt := 0);
    }
    RootedLinks(t, u);
  }

  lemma SameLinks(t: Table, u: Table)
    requires Rooted(t) && SameTree(u, t)
    ensures Rooted(u)
  {
    forall k | k in u
      ensures u[k].parentAcct == t[k].parentAcct
    {
      assert u[k].(lft := 0, rgt := 0) == t[k].(lft := 0, rgt := 0);
    }
    RootedLinks(t, u);
  }

  /** `tables` are the states a run of steps goes through, from the empty table on. */
  ghost predicate IsRun(tables: seq<Table>, steps: seq<Step>) {
    && |tables| == |steps| + 1 && tables[0] == map[]
    && forall i :: 0 <= i < |steps| ==> Allowed(tables[i], steps[i]) && Leaves(tables[i], steps[i], tables[i + 1])
  }

  lemma {:induction false} RunWellFormed(tables: seq<Table>, steps: seq<Step>, n: nat)
    requires IsRun(tables, steps) && n <= |steps|
    ensures WellFormed(tables[n]) && Rooted(tables[n])
    decreases n
  {
    if n > 0 {
      RunWellFormed(tables, steps, n - 1);
      assert Leaves(tables[n - 1], steps[n - 1], tables[n - 1 + 1]);
      StepWellFormed(tables[n - 1], steps[n - 1], tables[n]);
      StepRooted(tables[n - 1], steps[n - 1], tables[n]);
    }
  }

  /** After any run, the numbers are exactly 1..2n, any two intervals are nested or disjoint, and
      the interval test says what the parent links say. */
  lemma RunKeepsViewsEqual(tables: seq<Table>, steps: seq<Step>, d: Key, a: Key)
    requires IsRun(tables, steps) && d in tables[|steps|] && a in tables[|steps|]
    ensures var t := tables[|steps|];
      && EndPoints(t) == Interval(1, 2 * |t|)
      && (d != a ==> Apart(t, d, a))
      && (Between(t, d, a) <==> Reaches(t, d, a))
  {
    RunWellFormed(tables, steps, |steps|);
    var t := tables[|steps|];
    NumberingIsGapFree(t);
    BetweenIffReaches(t, d, a);
  }
}
