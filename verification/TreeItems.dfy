/** The items of `acct_storage_p_add_associations`, taken one after the other the plain way:
    a new key is inserted, a deleted one is revived (and moved if it names another parent),
    a live one is left alone. */
module TreeItems {
  import opened Wrappers
  import opened NestedSet
  import opened Columns
  import opened TreeMove
  import opened TreeInsert

  /** user "" stands for an account; partition is only looked at for users. */
  datatype Item = Item(cluster: string, acct: string, parentAcct: Option<string>, user: string, partition: string,
                       given: Given)

  function ItemKey(it: Item): Key {
    if it.user == "" then AcctKey(it.cluster, it.acct) else Key(it.cluster, it.acct, it.user, it.partition)
  }

  function ItemParent(it: Item): string {
    if it.parentAcct.Some? then it.parentAcct.value
    else if it.user != "" then it.acct
    else "root"
  }

  function ParentOfItem(it: Item): Key {
    AcctKey(it.cluster, ItemParent(it))
  }

  function ItemEntry(it: Item): Entry {
    Entry(ItemKey(it), if it.user == "" then ItemParent(it) else "", Inserted(it.given))
  }

  predicate NeedsMove(r: Row, it: Item) {
    it.parentAcct.Some? && it.parentAcct.value != r.parentAcct
  }

  function RevivedRow(r: Row, it: Item): Row {
    r.(deleted := 0, info := Updated(r.info, it.given),
       parentAcct := if it.user == "" then ItemParent(it) else r.parentAcct)
  }

  function Revive(t: Table, it: Item): Table
    requires ItemKey(it) in t
  {
    var k := ItemKey(it);
    var u := if NeedsMove(t[k], it) then MoveParent(t, k, it.parentAcct.value) else t;
    u[k := RevivedRow(u[k], it)]
  }

  /** None: the parent of a new row does not exist. */
  function AddItem(t: Table, it: Item): Option<Table> {
    if ItemKey(it) !in t then
      if ParentOfItem(it) in t then Some(AddOne(t, ParentOfItem(it), ItemEntry(it))) else None
    else if t[ItemKey(it)].deleted == 0 then Some(t)
    else Some(Revive(t, it))
  }

  function AddItems(t: Table, items: seq<Item>): Option<Table>
    decreases |items|
  {
    if items == [] then Some(t)
    else match AddItem(t, items[0])
      case None => None
      case Some(u) => AddItems(u, items[1..])
  }

  /** What is there when the first missing parent ends the list, or the list is done. */
  function AddedItems(t: Table, items: seq<Item>): Table
    decreases |items|
  {
    if items == [] then t
    else match AddItem(t, items[0])
      case None => t
      case Some(u) => AddedItems(u, items[1..])
  }

  lemma {:induction false} AddedIsAll(t: Table, items: seq<Item>)
    requires AddItems(t, items).Some?
    ensures AddItems(t, items).value == AddedItems(t, items)
    decreases |items|
  {
    if items != [] {
      AddedIsAll(AddItem(t, items[0]).value, items[1..]);
    }
  }

  // ----- reviving a deleted row -----

  /** What a caller has to check before a row is revived.  A named parent is the present one or a legal
      target; that of an account exists, while for a user nothing happens if it does not.  Without a named
      parent the present one of an account is "root". */
  ghost predicate Revivable(t: Table, it: Item)
    requires ItemKey(it) in t
  {
    var k := ItemKey(it);
    match it.parentAcct
    case None => it.user != "" || t[k].parentAcct == "root"
    case Some(v) => v == t[k].parentAcct || ((it.user != "" || AcctKey(it.cluster, v) in t) && Movable(t, k, v))
  }

  lemma ReviveCorrect(t: Table, it: Item)
    requires WellFormed(t) && ItemKey(it) in t && Revivable(t, it)
    ensures WellFormed(Revive(t, it)) && Revive(t, it).Keys == t.Keys
  {
    var k := ItemKey(it);
    var u := if NeedsMove(t[k], it) then MoveParent(t, k, it.parentAcct.value) else t;
    hide MoveParent, Numbered, Linked;
    if NeedsMove(t[k], it) {
      MovedForRevival(t, it);
    }
    UpdatedWellFormed(u, Revive(t, it));
  }

  lemma MovedForRevival(t: Table, it: Item)
    requires WellFormed(t) && ItemKey(it) in t && Revivable(t, it) && NeedsMove(t[ItemKey(it)], it)
    ensures var u := MoveParent(t, ItemKey(it), it.parentAcct.value);
      && WellFormed(u) && u.Keys == t.Keys
      && (it.user == "" ==> u[ItemKey(it)].parentAcct == it.parentAcct.value)
  {
    var k, v := ItemKey(it), it.parentAcct.value;
    MoveParentKeepsTreeIff(t, k, v);
    MoveParentFlagged(t, k, v);
    hide MoveParent, Numbered, Linked;
    if it.user == "" {
      MoveParentCorrect(t, k, v);
      var u, w := MoveParent(t, k, v), Relinked(t, NewParents(t, k, v));
      assert u[k].(lft := 0, rgt := 0) == w[k].(lft := 0, rgt := 0);
    }
  }

  /** A row has one innermost interval around it, so its interval fits one link only. */
  lemma LinkIsUnique(t: Table, u: Table, k: Key)
    requires k in t && LinkedRow(t, k) && u.Keys == t.Keys && LinkedRow(u, k)
    requires forall i <- t :: u[i].lft == t[i].lft && u[i].rgt == t[i].rgt
    ensures IsRoot(k, u[k]) <==> IsRoot(k, t[k])
    ensures !IsRoot(k, t[k]) ==> ParentKey(k, u[k]) == ParentKey(k, t[k])
  {
    if !IsRoot(k, t[k]) {
      var p := ParentKey(k, t[k]);
      assert Inside(t, k, p) && Inside(u, k, p);
      if !IsRoot(k, u[k]) {
        var q := ParentKey(k, u[k]);
        assert Inside(u, k, q) && Inside(t, k, q);
        assert Inside(u, p, q) <==> Inside(t, p, q);
        assert Inside(u, q, p) <==> Inside(t, q, p);
      }
    } else if !IsRoot(k, u[k]) {
      assert Inside(t, k, ParentKey(k, u[k]));
    }
  }

  lemma ReviveRelinkFails(t: Table, it: Item)
    requires WellFormed(t) && ItemKey(it) in t && it.user == "" && t[ItemKey(it)].parentAcct != ItemParent(it)
    requires NeedsMove(t[ItemKey(it)], it) ==> AcctKey(it.cluster, ItemParent(it)) !in t
    ensures !WellFormed(Revive(t, it))
  {
    var k := ItemKey(it);
    var r := Revive(t, it);
    assert t.Keys == r.Keys;
    assert LinkedRow(t, k);
    if LinkedRow(r, k) {
      LinkIsUnique(t, r, k);
    }
  }

  lemma ReviveMoveFails(t: Table, it: Item)
    requires WellFormed(t) && ItemKey(it) in t && NeedsMove(t[ItemKey(it)], it)
    requires AcctKey(it.cluster, ItemParent(it)) in t && !Movable(t, ItemKey(it), ItemParent(it))
    ensures !WellFormed(Revive(t, it))
  {
    var k, v := ItemKey(it), ItemParent(it);
    var u, r := MoveParent(t, k, v), Revive(t, it);
    MoveParentKeepsTreeIff(t, k, v);
    MoveParentFlagged(t, k, v);
    hide MoveParent;
    assert r.Keys == u.Keys;
    if WellFormed(r) {
      UpdatedWellFormed(r, u);
    }
  }

  /** Reviving a deleted row keeps the tree exactly when it is `Revivable`: naming no parent for an
      account that is not directly below "root" rewrites its link without moving it, so does naming a
      parent that does not exist, and a user is moved into an account it does not belong to. */
  lemma ReviveKeepsTreeIff(t: Table, it: Item)
    requires WellFormed(t) && ItemKey(it) in t
    ensures WellFormed(Revive(t, it)) <==> Revivable(t, it)
  {
    if Revivable(t, it) {
      ReviveCorrect(t, it);
    } else if NeedsMove(t[ItemKey(it)], it) && AcctKey(it.cluster, ItemParent(it)) in t {
      ReviveMoveFails(t, it);
    } else {
      ReviveRelinkFails(t, it);
    }
  }

  // ----- inserting a new row -----

  lemma ItemAddable(t: Table, it: Item)
    requires WellFormed(t) && ItemKey(it) !in t && it.acct != "" && ParentOfItem(it) in t
    requires it.user != "" ==> ItemParent(it) == it.acct
    ensures Addable(t, ParentOfItem(it), ItemEntry(it))
  {
  }

  lemma WrongLinkFails(t: Table, it: Item)
    requires WellFormed(t) && ItemKey(it) !in t && it.user != "" && ParentOfItem(it) in t
    requires ItemParent(it) != it.acct
    ensures !LinkedRow(AddOne(t, ParentOfItem(it), ItemEntry(it)), ItemKey(it))
  {
    var p, e, link := ParentOfItem(it), ItemEntry(it), AcctKey(it.cluster, it.acct);
    var m := AddOne(t, p, e);
    AddOneNew(t, p, e, p);
    if link in t && Inside(m, e.key, link) {
      AddOneNew(t, p, e, link);
      AddOnePair(t, p, e, p, link);
    }
  }

  /** A new user with an explicit parent keeps the tree exactly when that parent is its own account. */
  lemma NewUserKeepsTreeIff(t: Table, it: Item)
    requires WellFormed(t) && ItemKey(it) !in t && it.acct != "" && it.user != "" && ParentOfItem(it) in t
    ensures WellFormed(AddOne(t, ParentOfItem(it), ItemEntry(it))) <==> ItemParent(it) == it.acct
  {
    var p, e := ParentOfItem(it), ItemEntry(it);
    if ItemParent(it) == it.acct {
      ItemAddable(t, it);
      AddOneWellFormed(t, p, e);
    } else {
      WrongLinkFails(t, it);
    }
  }

  // ----- a list of items -----

  /** The group new rows are collected for, and the keys collected since it was begun. */
  datatype Group = Group(parent: Option<Key>, keys: set<Key>)

  function GroupAfter(t: Table, g: Group, it: Item): Group {
    if ItemKey(it) in t then g
    else if g.parent == Some(ParentOfItem(it)) then g.(keys := g.keys + {ItemKey(it)})
    else Group(Some(ParentOfItem(it)), {ItemKey(it)})
  }

  /** An item that names another parent but moves nothing: a user whose named parent does not exist.  Nor
      does the query without a cluster find a new account of that name, or it has nowhere to put it. */
  predicate StaysPut(t: Table, g: Group, it: Item)
    requires ItemKey(it) in t
  {
    && it.user != "" && it.parentAcct.Some? && AcctKey(it.cluster, it.parentAcct.value) !in t
    && (t[ItemKey(it)].parentAcct == "" || forall n <- g.keys :: n.acct == it.parentAcct.value ==> n.user != "")
  }

  /** What a caller has to see to, item by item: keys do not repeat within a group, accounts have names,
      new users name no other parent, a revived row is `Revivable`, and no row moves once a row has been
      added. */
  ghost predicate ItemOk(t: Table, g: Group, it: Item) {
    var k := ItemKey(it);
    && it.acct != "" && k !in g.keys
    && (k !in t && it.user != "" && ParentOfItem(it) in t ==> ItemParent(it) == it.acct)
    && (k in t && t[k].deleted != 0 ==>
          Revivable(t, it) && (NeedsMove(t[k], it) ==> g.keys == {} || StaysPut(t, g, it)))
  }

  ghost predicate ItemsOk(t: Table, g: Group, items: seq<Item>)
    decreases |items|
  {
    items != [] ==>
      && ItemOk(t, g, items[0])
      && (AddItem(t, items[0]).Some? ==>
            ItemsOk(AddItem(t, items[0]).value, GroupAfter(t, g, items[0]), items[1..]))
  }

  const NO_GROUP: Group := Group(None, {})

  lemma AddItemCorrect(t: Table, g: Group, it: Item)
    requires WellFormed(t) && ItemOk(t, g, it) && AddItem(t, it).Some?
    ensures WellFormed(AddItem(t, it).value) && ItemKey(it) in AddItem(t, it).value
    ensures AddItem(t, it).value[ItemKey(it)].deleted == 0
    ensures AddItem(t, it).value.Keys == t.Keys + {ItemKey(it)}
  {
    if ItemKey(it) !in t {
      ItemAddable(t, it);
      AddOneWellFormed(t, ParentOfItem(it), ItemEntry(it));
    } else if t[ItemKey(it)].deleted != 0 {
      ReviveCorrect(t, it);
    }
  }

  lemma AddItemRooted(t: Table, g: Group, it: Item)
    requires WellFormed(t) && Rooted(t) && ItemOk(t, g, it) && AddItem(t, it).Some?
    ensures Rooted(AddItem(t, it).value)
  {
    var k := ItemKey(it);
    if k in t && t[k].deleted != 0 {
      var u := if NeedsMove(t[k], it) then MoveParent(t, k, it.parentAcct.value) else t;
      hide MoveParent, Numbered, Linked;
      if NeedsMove(t[k], it) {
        MovedForRevival(t, it);
        MoveParentRooted(t, k, it.parentAcct.value);
      }
      assert u[k].parentAcct == RevivedRow(u[k], it).parentAcct;
      RootedLinks(u, u[k := RevivedRow(u[k], it)]);
    }
  }

  lemma {:induction false} AddedItemsRooted(t: Table, g: Group, items: seq<Item>)
    requires WellFormed(t) && Rooted(t) && ItemsOk(t, g, items)
    ensures Rooted(AddedItems(t, items))
    decreases |items|
  {
    if items != [] && AddItem(t, items[0]).Some? {
      AddItemCorrect(t, g, items[0]);
      AddItemRooted(t, g, items[0]);
      AddedItemsRooted(AddItem(t, items[0]).value, GroupAfter(t, g, items[0]), items[1..]);
    }
  }
}
