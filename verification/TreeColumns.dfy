/** What the rows hold after a list of items: columns, flags and links, row by row. */
module TreeColumns {
  import opened Wrappers
  import opened NestedSet
  import opened Columns
  import opened TreeMove
  import opened TreeInsert
  import opened TreeItems

  /** The item names row `k`. */
  predicate NamesRow(it: Item, k: Key) {
    && it.cluster == k.cluster && it.acct == k.acct && it.user == k.user
    && k.partition == (if it.user == "" then "" else it.partition)
  }

  /** Item `n` is the first of the list to name row `k`. */
  predicate FirstNamed(items: seq<Item>, k: Key, n: nat) {
    n < |items| && NamesRow(items[n], k) && forall m :: 0 <= m < n ==> !NamesRow(items[m], k)
  }

  /** A row that was not there, or was deleted, holds what the first item naming it gives. */
  ghost predicate Taken(t: Table, it: Item, k: Key, r: Row) {
    && r.deleted == 0
    && (k in t ==> Holds(t[k].info, it.given, r.info))
    && (k !in t ==> NewHolds(it.given, r.info))
  }

  /** Any other row keeps its flag and its columns. */
  ghost predicate Untouched(t: Table, k: Key, r: Row) {
    k in t && r.deleted == t[k].deleted && r.info == t[k].info
  }

  /** The link a new row gets: the account the item names, or "root"; a user's is its account. */
  predicate LinkGiven(it: Item, r: Row) {
    r.parentAcct == (if it.user != "" then "" else if it.parentAcct.Some? then it.parentAcct.value else "root")
  }

  /** What a list of items leaves in row `k`. */
  ghost predicate ListedRow(t: Table, items: seq<Item>, k: Key, r: Row) {
    && (forall n: nat {:trigger FirstNamed(items, k, n)} ::
          FirstNamed(items, k, n) && (k !in t || t[k].deleted != 0) ==> Taken(t, items[n], k, r))
    && ((forall n: nat {:trigger FirstNamed(items, k, n)} :: !FirstNamed(items, k, n)) ==> Untouched(t, k, r))
    && (k in t && t[k].deleted == 0 ==> Untouched(t, k, r))
  }

  /** The account a new row is put below. */
  function ParentRow(it: Item): Key {
    Key(it.cluster,
        match it.parentAcct case Some(acct) => acct case None => if it.user != "" then it.acct else "root",
        "", "")
  }

  /** Row `k` was there before the list, or one of its first `n` items names it. */
  ghost predicate ThereBefore(t: Table, items: seq<Item>, n: nat, k: Key) {
    k in t || exists m: nat :: m < n && m < |items| && NamesRow(items[m], k)
  }

  /** Item `n` finds its row, or the account it puts a new row below. */
  ghost predicate FindsPlace(t: Table, items: seq<Item>, n: nat)
    requires n < |items|
  {
    (forall k :: NamesRow(items[n], k) ==> ThereBefore(t, items, n, k)) || ThereBefore(t, items, n, ParentRow(items[n]))
  }

  /** What one item does to row `k`. */
  ghost predicate ItemRow(t: Table, it: Item, k: Key, r: Row) {
    if NamesRow(it, k) && (k !in t || t[k].deleted != 0) then Taken(t, it, k, r) else Untouched(t, k, r)
  }

  lemma NamesIs(it: Item, k: Key)
    ensures NamesRow(it, k) <==> k == ItemKey(it)
  {
  }

  // ----- moves -----

  lemma PassKeepsColumns(r: Row, from: Row, after: int)
    requires 0 <= r.deleted <= 1
    ensures PassFrom(r, from, after).deleted == r.deleted && PassFrom(r, from, after).info == r.info
  {
  }

  lemma AccountKeepsColumns(t: Table, k: Key, cluster: string, parent: string)
    requires Flagged(t) && k in t
    ensures var m := MoveAccountIn(t, k, cluster, parent);
      Flagged(m) && forall i <- t :: m[i].deleted == t[i].deleted && m[i].info == t[i].info
  {
    var m := MoveAccountIn(t, k, cluster, parent);
    forall i | i in t
      ensures m[i].deleted == t[i].deleted && m[i].info == t[i].info
    {
      if !Skips(t, k, cluster, parent) {
        PassKeepsColumns(t[i], t[k], t[AcctKey(cluster, parent)].lft);
      }
    }
  }

  lemma MoveKeepsColumns(t: Table, k: Key, parent: string)
    requires Flagged(t) && k in t
    ensures var m := MoveParent(t, k, parent);
      m.Keys == t.Keys && forall i <- t :: m[i].deleted == t[i].deleted && m[i].info == t[i].info
  {
    var c := AcctKey(k.cluster, parent);
    hide MoveAccountIn;
    if c in t {
      AccountKeepsColumns(t, c, k.cluster, t[k].parentAcct);
    }
    AccountKeepsColumns(LiftNewParent(t, k, parent), k, k.cluster, parent);
  }

  // ----- one item -----

  lemma ItemColumns(t: Table, it: Item, k: Key)
    requires Flagged(t) && AddItem(t, it).Some?
    ensures var u := AddItem(t, it).value;
      && (k in u <==> k in t || NamesRow(it, k))
      && (k in u ==> ItemRow(t, it, k, u[k]) && 0 <= u[k].deleted <= 1)
  {
    InsertedHolds(it.given);
    NamesIs(it, k);
    if ItemKey(it) in t {
      UpdatedHolds(t[ItemKey(it)].info, it.given);
      if NeedsMove(t[ItemKey(it)], it) {
        MoveKeepsColumns(t, ItemKey(it), it.parentAcct.value);
      }
    }
    hide MoveParent, Updated, Inserted;
  }

  // ----- a list of items -----

  lemma FirstOfTail(items: seq<Item>, k: Key, n: nat)
    requires items != [] && !NamesRow(items[0], k)
    ensures FirstNamed(items, k, n) <==> n > 0 && FirstNamed(items[1..], k, n - 1)
  {
    if n > 0 && FirstNamed(items[1..], k, n - 1) {
      forall m | 0 <= m < n
        ensures !NamesRow(items[m], k)
      {
        assert m > 0 ==> items[m] == items[1..][m - 1];
      }
    }
    if n > 0 && FirstNamed(items, k, n) {
      forall m | 0 <= m < n - 1
        ensures !NamesRow(items[1..][m], k)
      {
        assert items[1..][m] == items[m + 1];
      }
    }
  }

  lemma ListedMore(t: Table, u: Table, items: seq<Item>, k: Key, r: Row)
    requires items != [] && (k in u <==> k in t || NamesRow(items[0], k))
    requires k in u ==> ItemRow(t, items[0], k, u[k])
    requires ListedRow(u, items[1..], k, r)
    ensures ListedRow(t, items, k, r)
  {
    if NamesRow(items[0], k) {
      assert forall n: nat :: FirstNamed(items, k, n) ==> n == 0;
      assert FirstNamed(items, k, 0);
    } else {
      forall n: nat
        ensures FirstNamed(items, k, n) <==> n > 0 && FirstNamed(items[1..], k, n - 1)
      {
        FirstOfTail(items, k, n);
      }
      hide FirstNamed;
      if forall n: nat :: !FirstNamed(items, k, n) {
        assert forall n: nat :: FirstNamed(items[1..], k, n) ==> FirstNamed(items, k, n + 1);
      }
    }
  }

  /** Row `k` was there, or some item names it. */
  ghost predicate InList(t: Table, items: seq<Item>, k: Key) {
    k in t || exists n: nat :: n < |items| && NamesRow(items[n], k)
  }

  /** After a list of items, every row that was inserted or revived holds what the first item naming it gives,
      and every other row keeps its flag and its columns. */
  lemma {:induction false} ListColumns(t: Table, items: seq<Item>, k: Key)
    requires Flagged(t) && AddItems(t, items).Some?
    ensures var u := AddItems(t, items).value;
      && (k in u <==> InList(t, items, k))
      && (k in u ==> ListedRow(t, items, k, u[k]))
    decreases |items|
  {
    if items != [] {
      var u := AddItem(t, items[0]).value;
      ItemColumns(t, items[0], k);
      StaysFlagged(t, items[0]);
      ListColumns(u, items[1..], k);
      NamedInTail(items, k);
      var m := AddItems(u, items[1..]).value;
      hide AddItem, ItemRow, ListedRow;
      if k in m {
        ListedMore(t, u, items, k, m[k]);
      }
    }
  }

  lemma NamedInTail(items: seq<Item>, k: Key)
    requires items != []
    ensures (exists n: nat :: n < |items| && NamesRow(items[n], k)) <==>
      NamesRow(items[0], k) || exists n: nat :: n < |items[1..]| && NamesRow(items[1..][n], k)
  {
    if n: nat :| n < |items| && NamesRow(items[n], k) {
      assert n > 0 ==> items[1..][n - 1] == items[n];
    }
    if n: nat :| n < |items[1..]| && NamesRow(items[1..][n], k) {
      assert items[n + 1] == items[1..][n];
    }
  }

  lemma StaysFlagged(t: Table, it: Item)
    requires Flagged(t) && AddItem(t, it).Some?
    ensures Flagged(AddItem(t, it).value)
  {
    forall k | k in AddItem(t, it).value
      ensures 0 <= AddItem(t, it).value[k].deleted <= 1
    {
      ItemColumns(t, it, k);
    }
  }

  // ----- the links of new rows -----

  /** Once rows are pending, an allowed item leaves the links of live rows alone. */
  lemma LinkStays(t: Table, g: Group, it: Item, k: Key)
    requires ItemOk(t, g, it) && g.keys != {} && AddItem(t, it).Some? && k in t && t[k].deleted == 0
    ensures var u := AddItem(t, it).value; k in u && u[k].deleted == 0 && u[k].parentAcct == t[k].parentAcct
    ensures GroupAfter(t, g, it).keys != {}
  {
    var i := ItemKey(it);
    assert i !in t ==> i in GroupAfter(t, g, it).keys;
    if i in t && t[i].deleted != 0 && NeedsMove(t[i], it) {
      NothingMoves(t, i, it.parentAcct.value);
    }
  }

  lemma {:induction false} LinksStay(t: Table, g: Group, items: seq<Item>, k: Key)
    requires ItemsOk(t, g, items) && g.keys != {} && AddItems(t, items).Some? && k in t && t[k].deleted == 0
    ensures var u := AddItems(t, items).value; k in u && u[k].parentAcct == t[k].parentAcct
    decreases |items|
  {
    if items != [] {
      LinkStays(t, g, items[0], k);
      LinksStay(AddItem(t, items[0]).value, GroupAfter(t, g, items[0]), items[1..], k);
    }
  }

  lemma NewLinkAt(t: Table, g: Group, it: Item)
    requires AddItem(t, it).Some? && ItemKey(it) !in t
    ensures var u, k := AddItem(t, it).value, ItemKey(it); k in u && u[k].deleted == 0 && LinkGiven(it, u[k])
    ensures GroupAfter(t, g, it).keys != {}
  {
    assert ItemKey(it) in GroupAfter(t, g, it).keys;
  }

  /** A new row keeps the link its first item gives, to the end of the list. */
  lemma {:induction false} NewLinks(t: Table, g: Group, items: seq<Item>, k: Key, n: nat)
    requires ItemsOk(t, g, items) && AddItems(t, items).Some? && k !in t && FirstNamed(items, k, n)
    ensures var u := AddItems(t, items).value; k in u && LinkGiven(items[n], u[k])
    decreases |items|
  {
    var it := items[0];
    var u := AddItem(t, it).value;
    NamesIs(it, k);
    if n == 0 {
      NewLinkAt(t, g, it);
      LinksStay(u, GroupAfter(t, g, it), items[1..], k);
    } else {
      FirstOfTail(items, k, n);
      NotThereYet(t, it, k);
      NewLinks(u, GroupAfter(t, g, it), items[1..], k, n - 1);
    }
  }

  lemma NotThereYet(t: Table, it: Item, k: Key)
    requires AddItem(t, it).Some? && k !in t && ItemKey(it) != k
    ensures k !in AddItem(t, it).value
  {
    if ItemKey(it) in t && t[ItemKey(it)].deleted != 0 && NeedsMove(t[ItemKey(it)], it) {
      SameKeys(t, ItemKey(it), it.parentAcct.value);
    }
  }

  lemma SameKeys(t: Table, k: Key, parent: string)
    requires k in t
    ensures MoveParent(t, k, parent).Keys == t.Keys
  {
    hide Passed;
  }

  // ----- when the list goes through -----

  lemma ThereAfterOne(t: Table, items: seq<Item>, n: nat, k: Key)
    requires items != [] && n > 0 && AddItem(t, items[0]).Some? && Flagged(t)
    ensures ThereBefore(AddItem(t, items[0]).value, items[1..], n - 1, k) <==> ThereBefore(t, items, n, k)
  {
    var u := AddItem(t, items[0]).value;
    ItemColumns(t, items[0], k);
    if m: nat :| m < n && m < |items| && NamesRow(items[m], k) {
      assert m > 0 ==> items[1..][m - 1] == items[m];
    }
    if m: nat :| m < n - 1 && m < |items[1..]| && NamesRow(items[1..][m], k) {
      assert items[m + 1] == items[1..][m];
    }
  }

  lemma PlaceAfterOne(t: Table, items: seq<Item>, n: nat)
    requires items != [] && 0 < n < |items| && AddItem(t, items[0]).Some? && Flagged(t)
    ensures FindsPlace(AddItem(t, items[0]).value, items[1..], n - 1) <==> FindsPlace(t, items, n)
  {
    assert items[1..][n - 1] == items[n];
    forall k
      ensures ThereBefore(AddItem(t, items[0]).value, items[1..], n - 1, k) <==> ThereBefore(t, items, n, k)
    {
      ThereAfterOne(t, items, n, k);
    }
    hide ThereBefore, AddItem;
  }

  lemma FirstPlaceIff(t: Table, items: seq<Item>)
    requires items != []
    ensures AddItem(t, items[0]).Some? <==> FindsPlace(t, items, 0)
  {
    var it := items[0];
    NamesIs(it, ItemKey(it));
    assert ParentRow(it) == ParentOfItem(it);
    forall k
      ensures NamesRow(it, k) <==> k == ItemKey(it)
    {
      NamesIs(it, k);
    }
  }

  /** The list goes through exactly when every item finds its row or the account it is put below, among the
      rows there before or those named earlier. */
  lemma {:induction false} GoesThroughIff(t: Table, items: seq<Item>)
    requires Flagged(t)
    ensures AddItems(t, items).Some? <==> forall n: nat :: n < |items| ==> FindsPlace(t, items, n)
    decreases |items|
  {
    if items != [] {
      FirstPlaceIff(t, items);
      if AddItem(t, items[0]).Some? {
        var u := AddItem(t, items[0]).value;
        StaysFlagged(t, items[0]);
        GoesThroughIff(u, items[1..]);
        forall n: nat | 0 < n < |items|
          ensures FindsPlace(u, items[1..], n - 1) <==> FindsPlace(t, items, n)
        {
          PlaceAfterOne(t, items, n);
        }
        hide FindsPlace, AddItem;
        if forall n: nat :: n < |items| ==> FindsPlace(t, items, n) {
          forall n: nat | n < |items[1..]|
            ensures FindsPlace(u, items[1..], n)
          {
            assert FindsPlace(t, items, n + 1) && FindsPlace(u, items[1..], n + 1 - 1);
          }
        }
      }
    }
  }

  /** What a list that stops has done is what the items before the one without a place do. */
  lemma {:induction false} StopsAt(t: Table, items: seq<Item>) returns (n: nat)
    requires Flagged(t) && AddItems(t, items).None?
    ensures n < |items| && !FindsPlace(t, items, n)
    ensures AddItems(t, items[..n]) == Some(AddedItems(t, items))
    decreases |items|
  {
    FirstPlaceIff(t, items);
    if AddItem(t, items[0]).None? {
      n := 0;
    } else {
      StaysFlagged(t, items[0]);
      var m := StopsAt(AddItem(t, items[0]).value, items[1..]);
      n := m + 1;
      PlaceAfterOne(t, items, n);
      assert items[..n][1..] == items[1..][..m];
    }
  }

  // ----- the whole table -----

  /** What a list that goes through leaves, in terms of its items alone. */
  ghost predicate ListDone(t: Table, items: seq<Item>, u: Table) {
    && (forall k :: k in u <==> InList(t, items, k))
    && (forall k <- u :: ListedRow(t, items, k, u[k]))
    && (forall k, n: nat {:trigger FirstNamed(items, k, n)} ::
          k in u && k !in t && FirstNamed(items, k, n) ==> LinkGiven(items[n], u[k]))
  }

  lemma RowIsDone(t: Table, items: seq<Item>, u: Table, k: Key)
    requires Flagged(t) && AddItems(t, items).Some? && SameTree(u, AddItems(t, items).value)
    ensures k in u <==> InList(t, items, k)
    ensures k in u ==> ListedRow(t, items, k, u[k])
  {
    ListColumns(t, items, k);
    hide AddItems, ListedRow;
    if k in u {
      SameColumns(t, items, k, AddItems(t, items).value[k], u[k]);
    }
  }

  lemma LinkIsDone(t: Table, items: seq<Item>, u: Table, k: Key, n: nat)
    requires ItemsOk(t, NO_GROUP, items) && k in u && k !in t && FirstNamed(items, k, n)
    requires AddItems(t, items).Some? && SameTree(u, AddItems(t, items).value)
    ensures LinkGiven(items[n], u[k])
  {
    NewLinks(t, NO_GROUP, items, k, n);
    hide AddItems, ItemsOk;
    assert AddItems(t, items).value[k].(lft := 0, rgt := 0) == u[k].(lft := 0, rgt := 0);
  }

  lemma ListIsDone(t: Table, items: seq<Item>, u: Table)
    requires Flagged(t) && ItemsOk(t, NO_GROUP, items)
    requires AddItems(t, items).Some? && SameTree(u, AddItems(t, items).value)
    ensures ListDone(t, items, u)
  {
    hide AddItems, ItemsOk, ListedRow, InList, FirstNamed, LinkGiven, SameTree, Flagged;
    forall k
      ensures k in u <==> InList(t, items, k)
      ensures k in u ==> ListedRow(t, items, k, u[k])
    {
      RowIsDone(t, items, u, k);
    }
    forall k, n: nat | k in u && k !in t && FirstNamed(items, k, n)
      ensures n < |items| && LinkGiven(items[n], u[k])
    {
      FirstIsItem(items, k, n);
      LinkIsDone(t, items, u, k, n);
    }
  }

  lemma FirstIsItem(items: seq<Item>, k: Key, n: nat)
    requires FirstNamed(items, k, n)
    ensures n < |items|
  {
  }

  lemma SameColumns(t: Table, items: seq<Item>, k: Key, r: Row, s: Row)
    requires ListedRow(t, items, k, r) && r.(lft := 0, rgt := 0) == s.(lft := 0, rgt := 0)
    ensures ListedRow(t, items, k, s)
  {
    assert r.info == s.info && r.deleted == s.deleted;
  }

  /** What is there when the list stops: the items before the first one without a place are done. */
  ghost predicate StoppedAt(t: Table, items: seq<Item>, n: nat, u: Table) {
    n < |items| && !FindsPlace(t, items, n) && ListDone(t, items[..n], u)
  }

  lemma ListIsStopped(t: Table, items: seq<Item>, u: Table)
    requires Flagged(t) && ItemsOk(t, NO_GROUP, items) && AddItems(t, items).None? && SameTree(u, AddedItems(t, items))
    ensures exists n: nat :: StoppedAt(t, items, n, u)
  {
    var n := StopsAt(t, items);
    FrontIsOk(t, NO_GROUP, items, n);
    ListIsDone(t, items[..n], u);
    assert StoppedAt(t, items, n, u);
  }

  lemma {:induction false} FrontIsOk(t: Table, g: Group, items: seq<Item>, n: nat)
    requires ItemsOk(t, g, items) && n <= |items|
    ensures ItemsOk(t, g, items[..n])
    decreases n
  {
    if n > 0 && AddItem(t, items[0]).Some? {
      FrontIsOk(AddItem(t, items[0]).value, GroupAfter(t, g, items[0]), items[1..], n - 1);
      assert items[..n][1..] == items[1..][..n - 1];
    }
  }
}
