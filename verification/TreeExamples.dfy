/** Where the operations on the association table break the tree, each at a table that a run of them
    reaches: cluster "c" with account "a" below its root and account "b" below "a". */
module TreeExamples {
  import opened Wrappers
  import opened NestedSet
  import opened Columns
  import opened TreeMove
  import opened TreeInsert
  import opened TreeItems
  import opened TreeBatch
  import opened TreePending
  import opened TreeModify
  import opened TreeRemove
  import opened AssocTable
  import opened TreeRuns
  import opened Limits
  import opened TextOrder

  const NOTHING := Given(map[], KeepQos, 0)
  const ROOT := RootKey("c")
  const A := AcctKey("c", "a")
  const B := AcctKey("c", "b")

  function Account(name: string, parent: Option<string>): Item {
    Item("c", name, parent, "", "", NOTHING)
  }

  function User(name: string, acct: string, parent: Option<string>): Item {
    Item("c", acct, parent, name, "", NOTHING)
  }

  // ----- the tables -----

  function OneCluster(): Table {
    AddRoot(map[], "c", NOTHING)
  }

  function WithA(): Table {
    AddOne(OneCluster(), ROOT, ItemEntry(Account("a", None)))
  }

  function WithAB(): Table {
    AddOne(WithA(), A, ItemEntry(Account("b", Some("a"))))
  }

  /** "b" was removed after jobs had run. */
  function WithoutB(): Table {
    ClearRows(WithAB(), [B])
  }

  const LIST := [Account("a", None), Account("b", Some("a"))]
  const STEPS := [AddCluster("c", NOTHING), AddList(LIST, true), Remove([B], 0, true)]

  lemma WithAIs()
    ensures WellFormed(OneCluster()) && OneCluster().Keys == {ROOT}
    ensures WellFormed(WithA()) && WithA().Keys == {ROOT, A}
    ensures AddItem(OneCluster(), LIST[0]) == Some(WithA())
  {
    assert WellFormed(map[]);
    AddRootWellFormed(map[], "c", NOTHING);
    AddItemCorrect(OneCluster(), NO_GROUP, LIST[0]);
  }

  lemma WithABIs()
    ensures WellFormed(WithAB()) && WithAB().Keys == {ROOT, A, B}
    ensures AddItem(WithA(), LIST[1]) == Some(WithAB())
    ensures WithAB()[A].rgt == 5 && WithAB()[B].deleted == 0
    ensures WithAB()[ROOT].lft == 1 && WithAB()[A].lft == 2 && WithAB()[B].lft == 3 && WithAB()[B].rgt == 4
    ensures WithAB()[ROOT].parentAcct == "" && WithAB()[A].parentAcct == "root" && WithAB()[B].parentAcct == "a"
  {
    WithAIs();
    AddItemCorrect(WithA(), Group(Some(ROOT), {A}), LIST[1]);
  }

  lemma ListIsOk()
    ensures ItemsOk(OneCluster(), NO_GROUP, LIST)
    ensures AddItems(OneCluster(), LIST) == Some(WithAB()) && AddedItems(OneCluster(), LIST) == WithAB()
  {
    WithAIs();
    WithABIs();
    hide WithAB, WithA, OneCluster, WellFormed, AddItem;
    var g := GroupAfter(OneCluster(), NO_GROUP, LIST[0]);
    assert LIST[1..] == [LIST[1]] && LIST[1..][1..] == [];
    assert ItemsOk(WithAB(), GroupAfter(WithA(), g, LIST[1]), []);
    assert ItemsOk(WithA(), g, [LIST[1]]);
    assert AddItems(WithA(), [LIST[1]]) == Some(WithAB());
    AddedIsAll(OneCluster(), LIST);
  }

  lemma WithoutBIs()
    ensures WellFormed(WithoutB()) && WithoutB().Keys == {ROOT, A, B}
    ensures WithoutB()[ROOT].lft == 1 && WithoutB()[B].lft == 3 && WithoutB()[B].rgt == 4
    ensures WithoutB()[B].deleted == 1 && WithoutB()[B].parentAcct == "a"
  {
    WithABIs();
    hide WithAB, OneCluster, WithA, WellFormed;
    RemovalDone(WithAB(), [], [B]);
  }

  lemma ListIsAdded()
    ensures Allowed(OneCluster(), AddList(LIST, true)) && Leaves(OneCluster(), AddList(LIST, true), WithAB())
  {
    ListIsOk();
    WithABIs();
    hide WithAB, WithA, WellFormed, ItemsOk, AddedItems, AddItems;
  }

  lemma BIsRemoved()
    ensures Leaves(WithAB(), Remove([B], 0, true), WithoutB())
  {
    hide WithAB;
  }

  /** Three steps, all of them allowed, lead to these tables. */
  lemma TablesAreReached()
    ensures IsRun([map[], OneCluster(), WithAB(), WithoutB()], STEPS)
  {
    PairIsReached();
    BIsRemoved();
    assert Allowed(WithAB(), STEPS[2]);
    hide *;
    assert STEPS == STEPS[..2] + [STEPS[2]];
    assert [map[], OneCluster(), WithAB(), WithoutB()] == [map[], OneCluster(), WithAB()] + [WithoutB()];
    OneMoreStep([map[], OneCluster(), WithAB()], STEPS[..2], STEPS[2], WithoutB());
  }

  lemma OneIsReached()
    ensures IsRun([map[], OneCluster()], STEPS[..1])
  {
    assert Allowed(map[], AddCluster("c", NOTHING)) && Leaves(map[], AddCluster("c", NOTHING), OneCluster());
    hide *;
    var first: seq<Table> := [map[]];
    StartOfRun();
    OneMoreStep(first, [], STEPS[0], OneCluster());
    assert first + [OneCluster()] == [map[], OneCluster()] && [] + [STEPS[0]] == STEPS[..1];
  }

  lemma PairIsReached()
    ensures IsRun([map[], OneCluster(), WithAB()], STEPS[..2])
  {
    ListIsAdded();
    OneIsReached();
    assert STEPS[1] == AddList(LIST, true) && STEPS[..1] + [STEPS[1]] == STEPS[..2];
    hide *;
    OneMoreStep([map[], OneCluster()], STEPS[..1], STEPS[1], WithAB());
    assert [map[], OneCluster()] + [WithAB()] == [map[], OneCluster(), WithAB()];
  }

  lemma StartOfRun()
    ensures IsRun([map[]], [])
  {
  }

  lemma OneMoreStep(tables: seq<Table>, steps: seq<Step>, s: Step, u: Table)
    requires IsRun(tables, steps) && Allowed(tables[|steps|], s) && Leaves(tables[|steps|], s, u)
    ensures IsRun(tables + [u], steps + [s])
  {
    hide Allowed, Leaves;
  }

  // ----- a user of "a" -----

  const USER := User("u", "a", None)
  const U := ItemKey(USER)
  const USER_STEPS := STEPS[..2] + [AddList([USER], true)] + [Remove([U], 0, true)]

  function WithUser(): Table {
    AddOne(WithAB(), A, ItemEntry(USER))
  }

  /** "u" was removed after jobs had run. */
  function WithoutUser(): Table {
    ClearRows(WithUser(), [U])
  }

  lemma WithUserIs()
    ensures WellFormed(WithUser()) && WithUser().Keys == {ROOT, A, B, U}
    ensures AddItem(WithAB(), USER) == Some(WithUser()) && ItemOk(WithAB(), NO_GROUP, USER)
    ensures WithUser()[U].parentAcct == ""
  {
    WithABIs();
    hide WithAB, WellFormed;
    assert ItemOk(WithAB(), NO_GROUP, USER);
    AddItemCorrect(WithAB(), NO_GROUP, USER);
  }

  lemma WithoutUserIs()
    ensures WellFormed(WithoutUser()) && WithoutUser().Keys == {ROOT, A, B, U}
    ensures WithoutUser()[U].deleted == 1 && WithoutUser()[U].parentAcct == ""
  {
    WithUserIs();
    hide WithAB, WithUser, WellFormed;
    RemovalDone(WithUser(), [], [U]);
  }

  lemma UserIsAdded()
    ensures Allowed(WithAB(), AddList([USER], true)) && Leaves(WithAB(), AddList([USER], true), WithUser())
  {
    WithUserIs();
    hide WithUser, WithAB, WellFormed, ItemOk;
    assert [USER][1..] == [] && ItemsOk(WithUser(), GroupAfter(WithAB(), NO_GROUP, USER), []);
    assert AddItems(WithAB(), [USER]) == Some(WithUser());
    AddedIsAll(WithAB(), [USER]);
  }

  lemma UserIsRemoved()
    ensures Leaves(WithUser(), Remove([U], 0, true), WithoutUser())
  {
    hide WithUser;
  }

  lemma UserIsReached()
    ensures IsRun([map[], OneCluster(), WithAB()] + [WithUser()] + [WithoutUser()], USER_STEPS)
  {
    PairIsReached();
    UserIsAdded();
    UserIsRemoved();
    assert Allowed(WithUser(), Remove([U], 0, true));
    hide *;
    OneMoreStep([map[], OneCluster(), WithAB()], STEPS[..2], AddList([USER], true), WithUser());
    OneMoreStep([map[], OneCluster(), WithAB()] + [WithUser()], STEPS[..2] + [AddList([USER], true)],
                Remove([U], 0, true), WithoutUser());
  }

  // ----- adding and reviving -----

  /** "b" comes back without a parent: it is linked to "root", but still lies inside "a". */
  lemma RevivedWithoutParentFails()
    ensures AddItem(WithoutB(), Account("b", None)) == Some(Revive(WithoutB(), Account("b", None)))
    ensures !WellFormed(Revive(WithoutB(), Account("b", None)))
  {
    WithoutBIs();
    hide WithoutB, WellFormed, Revive;
    ReviveKeepsTreeIff(WithoutB(), Account("b", None));
  }

  /** "b" comes back below an account that does not exist. */
  lemma RevivedBelowNothingFails()
    ensures AddItem(WithoutB(), Account("b", Some("x"))) == Some(Revive(WithoutB(), Account("b", Some("x"))))
    ensures !WellFormed(Revive(WithoutB(), Account("b", Some("x"))))
  {
    WithoutBIs();
    hide WithoutB, WellFormed, Revive;
    ReviveKeepsTreeIff(WithoutB(), Account("b", Some("x")));
  }

  /** "b" comes back below itself.  The modification of an account refuses its own name, this way does not. */
  lemma OwnParentFails()
    ensures AddItem(WithoutB(), Account("b", Some("b"))) == Some(Revive(WithoutB(), Account("b", Some("b"))))
    ensures !WellFormed(Revive(WithoutB(), Account("b", Some("b"))))
  {
    WithoutBIs();
    hide WithoutB, WellFormed, Revive;
    ReviveKeepsTreeIff(WithoutB(), Account("b", Some("b")));
  }

  /** "u", a user of "a", comes back with parent "b". */
  lemma UserMovedAwayFails()
    ensures AddItem(WithoutUser(), User("u", "a", Some("b"))) == Some(Revive(WithoutUser(), User("u", "a", Some("b"))))
    ensures !WellFormed(Revive(WithoutUser(), User("u", "a", Some("b"))))
  {
    WithoutUserIs();
    hide WithoutUser, WellFormed, Revive;
    ReviveKeepsTreeIff(WithoutUser(), User("u", "a", Some("b")));
  }

  /** A new user of "a" is added with parent "b". */
  lemma UserElsewhereFails()
    ensures var it := User("u", "a", Some("b"));
      && B in WithAB() && AddItem(WithAB(), it) == Some(AddOne(WithAB(), B, ItemEntry(it)))
      && !WellFormed(AddOne(WithAB(), B, ItemEntry(it)))
  {
    WithABIs();
    hide WithAB, WellFormed, AddOne;
    NewUserKeepsTreeIff(WithAB(), User("u", "a", Some("b")));
  }

  // ----- a list that touches its pending group -----

  const X := Account("x", None)

  /** "x" has been added below the root and is pending. */
  ghost function PendingX(t: Table): Table
    requires ROOT in t
  {
    Marked(t, ROOT, [ItemEntry(X)])
  }

  lemma XIsPending(t: Table)
    requires WellFormed(t) && ROOT in t && ItemKey(X) !in t
    ensures Pending(t, ROOT, [ItemEntry(X)]) && InBatch([ItemEntry(X)], ItemKey(X))
    ensures forall k :: k in PendingX(t) <==> k in t || k == ItemKey(X)
    ensures forall k <- t :: PendingX(t)[k] == t[k]
  {
    assert [ItemEntry(X)][0].key == ItemKey(X);
    forall k
      ensures k in PendingX(t) <==> k in t || k == ItemKey(X)
    {
      MarkedAt(t, ROOT, [ItemEntry(X)], k);
    }
    forall k | k in t
      ensures PendingX(t)[k] == t[k]
    {
      OldRowMarked(t, ROOT, [ItemEntry(X)], k);
    }
  }

  /** A list adds "x" and then "x" again, below the root or with another parent. */
  lemma SameKeyTwiceFails(parent: Option<string>, c: Option<Key>)
    requires ROOT in WithAB() && Answer(PendingX(WithAB()), Account("x", parent), c)
    ensures !WellFormed(FlushedRows(Treated(PendingX(WithAB()), Account("x", parent), c), WithAB()[ROOT].lft, 2))
  {
    hide WithAB, WellFormed, Marked, FlushedRows, Answer, Treated, InBatch, Pending;
    WithABIs();
    XIsPending(WithAB());
    RepeatedKeyFails(WithAB(), ROOT, [ItemEntry(X)], Account("x", parent), c);
  }

  /** A list adds "x" and then brings "b" back below the root: the move unmarks "x". */
  lemma MoveAfterNewRowFails(c: Option<Key>)
    requires ROOT in WithoutB() && Answer(PendingX(WithoutB()), Account("b", Some("root")), c)
    ensures !WellFormed(FlushedRows(Treated(PendingX(WithoutB()), Account("b", Some("root")), c),
                                    WithoutB()[ROOT].lft, 2))
  {
    hide WithoutB, WellFormed, Answer, Treated, FlushedRows, Rooted, PendingX, Pending;
    var t := WithoutB();
    WithoutBIs();
    WithoutBIsRooted();
    XIsPending(t);
    assert PendingX(t)[ROOT].lft == 1 && PendingX(t)[B] == t[B];
    hide *;
    BToTheRootFails(t, c);
  }

  lemma BToTheRootFails(t: Table, c: Option<Key>)
    requires Rooted(t) && ROOT in t && Pending(t, ROOT, [ItemEntry(X)])
    requires B in t && t[B].deleted == 1 && t[B].parentAcct == "a" && t[B].lft == 3
    requires Answer(PendingX(t), Account("b", Some("root")), c)
    requires ROOT in PendingX(t) && B in PendingX(t) && PendingX(t)[ROOT].lft == 1 && PendingX(t)[B] == t[B]
    ensures !WellFormed(FlushedRows(Treated(PendingX(t), Account("b", Some("root")), c), t[ROOT].lft, 2))
  {
    hide WellFormed, Marked, FlushedRows, Treated, Pending, Rooted;
    MoveWhilePendingFails(t, ROOT, [ItemEntry(X)], Account("b", Some("root")), c);
  }

  lemma WithoutBIsRooted()
    ensures Rooted(WithoutB())
  {
    TablesAreReached();
    RunWellFormed([map[], OneCluster(), WithAB(), WithoutB()], STEPS, 3);
  }

  /** A list adds "x" and then brings the user "u" back with a parent that does not exist: nothing moves, and
      the table stays well-formed. */
  lemma MissingParentIsHarmless(c: Option<Key>)
    requires ROOT in WithoutUser() && Answer(PendingX(WithoutUser()), User("u", "a", Some("y")), c)
    ensures WellFormed(FlushedRows(Treated(PendingX(WithoutUser()), User("u", "a", Some("y")), c),
                                   WithoutUser()[ROOT].lft, 2))
  {
    hide WithoutUser, WellFormed, Answer, Treated, FlushedRows, Rooted, PendingX, Pending;
    var t := WithoutUser();
    WithoutUserIs();
    WithoutUserIsRooted();
    XIsPending(t);
    assert AcctKey("c", "y") !in PendingX(t);
    hide *;
    NobodyNamedStays(t, c);
  }

  lemma NobodyNamedStays(t: Table, c: Option<Key>)
    requires Rooted(t) && ROOT in t && Pending(t, ROOT, [ItemEntry(X)])
    requires U in t && t[U].parentAcct == "" && AcctKey("c", "y") !in PendingX(t)
    requires Answer(PendingX(t), User("u", "a", Some("y")), c)
    ensures WellFormed(FlushedRows(Treated(PendingX(t), User("u", "a", Some("y")), c), t[ROOT].lft, 2))
  {
    hide WellFormed, Marked, FlushedRows, Treated, Pending, Rooted, Answer, Fits;
    NobodyNamedFits(t, ROOT, [ItemEntry(X)], User("u", "a", Some("y")), c);
    TreatedKeepsTreeIff(t, ROOT, [ItemEntry(X)], User("u", "a", Some("y")), c);
  }

  lemma WithoutUserIsRooted()
    ensures Rooted(WithoutUser())
  {
    UserIsReached();
    RunWellFormed([map[], OneCluster(), WithAB()] + [WithUser()] + [WithoutUser()], USER_STEPS, 4);
  }

  // ----- moving -----

  /** The root of the cluster gets "a" as its parent. */
  lemma RootBelowAccountFails()
    ensures ROOT in WithAB() && !WellFormed(MoveParent(WithAB(), ROOT, "a"))
  {
    WithABIs();
    hide WithAB, WellFormed, MoveParent;
    assert ReachesIn(WithAB(), ROOT, ROOT, 0);
    assert ReachesIn(WithAB(), A, ROOT, 1);
    MoveParentKeepsTreeIff(WithAB(), ROOT, "a");
  }

  // ----- several accounts with the same new parent -----

  /** "x" stands to the left of "a", and "b" is still below "a". */
  function WithXAB(): Table {
    AddOne(WithAB(), ROOT, ItemEntry(X))
  }

  const SELECTED := [Selected(ItemKey(X), 2, 3, "root"), Selected(A, 4, 7, "root")]

  lemma WithXABIs()
    ensures WellFormed(WithXAB()) && WithXAB().Keys == {ROOT, A, B, ItemKey(X)}
    ensures AddItem(WithAB(), X) == Some(WithXAB()) && ItemOk(WithAB(), NO_GROUP, X)
  {
    WithABIs();
    hide WithAB, WellFormed;
    AddItemCorrect(WithAB(), NO_GROUP, X);
  }

  /** The numbers and links the examples rest on. */
  ghost predicate SideBySide(t: Table) {
    && t.Keys == {ROOT, A, B, ItemKey(X)}
    && t[ROOT].lft == 1 && t[ItemKey(X)].lft == 2 && t[ItemKey(X)].rgt == 3 && t[A].lft == 4 && t[A].rgt == 7
    && t[B].lft == 5
    && t[ItemKey(X)].parentAcct == "root" && t[A].parentAcct == "root" && t[B].parentAcct == "a" && t[B].deleted == 0
  }

  lemma WithXABRows()
    ensures SideBySide(WithXAB())
  {
    WithABIs();
    WithXABIs();
    hide WithAB, WellFormed, AddItem;
    assert WithXAB()[ROOT].lft == 1;
    assert WithXAB()[A].lft == 4 && WithXAB()[A].rgt == 7;
  }

  lemma XIsReached()
    ensures IsRun([map[], OneCluster(), WithAB()] + [WithXAB()], STEPS[..2] + [AddList([X], true)])
  {
    PairIsReached();
    WithXABIs();
    assert [X][1..] == [] && ItemsOk(WithXAB(), GroupAfter(WithAB(), NO_GROUP, X), []);
    hide WithXAB, WithAB, WellFormed, ItemOk, IsRun, OneCluster;
    assert AddItems(WithAB(), [X]) == Some(WithXAB());
    AddedIsAll(WithAB(), [X]);
    OneMoreStep([map[], OneCluster(), WithAB()], STEPS[..2], AddList([X], true), WithXAB());
  }

  /** "b" is not below "x", so that "x" is just put below it. */
  lemma OnlyXMoves(t: Table, c: Option<Key>, u: Table)
    requires SideBySide(t) && Turn(t, SELECTED[0], "b", c, u)
    ensures c == None && u == Passed(t, ItemKey(X), B)
  {
    hide PassFrom;
  }

  lemma PassedToTheLeft(t: Table)
    requires WellFormed(t) && SideBySide(t)
    ensures var u := Passed(t, ItemKey(X), B); u.Keys == t.Keys && u[B].lft == 3 && u[B].parentAcct == "a"
  {
    BetweenIffReaches(t, B, ItemKey(X));
    PassedIsMoved(t, ItemKey(X), B);
  }

  /** "b" moves to the left with the subtree of "a" when "x" is put below it, and out of the old numbers of "a". */
  lemma BMovesLeft(t: Table, c: Option<Key>, u: Table)
    requires WellFormed(t) && SideBySide(t) && Turn(t, SELECTED[0], "b", c, u)
    ensures c == None && u.Keys == t.Keys && u[B].lft == 3 && u[B].parentAcct == "a"
  {
    OnlyXMoves(t, c, u);
    PassedToTheLeft(t);
    hide *;
  }

  lemma BIsNotFound(u: Table, c: Option<Key>, v: Table)
    requires u.Keys == {ROOT, A, B, ItemKey(X)} && u[B].lft == 3 && Turn(u, SELECTED[1], "b", c, v)
    ensures c == None
  {
  }

  lemma FirstTurnFits(t: Table)
    requires WellFormed(t) && SideBySide(t)
    ensures TurnFits(t, SELECTED[0], "b", None)
  {
    BetweenIffReaches(t, B, ItemKey(X));
  }

  lemma SecondTurnFails(u: Table)
    requires A in u && B in u && u[B].parentAcct == "a"
    ensures !TurnFits(u, SELECTED[1], "b", None)
  {
    assert ReachesIn(u, A, A, 0);
    assert ReachesIn(u, B, A, 1);
  }

  /** "x" and then "a" get "b" as their parent.  In the numbers "a" had before, "b" is not found any more, and
      "a" ends up below its own child. */
  lemma StaleNumbersFail(tables: seq<Table>, found: seq<Option<Key>>)
    requires IsLoop(tables, SELECTED, "b", found) && tables[0] == WithXAB()
    ensures !WellFormed(tables[2])
  {
    hide *;
    WithXABIs();
    WithXABRows();
    TwoTurnsFail(tables, found);
  }

  lemma TwoTurnsFail(tables: seq<Table>, found: seq<Option<Key>>)
    requires IsLoop(tables, SELECTED, "b", found) && SideBySide(tables[0]) && WellFormed(tables[0])
    ensures !WellFormed(tables[2])
  {
    ReadSideBySide(tables[0]);
    hide WellFormed, Turn, TurnFits, SideBySide, ReadFrom;
    assert Turn(tables[0], SELECTED[0], "b", found[0], tables[0 + 1]);
    assert Turn(tables[1], SELECTED[1], "b", found[1], tables[1 + 1]);
    BMovesLeft(tables[0], found[0], tables[1]);
    BIsNotFound(tables[1], found[1], tables[2]);
    FirstTurnFits(tables[0]);
    SecondTurnFails(tables[1]);
    LoopKeepsTreeIff(tables, SELECTED, "b", found, 1);
  }

  lemma ReadSideBySide(t: Table)
    requires SideBySide(t)
    ensures ReadFrom(t, SELECTED) && t.Keys == {ROOT, A, B, ItemKey(X)}
  {
  }

  // ----- the limits of a root -----

  const FIVE_JOBS := Given(map[MaxJobs := Some(5)], KeepQos, 0)
  const ROOT_D := RootKey("d")
  const REPORT := [ROOT, A, ROOT_D]

  const FIVE := AddRoot(map[], "c", FIVE_JOBS)
  const FIVE_A := AddOne(FIVE, ROOT, ItemEntry(Account("a", None)))

  /** The root of "c" limits the jobs to five, "a" is below it, and cluster "d" has no limits. */
  function TwoClusters(): Table {
    AddRoot(FIVE_A, "d", NOTHING)
  }

  lemma FiveIs()
    ensures WellFormed(FIVE) && FIVE.Keys == {ROOT} && IsRoot(ROOT, FIVE[ROOT]) && FIVE[ROOT].lft == 1
    ensures FIVE[ROOT].info.limits == map[MaxJobs := 5]
  {
    assert WellFormed(map[]);
    AddRootWellFormed(map[], "c", FIVE_JOBS);
  }

  lemma FiveAIs()
    ensures WellFormed(FIVE_A) && FIVE_A.Keys == {ROOT, A} && IsRoot(ROOT, FIVE_A[ROOT])
    ensures FIVE_A[ROOT].lft == 1 && FIVE_A[A].lft == 2 && FIVE_A[A].parentAcct == "root"
    ensures FIVE_A[ROOT].info.limits == map[MaxJobs := 5]
  {
    FiveIs();
    hide AddRoot, WellFormed;
    AddItemCorrect(FIVE, NO_GROUP, Account("a", None));
  }

  lemma TwoClustersIs()
    ensures WellFormed(TwoClusters()) && TwoClusters().Keys == {ROOT, A, ROOT_D}
    ensures TwoClusters()[ROOT].lft == 1 && TwoClusters()[A].lft == 2
    ensures IsRoot(ROOT, TwoClusters()[ROOT]) && IsRoot(ROOT_D, TwoClusters()[ROOT_D])
    ensures TwoClusters()[A].parentAcct == "root"
    ensures TwoClusters()[ROOT].info.limits == map[MaxJobs := 5] && TwoClusters()[ROOT_D].info.limits == map[]
  {
    FiveAIs();
    AddRootWellFormed(FIVE_A, "d", NOTHING);
    hide WellFormed, AddOne, ItemEntry;
  }

  lemma ReportIsSorted()
    ensures (forall k <- REPORT :: k in TwoClusters()) && SortedRows(TwoClusters(), REPORT)
  {
    TwoClustersIs();
    hide TwoClusters, WellFormed;
    assert StrLeq("c", "d") && StrLeq("c", "c");
  }

  /** The root of "d" is reported with the five jobs of "c". */
  lemma LimitsOfAnotherCluster(e: Effective)
    requires (forall k <- REPORT :: k in TwoClusters()) && WellFormed(TwoClusters()) &&
      Right(TwoClusters(), REPORT, 2, e)
    ensures e.values != Walk(TwoClusters(), ROOT_D)
  {
    TwoClustersIs();
    hide TwoClusters, WellFormed, Right, Walk;
    var t := TwoClusters();
    assert REPORT[..2] == [ROOT, A];
    assert LastParent(t, REPORT[..2]) == Some(ROOT);
    assert ReachesIn(t, ROOT, ROOT, 0);
    assert HeldAbove(t, ROOT, ROOT, MaxJobs);
    RootReportedAsStoredIff(t, REPORT, 2, e);
  }
}
