# Accounting storage: model and proofs

A Dafny model of the stateful parts of a SLURM accounting store and of the
tools around it, with proofs of the properties that make them work.

- **The association tree** (`NestedSet`, `Columns`, `TreeMove`, `TreeInsert`,
  `TreeItems`, `TreeBatch`, `TreePending`, `TreeColumns`, `TreeModify`, `TreeRemove`,
  `AssocTable`, `TreeRuns`, `TreeExamples`).
  Every cluster, account and user row is stored twice over: with the name of its
  parent, and with an interval `lft..rgt` in one numbering shared by all clusters.
  `AssocTable.AssociationTable` holds the rows and changes them as the SQL statements
  do, one pass over the rows for each UPDATE, DELETE or INSERT. The proofs show that
  the two views stay equal: the numbers are exactly 1..2n, and `lft between` says
  "ancestor or self".
- **Limits inherited over that tree** (`Limits`, `LimitPush`): the walk up of the
  stored procedure, the cache kept from row to row, and the walk down that finds the
  users to be told about a change. The walks agree.
- **Rolling up usage** (`HourUsage`, `Rollup`, `RollupNews`, `RollupRuns`,
  `RollupExamples`, `UsageTables`). `HourUsage` says what the hourly rollup books for a job row in an
  hour, in the columns of allocated and of reserved time, and from that which hours
  change when a row does. `Rollup` has the watermarks over these buckets; an hour, day
  or month whose stored usage does not reflect the rows must not start before the
  watermark of its size.
- **Suspensions and node events** (`Suspend`, `NodeEvents`): the
  `suspended = T - suspended` counter, and the periods of nodes and clusters.
- **Host lists** (`HostText`, `HostStrip`, `HostSort`, `HostExpand`, `HostParts`,
  `HostCollect`, `HostRound`, `HostLoop`, `HostRoundTrip`): expanding bracket expressions, collecting
  hosts into them in several rounds, and the round trip between the two.
- **Merging intervals** (`EventMerge`, `Agglutinate`): successive events of a node,
  and chains of close or overlapping intervals.
- **The group file** (`GroupLine`, `GroupText`, `GroupFile`): a line parsed in place, with the table
  of member pointers built byte by byte in what is left of the buffer.

`Wrappers` holds the option type and `TextOrder` the order of strings. An invariant of
a class is stated on the value of its fields; each method names the function of the old
value that the new one equals, and carries the invariant where its condition is met.
The properties are proved about those functions. Beside that it says row by row and
column by column what it writes and what it leaves, in terms of its arguments alone.

Where the code does not keep what it is meant to keep, the model follows the code. A
lemma whose name ends in `Iff` gives the exact condition under which it does, in terms
of what a caller knows before the call, and another one an input for which it does not:

| what is lost | exactly unless | an input |
|---|---|---|
| the tree, when an account or a user moves: an account below itself, a root below a descendant, a user out of its account | `TreeMove.MoveParentKeepsTreeIff` | `TreeExamples.OwnParentFails`, `TreeExamples.RootBelowAccountFails`, `TreeExamples.UserMovedAwayFails` |
| the tree, when a deleted row comes back with another parent, or an account with none | `TreeItems.ReviveKeepsTreeIff` | `TreeExamples.RevivedWithoutParentFails`, `TreeExamples.RevivedBelowNothingFails` |
| the tree, when a new user names another account as parent | `TreeItems.NewUserKeepsTreeIff`, `TreePending.NewRowKeepsTreeIff` | `TreeExamples.UserElsewhereFails` |
| the tree, when an item of a list repeats a key of the pending group or moves anything while it is pending | `TreePending.TreatedKeepsTreeIff` | `TreeExamples.SameKeyTwiceFails`, `TreeExamples.MoveAfterNewRowFails` |
| the tree, when several accounts get one new parent and the query looks in numbers read too early | `TreeModify.StaleMoveKeepsTreeIff`, `TreeModify.LoopKeepsTreeIff` | `TreeExamples.StaleNumbersFail` |
| the limits reported for a root | `Limits.RootReportedAsStoredIff` | `TreeExamples.LimitsOfAnotherCluster` |
| stale buckets, when a roll is given a start or an end | `Rollup.RollKeepsFitIff`, `RollupRuns.RollToGivenEndIff` | `RollupExamples.GivenEndLosesStart`, `RollupExamples.GivenStartLosesHour` |
| stale buckets, when a process hears news before it has rolled | `RollupRuns.NewsBeforeFirstRollIff` | `RollupExamples.FirstNewsIsLost` |
| reserved time already rolled, when a waiting job starts or is cancelled | `RollupRuns.ReservedStartIff`, `RollupRuns.ReservedEndIff` | `RollupExamples.ReservedTimeIsLost`, `RollupExamples.CancelledTimeIsLost` |
| allocated time already rolled, when a job is resumed | `Rollup.NewsKeepsFitIff` | `RollupExamples.SuspendedTimeIsLost` |
| the suspended counter, when suspensions do not alternate, or a job ends while it is suspended | `Suspend.SetStateKeepsAllIff`, `Suspend.CompleteKeepsAllIff` | `Suspend.ResumedTwiceFails`, `Suspend.EndedSuspendedFails` |
| the order of periods, when node_down, node_up or cluster_procs comes late | `NodeEvents.NodeDownKeepsIff`, `NodeEvents.NodeUpKeepsIff`, `NodeEvents.ClusterProcsKeepsIff` | `NodeEvents.LateDownFails`, `NodeEvents.LateUpFails`, `NodeEvents.LateSizeFails` |
| covered time, when an event ends before it starts | `EventMerge.PairKeepsCoverIff` | `EventMerge.CoverIsLost` |
| the gap between hulls, when an interval contains later ones | `Agglutinate.SeparatedIff` | `Agglutinate.ContainedIsMissed` |

Only a deleted row can come back below itself or leave its account as a user: the
modification of accounts refuses an account its own name and moves no users.

## Model

| member | source | states |
|---|---|---|
| NestedSet.BetweenIffReaches | accounting_storage_mysql.c:2236-2242 | in a well-formed table the interval test `lft between` holds exactly when one row is reached from the other along parent links |
| NestedSet.LinksDetermineNesting | accounting_storage_mysql.c:4249-4364 | two well-formed numberings of the same links answer every interval test alike; only the order of siblings can differ |
| NestedSet.EndPointCount | accounting_storage_mysql.c:4038-4049 | nested or disjoint intervals have 2n different end points |
| NestedSet.NumberingIsGapFree | accounting_storage_mysql.c:4038-4049 | the `lft` and `rgt` values of a well-formed table are exactly the numbers 1..2n, across all clusters |
| TreeMove.PassedIsMoved | accounting_storage_mysql.c:1644-1685 | the marking, opening, closing and unmarking UPDATEs, for a move to the left or to the right, cut the subtree out and put it back right behind the new parent's `lft`, every `deleted` flag restored |
| TreeMove.MovedPair | accounting_storage_mysql.c:1644-1681 | which rows lie inside which after a move: unchanged for two rows that both move or both stay, and a moved row lies inside a staying one exactly when that is the new parent or around it |
| TreeMove.SkippedIsFirstChild | accounting_storage_mysql.c:1633-1642 | a legal move is skipped only when the account already is the first child of the parent named |
| TreeMove.MoveAccountCorrect | accounting_storage_mysql.c:1606-1691 | a move below an account outside the subtree makes it that account's first child, changes exactly one link, keeps flags, other columns and the agreement of the two views |
| TreeMove.MoveAccountKeepsOrder | accounting_storage_mysql.c:1644-1681 | rows that move together, and rows that stay, keep their order |
| TreeMove.LiftCorrect | accounting_storage_mysql.c:1709-1733 | a new parent found inside the moved subtree is first put below the old parent, after which the second move is legal |
| TreeMove.MoveParentCorrect | accounting_storage_mysql.c:1698-1766 | no cycle comes about: when the new parent was a descendant exactly two links change, otherwise exactly one, and the account ends as the first child of its new parent |
| TreeMove.MoveParentKeepsTreeIff | accounting_storage_mysql.c:1698-1766 | for any row the two views agree afterwards if and only if the new parent is unknown, a user stays in its own account, or an account is not its own new parent and not a root put below one of its descendants |
| TreeMove.MoveParentRooted | accounting_storage_mysql.c:1698-1766 | a legal move leaves every cluster its one root, the account "root" |
| TreeInsert.AddOneWellFormed | accounting_storage_mysql.c:4345-4364 | the commented-out slow insertion keeps the table well-formed |
| TreeInsert.BatchIsEachReversed | accounting_storage_mysql.c:4249-4366 | one shift for a whole group gives row for row the table the slow insertions give for the same entries in reverse order |
| TreeInsert.AddBatchWellFormed | accounting_storage_mysql.c:4271-4287 | flushing a group keeps the table well-formed |
| TreeInsert.AddRootWellFormed | accounting_storage_mysql.c:4038-4049 | a cluster's root behind the largest `rgt`, or a known root marked as not deleted, keeps the table well-formed |
| TreeItems.ReviveCorrect | accounting_storage_mysql.c:4374-4410 | a deleted row that comes back, moved first when it names another parent, leaves a well-formed table |
| TreeItems.ReviveKeepsTreeIff | accounting_storage_mysql.c:4374-4410 | for users and accounts alike it does so exactly when the parent named is the present one or a legal target (for an account it also has to exist), and when an account that names none is below "root" |
| TreeItems.NewUserKeepsTreeIff | accounting_storage_mysql.c:4178-4184 | a new user with an explicit parent fits the links exactly when that parent is its own account |
| TreeItems.AddItemCorrect | accounting_storage_mysql.c:4169-4410 | an item that is allowed leaves a well-formed table with exactly its key added, if it was not there, and that row not deleted |
| TreePending.GapFails | accounting_storage_mysql.c:4271-4287 | a position made free by the flush that no row still marked `deleted=2` fills leaves a hole in the numbers |
| TreePending.TreatedKeepsTreeIff | accounting_storage_mysql.c:4169-4410 | an item that finds its key in the table while rows are pending, treated as coded (with up to two moves, whatever row the query without a cluster finds), and the flush behind it leave a well-formed table if and only if the key is no pending one, a row that comes back and names another parent is a user's and both moves return early, and an account that comes back is below the parent it is given |
| TreePending.StepKeepsTreeIff | accounting_storage_mysql.c:4169-4410 | the same for every state of the loop between two flushes |
| TreePending.OkItemFits | accounting_storage_mysql.c:4169-4410 | an item that is allowed in terms of names and links fits |
| TreePending.RepeatedKeyFails | accounting_storage_mysql.c:4374-4410 | an item that repeats a pending key breaks the tree, also when it names another parent and that row is moved first |
| TreePending.MoveWhilePendingFails | accounting_storage_mysql.c:1698-1766 | an item that moves anything while rows are pending breaks the tree, be it one move or the two made when the new parent lies below the row: the statements unmark pending rows or carry all of them away |
| TreePending.NewRowKeepsTreeIff | accounting_storage_mysql.c:4257-4343 | a new row that joins the pending ones leaves a well-formed table after the flush if and only if its account has a name and, for a user, is the parent |
| TreeBatch.FlushIsAddBatch | accounting_storage_mysql.c:4271-4287 | the three flush UPDATEs over a table with pending rows marked `deleted=2` give the batch insertion |
| TreeBatch.LoopNewRow | accounting_storage_mysql.c:4257-4343 | the `my_left` kept from item to item is the `lft` of the pending group's parent when a row is added, also when that parent was added earlier in the list |
| TreeBatch.LoopEnd | accounting_storage_mysql.c:4503-4527 | when the loop is through and flushed, the rows are well-formed and have the links, flags and columns the plain way gives |
| TreeBatch.LoopMissing | accounting_storage_mysql.c:4290-4330 | when a parent is missing, everything before it has been flushed: the rows are well-formed and what the plain way has reached |
| TreeRemove.SubtreeSize | accounting_storage_mysql.c:2341-2344 | a subtree has `(rgt - lft + 1) / 2` rows, the width the deletion closes |
| TreeRemove.RemoveSubtreeWellFormed | accounting_storage_mysql.c:2359-2372 | deleting one subtree and closing the gap keeps the table well-formed |
| TreeRemove.RemoveEachKeepsTheRest | accounting_storage_mysql.c:2333-2386 | whatever order the ids come in, exactly the rows with no selected row at or above them are left, with their columns, although numbers shift and some ids vanish with an earlier subtree |
| TreeRemove.RemoveEachKeepsOrder | accounting_storage_mysql.c:2333-2386 | the rows left keep their mutual order and nesting |
| AssocTable.AssociationTable.MoveAccountRows | accounting_storage_mysql.c:1606-1691 | the method, statement by statement, refines `TreeMove.MoveAccount` on every table |
| AssocTable.AssociationTable.MoveParentRows | accounting_storage_mysql.c:1698-1766 | on any table, and for numbers read at any time, the query by interval and name with the moves behind it refines `TreeMove.MoveFound`; with the numbers of a well-formed table it refines `TreeMove.MoveParent`, and the table is well-formed afterwards if and only if the move was legal |
| TreeModify.NumbersKeptIff | accounting_storage_mysql.c:1644-1681 | a move leaves the numbers of another row as they were read exactly when that row is not in the moved subtree and neither starts nor ends between the old and the new place |
| TreeModify.StaleMoveKeepsTreeIff | accounting_storage_mysql.c:1698-1766 | `_move_parent` called with numbers read too early keeps the tree exactly when, for an account that is no root, the query finds nothing and the new parent is not below it, or finds the new parent and this is below it or not above its parent; for a root, when the new parent is not below it |
| TreeModify.LoopKeepsTreeIff | accounting_storage_mysql.c:5455-5585 | the loop over several accounts keeps the tree as long as what each query finds in the old numbers fits, and is broken by the first one that does not |
| AssocTable.AssociationTable.ModifyParents | accounting_storage_mysql.c:5455-5585 | the loop, passing over users and over the account with the name of the new parent, goes through such tables |
| TreeMove.FoundIsNewParent | accounting_storage_mysql.c:1713-1716 | in a well-formed table a query without a cluster in it finds the account of the right cluster, and finds it exactly when it is below the row |
| AssocTable.MaxRgtIsLast | accounting_storage_mysql.c:4038-4041 | `coalesce(max(rgt), 0)` is 2n |
| AssocTable.AssociationTable.AddClusterRow | accounting_storage_mysql.c:4038-4049 | the root added at `max + 1, max + 2` refines `TreeInsert.AddRoot` and keeps the table well-formed; the root is live and holds what is given, and no other row changes |
| AssocTable.RootIsAdded | accounting_storage_mysql.c:4038-4066 | a known root keeps its numbers, its creation time and every column not given; a new one has the numbers 2n+1 and 2n+2 and nothing but what is given |
| Columns.UpdatedHolds | accounting_storage_mysql.c:476-672 | an UPDATE writes every limit and qos given, NULL included, and leaves the other columns and the creation time |
| Columns.InsertedHolds | accounting_storage_mysql.c:476-672 | an INSERT stores every limit and qos given, nothing else, and the time of the call |
| TreeColumns.ListColumns | accounting_storage_mysql.c:4169-4410 | a list treated item by item, column by column: each row inserted or revived holds what the first item naming it gives, and every other row keeps its flag and its columns |
| TreeColumns.NewLinks | accounting_storage_mysql.c:4169-4410 | a new row is linked to the account its item names or to "root", a new user to nothing, to the end of the list |
| TreeColumns.GoesThroughIff | accounting_storage_mysql.c:4290-4330 | a list goes through exactly when each item finds its row or the account a new row goes below, in the table or among the items before it |
| AssocTable.AssociationTable.AddAssociations | accounting_storage_mysql.c:4121-4590 | the batched loop over a list of new, deleted and live keys succeeds exactly when the plain way does, then reaches a well-formed table with the same links, flags and columns; that is exactly when each item finds its row or its parent, and each row then holds the limits and qos of the first item that inserted or revived it, all others keeping their columns; a missing parent rolls everything back, or on a connection without rollback leaves a well-formed table with what the items before it give |
| AssocTable.AssociationTable.DeleteSubtrees | accounting_storage_mysql.c:2333-2386 | the loop that reads the numbers again for every id refines `TreeRemove.RemoveEach` and keeps the table well-formed |
| AssocTable.AssociationTable.RemoveAssociations | accounting_storage_mysql.c:2304-2422 | a row is gone exactly when no jobs have run and some selected row at or above it was created after the day given; the selected rows left are marked and lose four limits, everything else keeps its flag, columns, order and nesting |
| AssocTable.RemovalIs | accounting_storage_mysql.c:2304-2422 | the same, row by row, for the deletion of the recent rows found by the query and the UPDATE behind it |
| TreeRuns.Perform | accounting_storage_mysql.c:1606-4530 | the methods, called as steps of a run, leave the tables the runs below are made of |
| TreeRuns.RunWellFormed | accounting_storage_mysql.c:1606-4530 | every run of cluster, association, move and removal steps keeps the table well-formed, with the account "root" the only root of a cluster |
| TreeRuns.RunKeepsViewsEqual | accounting_storage_mysql.c:1606-4530 | after every run from the empty table the numbers are 1..2n, intervals are nested or disjoint, and the interval test equals reachability along links |
| TreeExamples.TablesAreReached | accounting_storage_mysql.c:1606-4530 | a cluster is added, "a" below its root and "b" below "a", and "b" is removed again: a run of allowed steps leads to the tables of the examples below |
| TreeExamples.RevivedWithoutParentFails | accounting_storage_mysql.c:4374-4410 | "b" comes back without a parent: linked to "root", inside "a" |
| TreeExamples.RevivedBelowNothingFails | accounting_storage_mysql.c:4374-4410 | "b" comes back below an account that does not exist |
| TreeExamples.UserElsewhereFails | accounting_storage_mysql.c:4178-4184 | a new user of "a" with parent "b" |
| TreeExamples.SameKeyTwiceFails | accounting_storage_mysql.c:4249-4410 | a list with "x" twice, with the same or another parent |
| TreeExamples.MoveAfterNewRowFails | accounting_storage_mysql.c:4249-4410 | a list that adds "x" and then brings "b" back below the root |
| TreeExamples.MissingParentIsHarmless | accounting_storage_mysql.c:4249-4410 | a list that adds "x" and then brings a user back with a parent that does not exist: nothing moves, and the table is well-formed |
| TreeExamples.OwnParentFails | accounting_storage_mysql.c:4374-4410 | "b" comes back below itself |
| TreeExamples.UserMovedAwayFails | accounting_storage_mysql.c:4374-4410 | a removed user of "a" comes back with parent "b" |
| TreeExamples.RootBelowAccountFails | accounting_storage_mysql.c:1698-1766 | the root below "a" |
| TreeExamples.StaleNumbersFail | accounting_storage_mysql.c:5455-5585 | "x" and "a", with "b" below "a", get "b" as their parent: in the old numbers of "a" the query does not find "b" any more |
| NestedSet.RootIsAbove | accounting_storage_mysql.c:8338-8342 | in such a table the root of a cluster is around every other row of it, so `order by cluster,lft` puts it first |
| Limits.SortedIsOrdered | accounting_storage_mysql.c:8338-8342 | sorted by cluster and `lft`, the rows of a cluster stand together, its root first |
| Limits.WalkIsNearest | accounting_storage_mysql.c:3110-3171 | the walk up has a value for a limit exactly when some row at or above has one, and it is that of the nearest such row |
| Limits.GetParentLimits | accounting_storage_mysql.c:3135-3171 | the REPEAT loop terminates on the parent chain and its early stop loses nothing: the values, and the qos with the changes collected on the way, are those of the full walk |
| Limits.QosIsNearest | accounting_storage_mysql.c:3143-3162 | the qos is that of the nearest row at or above that has one, or the root's, and the changes are those of the rows from there down, the uppermost first |
| Limits.NextAssociation | accounting_storage_mysql.c:8402-8507 | the parent is looked up unless it is the last one; for a row that is not a root the cache then holds that parent's values |
| Limits.CacheStep | accounting_storage_mysql.c:8402-8540 | what the cache means is kept from row to row and makes the reported values right |
| Limits.GetAssociations | accounting_storage_mysql.c:8338-8540 | over rows sorted by cluster and `lft`, in any table a run leaves: every row that is not a root is reported with its parent and with exactly the values of a fresh walk; a root with no parent and its own values over the stale ones |
| Limits.RootReportedAsStoredIff | accounting_storage_mysql.c:8407-8412 | a root is reported as stored exactly when no row at or above the parent looked up last, in the cluster before, holds a limit the root lacks |
| Limits.InForceIff | accounting_storage_mysql.c:3110-3171 | a limit is in force at a row exactly when some row at or above it holds it |
| TreeExamples.LimitsOfAnotherCluster | accounting_storage_mysql.c:8407-8412 | cluster "d" without limits, behind a cluster "c" with five jobs: the root of "d" is reported with five jobs |
| LimitPush.ModifyUnsetUsers | accounting_storage_mysql.c:1844-2058 | the recursion over shrinking intervals tells exactly the users below the account that leave the limit open all the way up, each once, in tree order |
| LimitPush.TellChild | accounting_storage_mysql.c:1917-2054 | the part of the list one selected row gives |
| LimitPush.QueryFindsChildren | accounting_storage_mysql.c:1901-1906 | the query by interval and name finds exactly the live children of the account |
| LimitPush.PassesIsNearest | accounting_storage_mysql.c:1844-2058 | for every table: the way down reaches a row exactly when the account is the nearest holder found by the way up and no row on the way below the account is deleted, at which the way up does not look |
| LimitPush.ToldIsInherited | accounting_storage_mysql.c:1844-2058 | the users told are exactly those whose nearest value is the one just set, with no deleted row on the way, and they are told the value the walk up returns |
| HourUsage.HourSecondsAreCounted | src/plugins/accounting_storage/mysql/mysql_rollup.c:442-690 | the seconds the hourly rollup computes for a job in an hour, its loop over the suspensions included, are exactly the number of seconds that lie in the span the row books and, for allocated time, in no suspension, as long as no two suspensions overlap; in an hour suspended through it books no reserved time |
| HourUsage.WholeHourPausedIff | src/plugins/accounting_storage/mysql/mysql_rollup.c:471-528 | the rollup passes over a job for an hour exactly when it runs in that hour and is suspended in every second in which it does |
| HourUsage.LeftIs | src/plugins/accounting_storage/mysql/mysql_rollup.c:484-520 | subtracting overlap after overlap leaves the number of seconds outside of all suspensions, when these lie apart |
| HourUsage.SameUpToSuffices | src/plugins/accounting_storage/mysql/mysql_rollup.c:442-690 | two states of a row whose spans before a time are equal, or differ within suspensions only, and are booked for the same, book every second before it alike |
| HourUsage.SameUpToIsNeeded | src/plugins/accounting_storage/mysql/mysql_rollup.c:442-690 | and only those, when suspensions do not overlap |
| HourUsage.PauseFreeIff | src/plugins/accounting_storage/mysql/mysql_rollup.c:484-520 | a suspension changes no second before a time exactly when it meets nothing the row books there, other suspensions being apart from it |
| HourUsage.TouchedFrom | src/plugins/accounting_storage/mysql/mysql_rollup.c:442-690 | no hour before an hour start changes exactly when every second before it is booked alike |
| HourUsage.OtherSecondsAreTouched | src/plugins/accounting_storage/mysql/mysql_rollup.c:442-690 | every hour in which the rollup would now compute other seconds is among those a change of the row makes stale |
| Rollup.RollKeepsFit | accounting_storage_mysql.c:9928-10057 | a roll whose condition is met, with or without a start or an end given, keeps every stale bucket behind its watermark and the variable in memory safe for later news; one from the watermarks on leaves every hour, day and month before its end up to date |
| Rollup.RollKeepsFitIff | accounting_storage_mysql.c:9928-10057 | that condition, a comparison of the times given with the watermarks, is exact: it holds if and only if the roll keeps all states with these watermarks safe |
| Rollup.RollFromMarksIff | accounting_storage_mysql.c:9958-10046 | for a roll from the watermarks on it says that the end, which may lie in the future, does not lie in an hour before that of the hourly watermark; a plain roll by a clock that does not go back always meets it |
| Rollup.LostByGivenStart | accounting_storage_mysql.c:9928-10057 | a roll with a start given moves the watermark over every stale hour before that start |
| Rollup.NewsKeepsFitIff | accounting_storage_mysql.c:10385-10755 | a job that starts or ends, a resumption or a flush keeps the state safe if and only if the row books the same as before up to the hour of the watermarks as the news leaves them, as long as no suspensions of a job overlap; the if-half needs not even that |
| RollupRuns.SafeIffFreshStartsCovered | accounting_storage_mysql.c:10410-10484 | what is kept is what later news needs: of the covered states the safe ones are exactly those that the start of a new job, whenever it was, leaves covered |
| RollupRuns.OrdinaryIsTimely | accounting_storage_mysql.c:10385-10755 | for allocated time, a start heard of once or again without change, and an end with the start on record, always meet that condition, however late they come |
| RollupRuns.ReservedStartIff | src/plugins/accounting_storage/mysql/mysql_rollup.c:663-690 | for reserved time, the start of a waiting job meets it exactly when its eligible time is not before the hour of the watermarks as the start leaves them, or it did not wait beyond that time, or it runs in a reservation |
| RollupRuns.ReservedEndIff | src/plugins/accounting_storage/mysql/mysql_rollup.c:663-690 | so does the end of a job that never started |
| RollupRuns.ReservedEndOfStarted | src/plugins/accounting_storage/mysql/mysql_rollup.c:663-690 | the end of a job that has started changes no reserved time |
| RollupRuns.RunStaysCovered | accounting_storage_mysql.c:9812-10755 | in every run of rolls and news that meet their conditions, in either column, no stale hour, day or month starts before the floor of its watermark, and every roll from the watermarks on leaves all buckets before its end up to date |
| RollupRuns.UsualRunIsProper | accounting_storage_mysql.c:9812-10755 | for allocated time every run of plain rolls, with a clock that does not go back, and of ordinary starts and ends is such a run |
| RollupRuns.FirstRollIsFit | accounting_storage_mysql.c:9812-10057 | the first plain roll of a process, whatever its variable holds, makes a covered state safe |
| RollupRuns.NewsBeforeFirstRollIff | accounting_storage_mysql.c:10422-10473 | before it, the start of a new job is covered exactly when none of the three watermarks has passed its hour, day and month |
| RollupRuns.RollToGivenEndIff | accounting_storage_mysql.c:9958-10046 | after a roll to a given end, the starts of new jobs stay covered exactly when that end is not before the hour of the hourly watermark |
| RollupExamples.ReservedTimeIsLost | src/plugins/accounting_storage/mysql/mysql_rollup.c:663-690 | eligible at 9:30, rolled at 12:00, started at 12:30: hour nine stays wrong |
| RollupExamples.CancelledTimeIsLost | src/plugins/accounting_storage/mysql/mysql_rollup.c:663-690 | the same for a job cancelled while it waits |
| RollupExamples.SuspendedTimeIsLost | src/plugins/accounting_storage/mysql/mysql_rollup.c:484-520 | a resumption changes hours already rolled |
| RollupExamples.GivenEndLosesStart | accounting_storage_mysql.c:9958-10046 | a roll to an earlier end, then a late start |
| RollupExamples.GivenStartLosesHour | accounting_storage_mysql.c:9958-10046 | a roll from a later start passes over a stale hour |
| RollupExamples.FirstNewsIsLost | accounting_storage_mysql.c:10422-10473 | a late start in a process that has not rolled |
| RollupNews.StartStores | accounting_storage_mysql.c:10540-10672 | a start changes one row at most: a known one gets account, wckey and reservation, and with an index also start and CPUs; a new one is eligible from its begin time, or from its submission without one |
| RollupNews.StartMarksAre | accounting_storage_mysql.c:10410-10484 | all watermarks go back to the start, or before it to the begin, or to the submission, when that was rolled already and the row is not on record with these times; else none moves |
| RollupNews.EndStores | accounting_storage_mysql.c:10678-10755 | an end changes one row at most: end and start are stored, the start as 0 when it lies behind the end; a job without a row and an index is stored first |
| RollupNews.EndMarksAre | accounting_storage_mysql.c:10706-10718 | all watermarks go back to an end already rolled, and for a job stored with it to the time of its start; else none moves |
| RollupNews.NewsIsStale | accounting_storage_mysql.c:10385-10755 | where news makes a row book a second otherwise, its hour, day and month are stale |
| RollupNews.RollIs | accounting_storage_mysql.c:9928-10057 | a roll moves each watermark to the floor of its end, unless an end is given or that is not later than the floor it starts at, and changes no row |
| RollupNews.RolledBuckets | accounting_storage_mysql.c:9928-10057 | outside of a roll stale buckets stay; inside no hour is stale any more, and a day or a month only when it holds a stale hour or day |
| UsageTables.Usage.RollUsage | accounting_storage_mysql.c:9812-10057 | the method refines `Rollup.Roll` for every sent start and end, watermarks and buckets written out; where the condition is met it keeps the state safe and brings it up to date, also as the first roll |
| UsageTables.Usage.StartJob | accounting_storage_mysql.c:10385-10640 | the method refines `Rollup.JobStart`, its row and its watermarks written out, and keeps the state safe when the start meets its condition |
| UsageTables.Usage.EndJob | accounting_storage_mysql.c:10678-10755 | the method refines `Rollup.JobEnd`: a job without an index and a row is started first, and with an index of a missing row only the watermarks move, row and watermarks written out; it keeps the state safe when the end meets its condition |
| UsageTables.Perform | accounting_storage_mysql.c:9812-10755 | the methods, called as the events of a run, keep the state safe and up to date |
| Suspend.ClosingCounts | accounting_storage_mysql.c:11070-11073 | closing the open intervals of some jobs adds their lengths to the closed total and touches no other job |
| Suspend.SetStateKeepsLawIff | accounting_storage_mysql.c:11056-11078 | one call keeps the law of the `suspended` counter of its job exactly when it suspends a job that is not suspended or resumes one that is, but for one coincidence of times |
| Suspend.SetStateKeepsAllIff | accounting_storage_mysql.c:11056-11078 | and that of all jobs exactly then |
| Suspend.ResumedTwiceFails | accounting_storage_mysql.c:11056-11078 | a job resumed that was not suspended |
| Suspend.CompleteKeepsAllIff | accounting_storage_mysql.c:10678-10755 | the end of a job, which writes its state and closes no period, keeps the law exactly when the job does not end out of a suspension, or into one |
| Suspend.EndedSuspendedFails | accounting_storage_mysql.c:10678-10755 | a job suspended at 10 that ends at 20 |
| Suspend.HistoryKeepsLaw | accounting_storage_mysql.c:10678-11204 | in every history in which suspensions alternate and no job ends while suspended, with flushes anywhere, the counter of a job that is not suspended is the total length of its closed intervals, and no counter is ever negative |
| Suspend.StateIs | accounting_storage_mysql.c:11056-11078 | the job's state is set and its counter subtracted from the time; a period is opened, or its open one ends; other jobs and periods stay |
| Suspend.CompleteIs | accounting_storage_mysql.c:10726-10755 | the job's state and end are set, unless there is no end time; counters, periods and other jobs stay |
| Suspend.ClusterIs | accounting_storage_mysql.c:11156-11204 | the jobs of the cluster without an end are cancelled with that end, the suspended ones resumed first and their periods ended; jobs of other clusters and ended ones stay |
| Suspend.Accounting.SuspendJob | accounting_storage_mysql.c:11056-11078 | the two statements refine `Suspend.SetState`, written out, and the law of all jobs holds afterwards if and only if the call alternates, but for that coincidence |
| Suspend.Accounting.CompleteJob | accounting_storage_mysql.c:10726-10755 | the UPDATE refines `Suspend.Complete`, written out, and the law of all jobs holds afterwards if and only if the job does not end while suspended |
| Suspend.Accounting.FlushJobs | accounting_storage_mysql.c:11156-11204 | the ids read first and the statements after refine `Suspend.Flush`, written out, and keep the law of all jobs |
| Suspend.Perform | accounting_storage_mysql.c:10678-11204 | the methods, called as the events of such a history, keep the law |
| NodeEvents.SoundMeans | accounting_storage_mysql.c:10091-10113 | the invariant means at most one open period for a node, and periods that do not overlap |
| NodeEvents.NodeDownKeepsIff | accounting_storage_mysql.c:10091-10113 | `node_down` keeps a node's periods apart exactly when nothing of the node is recorded after the new event, a duplicate key reopening its row included |
| NodeEvents.NodeUpKeepsIff | accounting_storage_mysql.c:10118-10140 | `node_up` keeps them apart exactly when no open period of the node starts after it |
| NodeEvents.ClusterProcsKeepsIff | accounting_storage_mysql.c:10189-10285 | `cluster_procs`, branch by branch and for whichever row its query returns, keeps all periods of the cluster apart exactly when, where it closes rows, none of them starts after it, and, where it adds a row, no size is recorded after it |
| NodeEvents.LateDownFails | accounting_storage_mysql.c:10091-10113 | down at 20, then down at 10 |
| NodeEvents.LateUpFails | accounting_storage_mysql.c:10118-10140 | down at 20, then up at 10 |
| NodeEvents.LateSizeFails | accounting_storage_mysql.c:10189-10285 | four CPUs from 20 on, then eight from 10 on |
| NodeEvents.RunKeepsPeriodsApart | accounting_storage_mysql.c:10091-10285 | every interleaving of node_down, node_up and cluster_procs with times that do not go back leaves at most one open period for a node, and none that overlap |
| NodeEvents.NodeDownIs | accounting_storage_mysql.c:10091-10113 | the open rows of the node end at the time and it has an open row from then on with the CPUs given, a row there before keeping its own; every other row is unchanged |
| NodeEvents.NodeUpIs | accounting_storage_mysql.c:10129-10134 | the open rows of the node end at the time; every other row, of this or another node or cluster, is unchanged |
| NodeEvents.SizeIs | accounting_storage_mysql.c:10189-10285 | branch by branch which rows of the cluster end, what is stored for the new size, and that all other rows are unchanged |
| NodeEvents.EventTable.MarkNodeDown | accounting_storage_mysql.c:10091-10113 | the UPDATE and the INSERT with its duplicate-key branch refine `NodeEvents.NodeDown`, written out row by row, and keep the invariant |
| NodeEvents.EventTable.MarkNodeUp | accounting_storage_mysql.c:10129-10134 | closing the open rows of one node, written out row by row, keeps the invariant |
| NodeEvents.EventTable.SetClusterProcs | accounting_storage_mysql.c:10189-10285 | all branches, whichever open row the query returns, refine `NodeEvents.ClusterProcs`, written out row by row, and keep the invariant |
| HostStrip.TrimmedIff | hostlist.py:212-215 | stripping gives the one part of a text with only white space around it and none at its ends |
| HostStrip.ForbiddenIff | hostlist.py:213-220 | stripping takes no bracket and no comma away, so a host is refused exactly when it holds one |
| HostText.FmtOfValue | hostlist.py:351-357 | reading a string of digits and printing it at its own width gives it back |
| HostText.CutIsUnique | hostlist.py:253-259 | a tail that starts with a digit is fixed by its number of digit runs |
| HostText.SplitOfJoin | hostlist.py:144-151 | splitting at commas undoes joining with commas |
| HostExpand.ExpandRange | hostlist.py:154-180 | the loop gives the range at the width of its low end, or one of the three errors |
| HostExpand.ExpandRangelist | hostlist.py:144-151 | the ranges one after the other, the first error winning |
| HostExpand.RangeSpecIs | hostlist.py:154-180 | a range is refused exactly when it has no meaning or too many strings |
| HostExpand.BalancedSplit | hostlist.py:117-122 | in a balanced part the prefix is plain, the bracket behind it is closed, and the rest is balanced, so the recursion stays within such parts |
| HostExpand.ExpandPartIs | hostlist.py:108-141 | a part expands, in order, to its meaning (the product of its brackets), which is never empty, exactly when it has one of at most MAX_SIZE strings; otherwise BadHostlist |
| HostExpand.DenoteJoin | hostlist.py:108-141 | the meaning of two parts put together is the product of their meanings |
| HostExpand.DedupIs | hostlist.py:183-190 | the same elements, none twice, and nothing changes in a list without duplicates |
| HostExpand.RemoveDuplicates | hostlist.py:183-190 | the loop over `seen` keeps exactly the first occurrences in order |
| HostExpand.ExpandHostlist | hostlist.py:64-105 | the character loop, with its error on nested or unbalanced brackets, refines `HostExpand.ExpandSpec` |
| HostParts.ExpandSpecIs | hostlist.py:64-105 | for every string without a line break: it expands exactly when brackets neither nest nor are unbalanced and every part between top-level commas, unless it is empty, has a meaning of at most MAX_SIZE strings; then the result is those meanings in order |
| HostExpand.ExpandOfJoin | hostlist.py:64-105 | an expression joined from balanced parts expands to the expansions of the parts |
| HostSort.SortIs | hostlist.py:276-280 | sorting gives an ordered permutation |
| HostSort.GroupsTogether | hostlist.py:280-294 | in the sorted list the entries with one prefix and suffix stand together |
| HostCollect.CutIs | hostlist.py:253-274 | the regular expression cuts at the last number, and there is only one such cut |
| HostCollect.NumberTextDenotes | hostlist.py:331-341 | the text of the collected ranges means their numbers, in front of what the suffix means |
| HostRound.NoCrossing | hostlist.py:316-322 | a host name made of one group's prefix, any number and its suffix belongs to that group if it is there at all: a scan never takes a host of another group |
| HostRound.CollectedPair | hostlist.py:327-341 | the pair made from a group stands for exactly the hosts taken, without duplicates, and keeps the shape the next round relies on |
| HostLoop.ScanRange | hostlist.py:314-325 | the scan removes an unbroken range of hosts, all of which were there, and stops at the first that is not |
| HostLoop.CollectGroup | hostlist.py:300-325 | a group's range list is never empty and its hosts are all gone afterwards |
| HostLoop.CollectOnce | hostlist.py:234-348 | one round: `remaining` ends empty, the results stand for the same hosts and apart from each other, and as long as another round is needed every left part has lost a number |
| HostRoundTrip.RoundsEnd | hostlist.py:227-230 | the largest number of digit runs in a left part falls every round, so the rounds end |
| HostRoundTrip.WantedIff | hostlist.py:200-225 | a host is wanted exactly when it is not empty, holds no bracket and no comma, and is what stripping leaves of an entry |
| HostRoundTrip.CollectHostlist | hostlist.py:195-231 | fails exactly on forbidden characters unless these are discarded; otherwise returns parts, apart from each other and without duplicates, that stand for exactly the hosts wanted |
| HostRoundTrip.RoundTrip | hostlist.py:64-348 | expanding a collected expression gives every wanted host exactly once, even when duplicates are kept, and can fail only when a part stands for more than MAX_SIZE hosts |
| HostRoundTrip.ExpandedArePlain | hostlist.py:108-141 | no expanded host contains a bracket, a comma or a line break, so it can be collected |
| HostRoundTrip.PdCollectHosts | hostlist.py:429-453 | fails exactly when some argument does not expand; otherwise the result stands for exactly the union of the arguments, in whatever order the union is sorted |
| EventMerge.MergeKeepsTotal | EventImporterSlurm.py:555-565 | one merge conserves the total duration for every node and type |
| EventMerge.MergeKeepsCover | EventImporterSlurm.py:555-565 | one merge never covers new time, and conserves the time covered when the point the two events meet at lies between the start of the one and the end of the other |
| EventMerge.PairKeepsCoverIff | EventImporterSlurm.py:555-565 | for two events that meet this condition is exact |
| EventMerge.CoverIsLost | EventImporterSlurm.py:461-474 | 10..20 followed by an open event stored as 20..5 merges to 10..5, and time 12 is lost |
| EventMerge.MergeSuccessiveEvents | EventImporterSlurm.py:512-566 | the loops terminate; what is left are events of the input in their order with their starts; total time is conserved for every node and type, no time is newly covered, and covered time is conserved for every node and type without an event that ends before it starts; no later event starts where an earlier one of its node and type ends, and a list of which that holds is left as it is |
| EventMerge.StartsStaySorted | EventImporterSlurm.py:512-566 | a list in the order of its starts stays so |
| Agglutinate.AllenIs | EventImporterSlurm.py:637-662 | for any two intervals the relation found is the one of Allen's that holds, and none is found exactly for intervals out of order that overlap |
| Agglutinate.RelatedWhenLoaded | EventImporterSlurm.py:806-814 | what comes in beside a row is the relation that holds between it and the next one |
| Agglutinate.LongEnoughAll | EventImporterSlurm.py:806-808 | every event long enough is kept as often as it came, and no other |
| Agglutinate.AllenIsTotal | EventImporterSlurm.py:637-662 | between intervals sorted by start and end one of the relations always holds, and it is "precedes" exactly when there is a gap |
| Agglutinate.BreakIsClear | EventImporterSlurm.py:747-765 | a row is not joined with the next exactly when it ends before it by at least the lag |
| Agglutinate.Frame.constructor | EventImporterSlurm.py:806-814 | short events are left out, and every row but the last gets the next start and the relation to it |
| Agglutinate.LongEnoughSorted | EventImporterSlurm.py:806-808 | leaving out short events keeps the rows sorted |
| Agglutinate.Frame.Agglutinate | EventImporterSlurm.py:733-778 | the in-place edit leaves, at the index of every chain's last row, the hull of the chain, and nothing else |
| Agglutinate.RowsAreCovered | EventImporterSlurm.py:766-778 | every input row lies in the hull of its chain and in the chain of no other hull |
| Agglutinate.HullsAreSorted | EventImporterSlurm.py:766-778 | the hulls come in the order of their starts, each starting with its first row |
| Agglutinate.SeparatedIff | EventImporterSlurm.py:733-778 | the hulls lie apart by the lag exactly when no earlier row reaches over a gap found behind a later one |
| Agglutinate.EndsInOrder | EventImporterSlurm.py:733-778 | in particular when the ends do not decrease |
| Agglutinate.ContainedIsMissed | EventImporterSlurm.py:733-778 | an input for which they do not lie apart |
| GroupFile.DecodeEncode | compat_pwdgrp.c:390-395 | the bytes stored for a pointer read back as that pointer |
| GroupLine.SplitOfJoin | compat_pwdgrp.c:355-375 | a list of names without commas is read back from its comma-separated form |
| GroupLine.PiecesAre | compat_pwdgrp.c:360-375 | the piece behind each comma is the text up to the next comma or the end |
| GroupLine.GoodMembersIff | compat_pwdgrp.c:361-374 | no member is empty or starts with white space exactly when every comma is followed by a character that is neither a comma nor white space |
| GroupText.ValueOfDigits | compat_pwdgrp.c:339 | a number printed in decimal, by division and remainder, is read back as that number |
| GroupText.EveryNumeral | compat_pwdgrp.c:339 | every text of digits is a number printed so, behind some zeros |
| GroupText.ReadsNumber | compat_pwdgrp.c:339-347 | behind white space and one sign the number is read up to its last digit: negated modulo 2^64, and 2^64 - 1 when it is larger |
| GroupText.ReadsNothing | compat_pwdgrp.c:339-350 | without a digit there the number is 0 and nothing is read |
| GroupText.EntryOfLine | compat_pwdgrp.c:318-375 | the line written from a name, a password, a number and members reads as exactly these, the number modulo 2^32, when members are not empty and do not start with white space |
| GroupText.GroupNumberIs | compat_pwdgrp.c:339-350 | the number of a group printed in decimal is read as that number |
| GroupFile.SameNumber | compat_pwdgrp.c:339-350 | a number read in the buffer, NULs and all, is the number of the line |
| GroupFile.CountMembers | compat_pwdgrp.c:352-375 | the do-while loop accepts exactly lists of good members, counts them plus one, and overwrites exactly the commas and the colon |
| GroupFile.FillTable | compat_pwdgrp.c:387-394 | the pointers stored are those to the characters behind the commas, in order, and no byte outside the table changes |
| GroupFile.MembersStand | compat_pwdgrp.c:377-395 | aligned, inside the buffer, behind all member text, one entry a member in order, each at unchanged text that ends with a NUL, and NULL last |
| GroupFile.GroupEntry.Parse | compat_pwdgrp.c:318-403 | succeeds exactly when the line is well formed and the table fits; then name, password, number and members are those of the line, the texts and the table standing in the buffer as above |

## Left out

- SQL itself: connections, query text, errors of statements, transaction logging, the update lists sent to the controller. A rollback gives back the rows a call started with; what an earlier call on the same connection left uncommitted is not modelled.
- Row ids: a row is named by its unique key (cluster, account, user, partition), so an id and its row come and go together.
- Text comparison in the database: case-insensitive names and the prefix lengths of the indexes; names are compared exactly.
- Columns the tree does not look at are carried as data; only the six limits of a job, the qos strings and the creation time are told apart. Shares and group limits, and the default qos a new account gets, are not modelled: what an item gives is a parameter.
- TreeItems.AddItemCorrect: items without a cluster or an account, which the loop skips.
- AssocTable.AssociationTable.AddAssociations: asks of its caller that the list is allowed item by item (`TreeItems.ItemsOk`), in terms of names and links. What the tree needs is exact item by item (`TreeItems.ReviveKeepsTreeIff`, `TreePending.TreatedKeepsTreeIff`, `TreePending.NewRowKeepsTreeIff`), up to the next flush; `ItemsOk` refuses a little more, where nothing moves by a coincidence of numbers only: the plain way would move the row then, and the two tables differ.
- AssocTable.AssociationTable.AddClusterRow: the branch that leaves a cluster alone when the INSERT into the cluster table changed nothing.
- AssocTable.AssociationTable.RemoveAssociations: the comment in the source says all limits are cleared; the statement clears four of them, and the model does as the statement does. The usage tables and the query that selects the rows are parameters.
- AssocTable.AssociationTable.ModifyParents: the rows are selected by a parameter; limits and the rights of coordinators are left out. In the runs of `TreeRuns` an account is moved one call at a time.
- Editing qos lists, in particular with SQL `replace`, and the qos part of `_modify_unset_users`.
- Limits.GetAssociations: the flags that leave out parent information or parent limits. Strings are sorted character by character, not by a collation.
- LimitPush.ModifyUnsetUsers: the list of users told is modelled, not the update list beside it, which is left empty after a move.
- RollupRuns.RunStaysCovered: failing rollups, and a last-ran table without a row. Local time is any three floors of which hours have 3600 seconds and days and months are made of whole hours and days.
- HourUsage.HourSecondsAreCounted: the column of a cluster is taken to be registered for the whole hour; the columns filled from events and reservations, the division of unused reservations, and the amounts (seconds times CPUs) are left out, a job being booked for whom it is booked and with how many CPUs. That a job suspended through an hour skips its reserved time there is in the seconds computed, but not in the seconds counted, from which the stale hours are taken.
- Rollup.NewsKeepsFitIff: a job row is named by its database index; the query for known times looks at the job's own row. Suspensions are added to a row when they end.
- Suspend.HistoryKeepsLaw: step rows, which the flush also changes when they are finished.
- NodeEvents.EventTable.SetClusterProcs: a missing node list is stored as the empty text; what the formatting of a null pointer stores is not modelled.
- HostExpand.ExpandHostlist: line breaks in expressions (the regular expressions stop there), sorting of the result, and the texts of the errors.
- HostRoundTrip.PdCollectHosts: the argument "-" (standard input), and an empty argument list, on which the union is an error.
- HostRoundTrip.CollectHostlist: white space other than the six ASCII characters. Hosts with a line break inside. With a digit behind it the regular expression does not match, which is an error; without one it does, but the text collected loses what is behind the line break when it is expanded.
- EventMerge.MergeSuccessiveEvents: events are values, so one object listed twice is not modelled; neither are events without an end.
- Agglutinate.Frame.Agglutinate: columns other than the interval, the next start and the relation; missing values other than those of the last row.
- GroupFile.GroupEntry.Parse: what the fields hold after a failure. `strtoul` is taken from the C standard with 64 bits; reading lines from the file, and the password parser, a simpler relative without a table.
- The other tools of the repository: network clients, option handling, printing, declarations, log scripts.
