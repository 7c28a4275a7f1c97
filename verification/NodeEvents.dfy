/** Periods in which a node was down, or a cluster had a size: opened and closed in the event table. */
module NodeEvents {
  import opened Wrappers

  /** The primary key of the event table; node "" stands for the cluster itself. */
  datatype EventKey = EventKey(node: string, cluster: string, start: int)

  /** end is 0 while the period is open. */
  datatype Event = Event(end: int, cpus: int, clusterNodes: string)

  type Table = map<EventKey, Event>

  // ----- the statements -----

  /** `update ... set period_end=time where cluster=... and period_end=0 and node_name=...`. */
  function CloseNode(t: Table, cluster: string, node: string, time: int): Table {
    map k <- t :: if k.cluster == cluster && k.node == node && t[k].end == 0 then t[k].(end := time) else t[k]
  }

  function CloseCluster(t: Table, cluster: string, time: int): Table {
    map k <- t :: if k.cluster == cluster && t[k].end == 0 then t[k].(end := time) else t[k]
  }

  /** `insert ... on duplicate key update period_end=0`. */
  function OpenOrReopen(t: Table, k: EventKey, cpus: int): Table {
    t[k := if k in t then t[k].(end := 0) else Event(0, cpus, "")]
  }

  /** `clusteracct_storage_p_node_down`. */
  function NodeDown(t: Table, cluster: string, node: string, cpus: int, time: int): Table {
    OpenOrReopen(CloseNode(t, cluster, node, time), EventKey(node, cluster, time), cpus)
  }

  predicate IsOpenSize(t: Table, k: EventKey, cluster: string) {
    k in t && k.cluster == cluster && k.node == "" && t[k].end == 0
  }

  /** The row `limit 1` returns, when there is one. */
  ghost predicate Chosen(t: Table, cluster: string, row: Option<EventKey>) {
    match row
    case None => forall k <- t :: !(k.cluster == cluster && k.node == "" && t[k].end == 0)
    case Some(k) => k in t && k.cluster == cluster && k.node == "" && t[k].end == 0
  }

  /** The plain insert: an error when the key is there already. */
  function InsertSize(t: Table, cluster: string, nodes: string, procs: int, time: int): Table {
    var k := EventKey("", cluster, time);
    if k in t then t else t[k := Event(0, procs, nodes)]
  }

  /** `clusteracct_storage_p_cluster_procs`, given the row its query returned. */
  function ClusterProcs(t: Table, cluster: string, nodes: Option<string>, procs: int, time: int,
                        row: Option<EventKey>): Table
    requires row.Some? ==> row.value in t
  {
    var text := if nodes.Some? then nodes.value else "";
    if row.None? then InsertSize(t, cluster, text, procs, time)
    else if t[row.value].cpus == procs && nodes.None? then t
    else if t[row.value].cpus == procs && t[row.value].clusterNodes == "" then
      map k <- t :: if IsOpenSize(t, k, cluster) then t[k].(clusterNodes := nodes.value) else t[k]
    else if t[row.value].cpus == procs && t[row.value].clusterNodes == nodes.value then t
    else InsertSize(CloseCluster(t, cluster, time), cluster, text, procs, time)
  }

  // ----- what holds -----

  /** The earlier period is closed no later than the later one starts. */
  predicate Before(t: Table, a: EventKey, b: EventKey)
    requires a in t && b in t
  {
    t[a].end != 0 && t[a].end <= b.start
  }

  predicate SameNode(a: EventKey, b: EventKey) {
    a.node == b.node && a.cluster == b.cluster
  }

  /** Periods of one node follow each other, so at most the last is open. */
  ghost predicate NodeSound(t: Table, cluster: string, node: string) {
    && (forall k <- t :: k.cluster == cluster && k.node == node && t[k].end != 0 ==> k.start <= t[k].end)
    && (forall a, b {:trigger Before(t, a, b)} ::
          a in t && b in t && SameNode(a, b) && a.cluster == cluster && a.node == node && a.start < b.start ==>
            Before(t, a, b))
  }

  ghost predicate AllSound(t: Table, clock: int) {
    && (forall cluster, node {:trigger NodeSound(t, cluster, node)} :: NodeSound(t, cluster, node))
    && (forall k <- t :: k.start <= clock && t[k].end <= clock)
  }

  predicate InPeriod(t: Table, k: EventKey, x: int)
    requires k in t
  {
    k.start <= x && (t[k].end == 0 || x < t[k].end)
  }

  /** The law in the words of the event table: one open row at most, and no two periods overlap. */
  lemma SoundMeans(t: Table, a: EventKey, b: EventKey)
    requires NodeSound(t, a.cluster, a.node) && a in t && b in t && SameNode(a, b) && a != b
    ensures t[a].end != 0 || t[b].end != 0
    ensures forall x :: !(InPeriod(t, a, x) && InPeriod(t, b, x))
  {
    assert a.start != b.start;
    assert a.start < b.start ==> Before(t, a, b);
    assert b.start < a.start ==> Before(t, b, a);
  }

  /** What a caller has to see to: nothing of the node is recorded after the new event. */
  ghost predicate NotBefore(t: Table, cluster: string, node: string, time: int) {
    forall k <- t :: k.cluster == cluster && k.node == node ==> k.start <= time && (k.start < time ==> t[k].end <= time)
  }

  lemma NodeDownKeeps(t: Table, cluster: string, node: string, cpus: int, time: int)
    requires NodeSound(t, cluster, node) && 0 < time && NotBefore(t, cluster, node, time)
    ensures NodeSound(NodeDown(t, cluster, node, cpus, time), cluster, node)
  {
    var u := NodeDown(t, cluster, node, cpus, time);
    forall a, b | a in u && b in u && SameNode(a, b) && a.cluster == cluster && a.node == node && a.start < b.start
      ensures Before(u, a, b)
    {
      if b in t {
        assert Before(t, a, b);
      }
    }
  }

  /** `node_down` keeps the periods of its node apart exactly when it does not come before what is
      recorded for the node, a row with its very start time being opened again. */
  lemma NodeDownKeepsIff(t: Table, cluster: string, node: string, cpus: int, time: int)
    requires NodeSound(t, cluster, node) && 0 < time
    ensures NodeSound(NodeDown(t, cluster, node, cpus, time), cluster, node) <==> NotBefore(t, cluster, node, time)
  {
    var u := NodeDown(t, cluster, node, cpus, time);
    var now := EventKey(node, cluster, time);
    if NotBefore(t, cluster, node, time) {
      NodeDownKeeps(t, cluster, node, cpus, time);
    } else {
      var k :| k in t && k.cluster == cluster && k.node == node &&
        !(k.start <= time && (k.start < time ==> t[k].end <= time));
      assert k.start < time ==> !Before(u, k, now);
      assert time < k.start ==> !Before(u, now, k);
    }
  }

  /** No open row of the node, or of the cluster, starts after the event. */
  ghost predicate NodeOpenBefore(t: Table, cluster: string, node: string, time: int) {
    forall k <- t :: k.cluster == cluster && k.node == node && t[k].end == 0 ==> k.start <= time
  }

  /** `node_up` keeps the periods apart exactly when it does not come before the start of an open one. */
  lemma NodeUpKeepsIff(t: Table, cluster: string, node: string, time: int)
    requires NodeSound(t, cluster, node) && 0 < time
    ensures NodeSound(CloseNode(t, cluster, node, time), cluster, node) <==> NodeOpenBefore(t, cluster, node, time)
  {
    var u := CloseNode(t, cluster, node, time);
    if NodeOpenBefore(t, cluster, node, time) {
      forall a, b | a in u && b in u && SameNode(a, b) && a.cluster == cluster && a.node == node && a.start < b.start
        ensures Before(u, a, b)
      {
        assert Before(t, a, b);
      }
    }
  }

  ghost predicate ClusterSound(t: Table, cluster: string) {
    forall node {:trigger NodeSound(t, cluster, node)} :: NodeSound(t, cluster, node)
  }

  ghost predicate OpenBefore(t: Table, cluster: string, time: int) {
    forall k <- t :: k.cluster == cluster && t[k].end == 0 ==> k.start <= time
  }

  lemma CloseClusterIsCloseNode(t: Table, cluster: string, node: string, time: int)
    ensures NodeSound(CloseCluster(t, cluster, time), cluster, node) <==>
      NodeSound(CloseNode(t, cluster, node, time), cluster, node)
  {
    var u, v := CloseCluster(t, cluster, time), CloseNode(t, cluster, node, time);
    forall a, b | a in t && b in t && SameNode(a, b) && a.cluster == cluster && a.node == node
      ensures Before(u, a, b) <==> Before(v, a, b)
    {
    }
  }

  lemma CloseClusterKeepsIff(t: Table, cluster: string, time: int)
    requires ClusterSound(t, cluster) && 0 < time
    ensures ClusterSound(CloseCluster(t, cluster, time), cluster) <==> OpenBefore(t, cluster, time)
  {
    var u := CloseCluster(t, cluster, time);
    forall node
      ensures NodeSound(u, cluster, node) <==> NodeOpenBefore(t, cluster, node, time)
    {
      assert NodeSound(t, cluster, node);
      NodeUpKeepsIff(t, cluster, node, time);
      CloseClusterIsCloseNode(t, cluster, node, time);
    }
    if ClusterSound(u, cluster) {
      forall k <- t | k.cluster == cluster && t[k].end == 0
        ensures k.start <= time
      {
        assert NodeSound(u, cluster, k.node);
      }
    }
  }

  /** A new size row fits exactly when nothing of the cluster's size is recorded after it. */
  lemma InsertKeepsIff(t: Table, cluster: string, nodes: string, procs: int, time: int)
    requires ClusterSound(t, cluster) && 0 < time && forall k <- t :: !IsOpenSize(t, k, cluster)
    ensures ClusterSound(InsertSize(t, cluster, nodes, procs, time), cluster) <==>
      EventKey("", cluster, time) in t || NotBefore(t, cluster, "", time)
  {
    var now, u := EventKey("", cluster, time), InsertSize(t, cluster, nodes, procs, time);
    if now !in t {
      assert NodeSound(t, cluster, "");
      if NotBefore(t, cluster, "", time) {
        forall node
          ensures NodeSound(u, cluster, node)
        {
          assert NodeSound(t, cluster, node);
          forall a, b | a in u && b in u && SameNode(a, b) && a.cluster == cluster && a.node == node &&
            a.start < b.start
            ensures Before(u, a, b)
          {
            if a in t && b in t {
              assert Before(t, a, b);
            }
          }
        }
      } else {
        var k :| k in t && k.cluster == cluster && k.node == "" &&
          !(k.start <= time && (k.start < time ==> t[k].end <= time));
        assert k.start < time ==> !Before(u, k, now);
        assert time < k.start ==> !Before(u, now, k);
        assert NodeSound(u, cluster, "") ==> false;
      }
    }
  }

  /** What a caller of `cluster_procs` has to see to, by the branch the recorded size leads to. */
  ghost predicate SizeInOrder(t: Table, cluster: string, nodes: Option<string>, procs: int, time: int,
                              row: Option<EventKey>)
    requires row.Some? ==> row.value in t
  {
    var fits := EventKey("", cluster, time) in t || NotBefore(t, cluster, "", time);
    if row.None? then fits
    else if t[row.value].cpus == procs && (nodes.None? || t[row.value].clusterNodes in {"", nodes.value}) then true
    else OpenBefore(t, cluster, time) && fits
  }

  lemma ClosedFits(t: Table, cluster: string, time: int)
    requires 0 < time && OpenBefore(t, cluster, time)
    ensures NotBefore(CloseCluster(t, cluster, time), cluster, "", time) <==> NotBefore(t, cluster, "", time)
    ensures forall k <- CloseCluster(t, cluster, time) :: !IsOpenSize(CloseCluster(t, cluster, time), k, cluster)
  {
  }

  lemma InsertedWasSound(t: Table, cluster: string, nodes: string, procs: int, time: int)
    requires ClusterSound(InsertSize(t, cluster, nodes, procs, time), cluster)
    ensures ClusterSound(t, cluster)
  {
    var u := InsertSize(t, cluster, nodes, procs, time);
    forall node
      ensures NodeSound(t, cluster, node)
    {
      assert NodeSound(u, cluster, node);
      forall a, b | a in t && b in t && SameNode(a, b) && a.cluster == cluster && a.node == node && a.start < b.start
        ensures Before(t, a, b)
      {
        assert Before(u, a, b);
      }
    }
  }

  lemma SameTimesSound(t: Table, u: Table, cluster: string)
    requires ClusterSound(t, cluster) && u.Keys == t.Keys && forall k <- t :: u[k].end == t[k].end
    ensures ClusterSound(u, cluster)
  {
    forall node
      ensures NodeSound(u, cluster, node)
    {
      assert NodeSound(t, cluster, node);
      forall a, b | a in u && b in u && SameNode(a, b) && a.cluster == cluster && a.node == node && a.start < b.start
        ensures Before(u, a, b)
      {
        assert Before(t, a, b);
      }
    }
  }

  /** `cluster_procs` keeps all periods of the cluster apart exactly then. */
  lemma ClusterProcsKeepsIff(t: Table, cluster: string, nodes: Option<string>, procs: int, time: int,
                             row: Option<EventKey>)
    requires ClusterSound(t, cluster) && 0 < time && Chosen(t, cluster, row)
    ensures ClusterSound(ClusterProcs(t, cluster, nodes, procs, time, row), cluster) <==>
      SizeInOrder(t, cluster, nodes, procs, time, row)
  {
    var text := if nodes.Some? then nodes.value else "";
    var u := ClusterProcs(t, cluster, nodes, procs, time, row);
    if row.None? {
      InsertKeepsIff(t, cluster, text, procs, time);
    } else if t[row.value].cpus == procs && (nodes.None? || t[row.value].clusterNodes in {"", nodes.value}) {
      SameTimesSound(t, u, cluster);
    } else {
      var closed := CloseCluster(t, cluster, time);
      CloseClusterKeepsIff(t, cluster, time);
      if OpenBefore(t, cluster, time) {
        ClosedFits(t, cluster, time);
        InsertKeepsIff(closed, cluster, text, procs, time);
      } else if ClusterSound(u, cluster) {
        InsertedWasSound(closed, cluster, text, procs, time);
      }
    }
  }

  lemma CloseNodeKeeps(t: Table, clock: int, cluster: string, node: string, time: int)
    requires AllSound(t, clock) && clock <= time && 0 < time
    ensures AllSound(CloseNode(t, cluster, node, time), time)
  {
    var u := CloseNode(t, cluster, node, time);
    forall c, n
      ensures NodeSound(u, c, n)
    {
      assert NodeSound(t, c, n);
      forall a, b | a in u && b in u && SameNode(a, b) && a.cluster == c && a.node == n && a.start < b.start
        ensures Before(u, a, b)
      {
        assert Before(t, a, b);
      }
    }
  }

  lemma CloseClusterKeeps(t: Table, clock: int, cluster: string, time: int)
    requires AllSound(t, clock) && clock <= time && 0 < time
    ensures AllSound(CloseCluster(t, cluster, time), time)
  {
    var u := CloseCluster(t, cluster, time);
    forall c, n
      ensures NodeSound(u, c, n)
    {
      assert NodeSound(t, c, n);
      forall a, b | a in u && b in u && SameNode(a, b) && a.cluster == c && a.node == n && a.start < b.start
        ensures Before(u, a, b)
      {
        assert Before(t, a, b);
      }
    }
  }

  lemma OpenKeeps(t: Table, clock: int, k: EventKey, e: Event)
    requires AllSound(t, clock) && k.start == clock && 0 < clock && e.end == 0
    requires forall a <- t :: SameNode(a, k) && a.start < k.start ==> t[a].end != 0
    ensures AllSound(t[k := e], clock)
  {
    var u := t[k := e];
    forall c, n
      ensures NodeSound(u, c, n)
    {
      assert NodeSound(t, c, n);
      forall a, b | a in u && b in u && SameNode(a, b) && a.cluster == c && a.node == n && a.start < b.start
        ensures Before(u, a, b)
      {
        assert a != k;
        if b != k {
          assert Before(t, a, b);
        }
      }
    }
  }

  lemma NoneOpenAfterClose(t: Table, k: EventKey, time: int)
    requires 0 < time
    ensures forall a <- CloseNode(t, k.cluster, k.node, time) :: SameNode(a, k) ==>
      CloseNode(t, k.cluster, k.node, time)[a].end != 0
    ensures forall a <- CloseCluster(t, k.cluster, time) :: SameNode(a, k) ==>
      CloseCluster(t, k.cluster, time)[a].end != 0
  {
  }

  lemma ClusterProcsKeeps(t: Table, clock: int, cluster: string, nodes: Option<string>, procs: int, time: int,
                          row: Option<EventKey>)
    requires AllSound(t, clock) && clock <= time && 0 < time && Chosen(t, cluster, row)
    ensures AllSound(ClusterProcs(t, cluster, nodes, procs, time, row), time)
  {
    var k := EventKey("", cluster, time);
    var u := ClusterProcs(t, cluster, nodes, procs, time, row);
    if row.None? {
      LaterClock(t, clock, time);
      if k !in t {
        forall a | a in t && SameNode(a, k) && a.start < k.start
          ensures t[a].end != 0
        {
          assert !IsOpenSize(t, a, cluster);
        }
        OpenKeeps(t, time, k, u[k]);
      }
    } else if t[row.value].cpus == procs && (nodes.None? || t[row.value].clusterNodes in {"", nodes.value}) {
      LaterClock(t, clock, time);
      SameTimes(t, u, time);
    } else {
      CloseClusterKeeps(t, clock, cluster, time);
      NoneOpenAfterClose(t, k, time);
      if k !in t {
        OpenKeeps(CloseCluster(t, cluster, time), time, k, u[k]);
      }
    }
  }

  lemma LaterClock(t: Table, clock: int, time: int)
    requires AllSound(t, clock) && clock <= time
    ensures AllSound(t, time)
  {
  }

  lemma SameTimes(t: Table, u: Table, clock: int)
    requires AllSound(t, clock) && u.Keys == t.Keys && forall k <- t :: u[k].end == t[k].end
    ensures AllSound(u, clock)
  {
    forall c, n
      ensures NodeSound(u, c, n)
    {
      assert NodeSound(t, c, n);
      forall a, b | a in u && b in u && SameNode(a, b) && a.cluster == c && a.node == n && a.start < b.start
        ensures Before(u, a, b)
      {
        assert Before(t, a, b);
      }
    }
  }

  // ----- events out of order -----

  /** A node goes down at 20 and then, by news that comes late, went down at 10: both rows are open. */
  lemma LateDownFails(cluster: string, node: string)
    ensures !NodeSound(NodeDown(NodeDown(map[], cluster, node, 4, 20), cluster, node, 4, 10), cluster, node)
  {
    var t := NodeDown(map[], cluster, node, 4, 20);
    var late, first := EventKey(node, cluster, 10), EventKey(node, cluster, 20);
    var u := NodeDown(t, cluster, node, 4, 10);
    assert first in u && u[late].end == 0;
    assert !Before(u, late, first);
  }

  /** A node goes down at 20 and comes up at 10: its period ends before it starts. */
  lemma LateUpFails(cluster: string, node: string)
    ensures !NodeSound(CloseNode(NodeDown(map[], cluster, node, 4, 20), cluster, node, 10), cluster, node)
  {
    var u := CloseNode(NodeDown(map[], cluster, node, 4, 20), cluster, node, 10);
    assert EventKey(node, cluster, 20) in u && u[EventKey(node, cluster, 20)].end == 10;
  }

  /** A cluster has 4 CPUs from 20 on and 8 from 10 on. */
  lemma LateSizeFails(cluster: string)
    ensures var t := ClusterProcs(map[], cluster, None, 4, 20, None);
      && Chosen(map[], cluster, None) && Chosen(t, cluster, Some(EventKey("", cluster, 20)))
      && !ClusterSound(ClusterProcs(t, cluster, None, 8, 10, Some(EventKey("", cluster, 20))), cluster)
  {
    var first := EventKey("", cluster, 20);
    var t := ClusterProcs(map[], cluster, None, 4, 20, None);
    var u := ClusterProcs(t, cluster, None, 8, 10, Some(first));
    assert first in u && u[first].end == 10;
    assert !NodeSound(u, cluster, "");
  }

  // ----- any interleaving -----

  datatype Call =
    | Down(cluster: string, node: string, cpus: int, time: int)
    | Up(cluster: string, node: string, time: int)
    | Procs(cluster: string, nodes: Option<string>, procs: int, time: int)

  ghost predicate Step(t: Table, c: Call, u: Table) {
    match c
    case Down(cluster, node, cpus, time) => u == NodeDown(t, cluster, node, cpus, time)
    case Up(cluster, node, time) => u == CloseNode(t, cluster, node, time)
    case Procs(cluster, nodes, procs, time) =>
      exists row :: Chosen(t, cluster, row) && u == ClusterProcs(t, cluster, nodes, procs, time, row)
  }

  lemma NodeDownKeepsAll(t: Table, clock: int, cluster: string, node: string, cpus: int, time: int)
    requires AllSound(t, clock) && clock <= time && 0 < time
    ensures AllSound(NodeDown(t, cluster, node, cpus, time), time)
  {
    var k := EventKey(node, cluster, time);
    CloseNodeKeeps(t, clock, cluster, node, time);
    NoneOpenAfterClose(t, k, time);
    var closed := CloseNode(t, cluster, node, time);
    OpenKeeps(closed, time, k, OpenOrReopen(closed, k, cpus)[k]);
  }

  lemma StepKeepsSound(t: Table, clock: int, c: Call, u: Table)
    requires AllSound(t, clock) && clock <= c.time && 0 < c.time && Step(t, c, u)
    ensures AllSound(u, c.time)
  {
    match c
    case Down(cluster, node, cpus, time) => NodeDownKeepsAll(t, clock, cluster, node, cpus, time);
    case Up(cluster, node, time) => CloseNodeKeeps(t, clock, cluster, node, time);
    case Procs(cluster, nodes, procs, time) =>
      var row :| Chosen(t, cluster, row) && u == ClusterProcs(t, cluster, nodes, procs, time, row);
      ClusterProcsKeeps(t, clock, cluster, nodes, procs, time, row);
  }

  /** `tables` are the states a run of calls goes through. */
  ghost predicate IsRun(tables: seq<Table>, calls: seq<Call>, clock: int) {
    && |tables| == |calls| + 1
    && (forall i :: 0 <= i < |calls| ==> Step(tables[i], calls[i], tables[i + 1]))
    && (forall i :: 0 <= i < |calls| ==> 0 < calls[i].time && clock <= calls[i].time)
    && (forall i, j :: 0 <= i < j < |calls| ==> calls[i].time <= calls[j].time)
  }

  /** Whatever the order of the calls, as long as their times do not go back, a node has at most one
      open period in the end, and none of its periods overlap. */
  lemma {:induction false} RunKeepsPeriodsApart(tables: seq<Table>, calls: seq<Call>, clock: int, a: EventKey,
                                                b: EventKey)
    requires IsRun(tables, calls, clock) && AllSound(tables[0], clock)
    requires var t := tables[|calls|]; a in t && b in t && SameNode(a, b) && a != b
    ensures var t := tables[|calls|];
      && (t[a].end != 0 || t[b].end != 0)
      && forall x :: !(InPeriod(t, a, x) && InPeriod(t, b, x))
    decreases |calls|
  {
    if calls == [] {
      assert NodeSound(tables[0], a.cluster, a.node);
      SoundMeans(tables[0], a, b);
    } else {
      StepKeepsSound(tables[0], clock, calls[0], tables[1]);
      RunKeepsPeriodsApart(tables[1..], calls[1..], calls[0].time, a, b);
    }
  }

  // ----- what a call does, row by row -----

  /** The open period of the node, if any, ends at `time`; every other row is as it was. */
  ghost predicate Closed(t: Table, cluster: string, node: string, time: int, k: EventKey, now: Event)
    requires k in t
  {
    && now.cpus == t[k].cpus && now.clusterNodes == t[k].clusterNodes
    && now.end == (if k.cluster == cluster && k.node == node && t[k].end == 0 then time else t[k].end)
  }

  /** `node_up`. */
  ghost predicate NodeIsUp(t: Table, cluster: string, node: string, time: int, u: Table) {
    (forall k :: k in u <==> k in t) && forall k <- u :: Closed(t, cluster, node, time, k, u[k])
  }

  /** `node_down`: besides, a period of the node is open from `time` on; with the CPUs given unless the row
      was there. */
  ghost predicate NodeIsDown(t: Table, cluster: string, node: string, cpus: int, time: int, u: Table) {
    && (forall k :: k in u <==> k in t || (k.node == node && k.cluster == cluster && k.start == time))
    && forall k <- u ::
         if k.node == node && k.cluster == cluster && k.start == time then
           && u[k].end == 0
           && (if k in t then u[k].cpus == t[k].cpus && u[k].clusterNodes == t[k].clusterNodes
               else u[k].cpus == cpus && u[k].clusterNodes == "")
         else Closed(t, cluster, node, time, k, u[k])
  }

  lemma NodeUpIs(t: Table, cluster: string, node: string, time: int)
    ensures NodeIsUp(t, cluster, node, time, CloseNode(t, cluster, node, time))
  {
  }

  lemma NodeDownIs(t: Table, cluster: string, node: string, cpus: int, time: int)
    ensures NodeIsDown(t, cluster, node, cpus, time, NodeDown(t, cluster, node, cpus, time))
  {
    assert forall k: EventKey ::
      k == EventKey(node, cluster, time) <==> k.node == node && k.cluster == cluster && k.start == time;
  }

  /** The row of the new size is there from `time` on, with the CPUs and nodes given unless it was there. */
  ghost predicate SizeIsNew(t: Table, cluster: string, nodes: string, procs: int, time: int, k: EventKey, now: Event) {
    && k.node == "" && k.cluster == cluster && k.start == time && k !in t
    && now.end == 0 && now.cpus == procs && now.clusterNodes == nodes
  }

  /** `cluster_procs`, by what the recorded size `row` says.  The same size: open size rows without nodes get
      those given, or nothing happens.  None or another size: all open rows of the cluster end, in the second
      case, and a row of the new size comes in. */
  ghost predicate SizeIsSet(t: Table, cluster: string, nodes: Option<string>, procs: int, time: int,
                            row: Option<EventKey>, u: Table)
    requires row.Some? ==> row.value in t
  {
    var text := if nodes.Some? then nodes.value else "";
    if row.Some? && t[row.value].cpus == procs && (nodes.None? || t[row.value].clusterNodes == text != "") then u == t
    else if row.Some? && t[row.value].cpus == procs && t[row.value].clusterNodes == "" then
      && (forall k :: k in u <==> k in t)
      && forall k <- u ::
           u[k] == if k.cluster == cluster && k.node == "" && t[k].end == 0 then t[k].(clusterNodes := text) else t[k]
    else
      && (forall k :: k in u <==> k in t || (k.node == "" && k.cluster == cluster && k.start == time))
      && forall k <- u ::
           if k !in t then SizeIsNew(t, cluster, text, procs, time, k, u[k])
           else
             && u[k].cpus == t[k].cpus && u[k].clusterNodes == t[k].clusterNodes
             && u[k].end == (if row.Some? && k.cluster == cluster && t[k].end == 0 then time else t[k].end)
  }

  lemma SizeIs(t: Table, cluster: string, nodes: Option<string>, procs: int, time: int, row: Option<EventKey>)
    requires Chosen(t, cluster, row)
    ensures row.Some? ==> row.value in t
    ensures SizeIsSet(t, cluster, nodes, procs, time, row, ClusterProcs(t, cluster, nodes, procs, time, row))
  {
  }

  // ----- the calls as they change the table -----

  class EventTable {
    var rows: Table

    constructor ()
      ensures rows == map[]
    {
      rows := map[];
    }

    method MarkNodeDown(cluster: string, node: string, cpus: int, time: int, ghost clock: int)
      requires AllSound(rows, clock) && clock <= time && 0 < time
      modifies this
      ensures rows == NodeDown(old(rows), cluster, node, cpus, time) && AllSound(rows, time)
      ensures NodeIsDown(old(rows), cluster, node, cpus, time, rows)
    {
      NodeDownIs(rows, cluster, node, cpus, time);
      NodeDownKeepsAll(rows, clock, cluster, node, cpus, time);
      rows := CloseNode(rows, cluster, node, time);
      rows := OpenOrReopen(rows, EventKey(node, cluster, time), cpus);
    }

    method MarkNodeUp(cluster: string, node: string, time: int, ghost clock: int)
      requires AllSound(rows, clock) && clock <= time && 0 < time
      modifies this
      ensures rows == CloseNode(old(rows), cluster, node, time) && AllSound(rows, time)
      ensures NodeIsUp(old(rows), cluster, node, time, rows)
    {
      NodeUpIs(rows, cluster, node, time);
      CloseNodeKeeps(rows, clock, cluster, node, time);
      rows := CloseNode(rows, cluster, node, time);
    }

    method SetClusterProcs(cluster: string, nodes: Option<string>, procs: int, time: int, ghost clock: int)
      requires AllSound(rows, clock) && clock <= time && 0 < time
      modifies this
      ensures exists row ::
        && Chosen(old(rows), cluster, row) && rows == ClusterProcs(old(rows), cluster, nodes, procs, time, row)
        && SizeIsSet(old(rows), cluster, nodes, procs, time, row, rows)
      ensures AllSound(rows, time)
    {
      var open := set k <- rows | IsOpenSize(rows, k, cluster);
      var row: Option<EventKey> := None;
      var text := if nodes.Some? then nodes.value else "";
      if open != {} {
        var k :| k in open;
        row := Some(k);
      }
      assert Chosen(rows, cluster, row) by {
        assert forall k <- rows :: IsOpenSize(rows, k, cluster) ==> k in open;
      }
      ClusterProcsKeeps(rows, clock, cluster, nodes, procs, time, row);
      SizeIs(rows, cluster, nodes, procs, time, row);
      hide SizeIsSet;
      if row.Some? {
        var r := rows[row.value];
        if r.cpus == procs {
          if nodes.Some? {
            if r.clusterNodes == "" {
              rows := map k <- rows ::
                if IsOpenSize(rows, k, cluster) then rows[k].(clusterNodes := nodes.value) else rows[k];
              return;
            } else if nodes.value == r.clusterNodes {
              return;
            }
          } else {
            return;
          }
        }
        rows := CloseCluster(rows, cluster, time);
      }
      rows := InsertSize(rows, cluster, text, procs, time);
    }
  }
}
