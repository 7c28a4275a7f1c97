/** Merging successive events of a node: `merge_successive_events`. */
module EventMerge {

  datatype Event = Event(node: string, kind: string, start: int, end: int)

  /** The second event continues the first: same node, same kind, and it starts where the first ends. */
  predicate Continues(a: Event, b: Event) {
    b.node == a.node && b.start == a.end && b.kind == a.kind
  }

  // ----- the time events account for -----

  function Length(e: Event, node: string, kind: string): int {
    if e.node == node && e.kind == kind then e.end - e.start else 0
  }

  ghost function Total(events: seq<Event>, node: string, kind: string): int
    decreases |events|
  {
    if events == [] then 0 else Length(events[0], node, kind) + Total(events[1..], node, kind)
  }

  ghost predicate Covers(e: Event, node: string, kind: string, x: int) {
    e.node == node && e.kind == kind && e.start <= x < e.end
  }

  ghost predicate Covered(events: seq<Event>, node: string, kind: string, x: int) {
    exists i :: 0 <= i < |events| && Covers(events[i], node, kind, x)
  }

  lemma {:induction false} TotalJoin(a: seq<Event>, b: seq<Event>, node: string, kind: string)
    ensures Total(a + b, node, kind) == Total(a, node, kind) + Total(b, node, kind)
    decreases |a|
  {
    if a == [] {
      assert a + b == b;
    } else {
      assert (a + b)[1..] == a[1..] + b;
      TotalJoin(a[1..], b, node, kind);
    }
  }

  // ----- one merge -----

  /** Event `i` takes over the end of event `j`, which leaves the list. */
  function Merged(events: seq<Event>, i: nat, j: nat): seq<Event>
    requires i < j < |events|
  {
    events[..i] + [events[i].(end := events[j].end)] + events[i + 1..j] + events[j + 1..]
  }

  lemma MergeKeepsTotal(events: seq<Event>, i: nat, j: nat, node: string, kind: string)
    requires i < j < |events| && Continues(events[i], events[j])
    ensures Total(Merged(events, i, j), node, kind) == Total(events, node, kind)
  {
    var a, b, c := events[..i], events[i + 1..j], events[j + 1..];
    var e, f := events[i], events[j];
    assert events == a + [e] + b + [f] + c;
    TotalJoin(a + [e] + b + [f], c, node, kind);
    TotalJoin(a + [e] + b, [f], node, kind);
    TotalJoin(a + [e], b, node, kind);
    TotalJoin(a, [e], node, kind);
    TotalJoin(a + [e.(end := f.end)] + b, c, node, kind);
    TotalJoin(a + [e.(end := f.end)], b, node, kind);
    TotalJoin(a, [e.(end := f.end)], node, kind);
  }

  /** Where a place of the merged list was before. */
  function OldPlace(k: nat, j: nat): nat {
    if k < j then k else k + 1
  }

  lemma MergedAt(events: seq<Event>, i: nat, j: nat, k: nat)
    requires i < j < |events| && k < |events| - 1
    ensures |Merged(events, i, j)| == |events| - 1
    ensures Merged(events, i, j)[k] == if k == i then events[i].(end := events[j].end) else events[OldPlace(k, j)]
  {
  }

  /** What the two events cover, in terms of when they start, meet and end. */
  predicate KeepsCover(e: Event, f: Event) {
    e.start <= e.end <= f.end || f.end <= e.end <= e.start
  }

  lemma PairCovers(e: Event, f: Event, x: int)
    requires Continues(e, f)
    ensures e.start <= x < f.end ==> e.start <= x < e.end || f.start <= x < f.end
    ensures KeepsCover(e, f) ==> (e.start <= x < f.end <==> e.start <= x < e.end || f.start <= x < f.end)
  {
  }

  /** A merge of two events covers the time the two have covered exactly when the point they meet at lies
      between the start of the one and the end of the other; otherwise some of it is lost. */
  lemma PairKeepsCoverIff(e: Event, f: Event)
    requires Continues(e, f)
    ensures KeepsCover(e, f) <==>
      forall x {:trigger Covers(e, e.node, e.kind, x)} ::
        Covers(e.(end := f.end), e.node, e.kind, x) <==> Covers(e, e.node, e.kind, x) || Covers(f, e.node, e.kind, x)
  {
    var m := e.(end := f.end);
    if KeepsCover(e, f) {
      forall x
        ensures Covers(m, e.node, e.kind, x) <==> Covers(e, e.node, e.kind, x) || Covers(f, e.node, e.kind, x)
      {
        PairCovers(e, f, x);
      }
    } else {
      var x := if e.end < e.start then e.end else e.end - 1;
      assert Covers(e, e.node, e.kind, x) || Covers(f, e.node, e.kind, x);
      assert !Covers(m, e.node, e.kind, x);
    }
  }

  /** No merge covers new time, and one that keeps the cover of its pair keeps that of the list. */
  lemma MergeKeepsCover(events: seq<Event>, i: nat, j: nat, node: string, kind: string, x: int)
    requires i < j < |events| && Continues(events[i], events[j])
    ensures Covered(Merged(events, i, j), node, kind, x) ==> Covered(events, node, kind, x)
    ensures KeepsCover(events[i], events[j]) || events[i].node != node || events[i].kind != kind ==>
      (Covered(Merged(events, i, j), node, kind, x) <==> Covered(events, node, kind, x))
  {
    var m := Merged(events, i, j);
    MergedAt(events, i, j, i);
    PairCovers(events[i], events[j], x);
    if k :| 0 <= k < |m| && Covers(m[k], node, kind, x) {
      MergedAt(events, i, j, k);
      assert k == i ==> Covers(events[i], node, kind, x) || Covers(events[j], node, kind, x);
    }
    if k :| 0 <= k < |events| && Covers(events[k], node, kind, x) {
      if k == i || k == j {
        assert KeepsCover(events[i], events[j]) ==> Covers(m[i], node, kind, x);
      } else {
        var n := if k < j then k else k - 1;
        MergedAt(events, i, j, n);
        assert m[n] == events[k];
      }
    }
  }

  /** The loader gives an open event a fixed end, which may lie before its start: of 10..20 and 20..5 on the
      same node, 10..5 is left, and time 12 is covered no more. */
  lemma CoverIsLost(node: string, kind: string)
    ensures var events := [Event(node, kind, 10, 20), Event(node, kind, 20, 5)];
      && Continues(events[0], events[1])
      && Covered(events, node, kind, 12) && !Covered(Merged(events, 0, 1), node, kind, 12)
  {
    var events := [Event(node, kind, 10, 20), Event(node, kind, 20, 5)];
    assert Covers(events[0], node, kind, 12);
    MergedAt(events, 0, 1, 0);
  }

  // ----- the whole list -----

  /** The events of `now` are events of `before`, in the same order and with the same starts. */
  ghost predicate Kept(before: seq<Event>, now: seq<Event>, places: seq<nat>) {
    && |places| == |now|
    && (forall i, j :: 0 <= i < j < |places| ==> places[i] < places[j])
    && (forall i :: 0 <= i < |places| ==> places[i] < |before| && now[i] == before[places[i]].(end := now[i].end))
  }

  lemma KeptStart(input: seq<Event>)
    ensures Kept(input, input, seq(|input|, i => i))
  {
  }

  lemma KeptMerge(before: seq<Event>, now: seq<Event>, places: seq<nat>, i: nat, j: nat)
    requires Kept(before, now, places) && i < j < |now|
    ensures Kept(before, Merged(now, i, j), places[..j] + places[j + 1..])
  {
    var m, q := Merged(now, i, j), places[..j] + places[j + 1..];
    forall k | 0 <= k < |q|
      ensures q[k] < |before| && m[k] == before[q[k]].(end := m[k].end)
    {
      MergedAt(now, i, j, k);
      assert q[k] == places[OldPlace(k, j)];
    }
  }

  ghost predicate StartsSorted(events: seq<Event>) {
    forall i, j :: 0 <= i < j < |events| ==> events[i].start <= events[j].start
  }

  /** A list in the order of its starts stays in that order. */
  lemma StartsStaySorted(before: seq<Event>, now: seq<Event>, places: seq<nat>)
    requires Kept(before, now, places) && StartsSorted(before)
    ensures StartsSorted(now)
  {
    forall i, j | 0 <= i < j < |now|
      ensures now[i].start <= now[j].start
    {
      assert places[i] < places[j];
    }
  }

  /** No later event continues one of the first `n`. */
  ghost predicate DoneBefore(events: seq<Event>, n: nat) {
    forall a, b :: 0 <= a < b < |events| && a < n ==> !Continues(events[a], events[b])
  }

  lemma DoneAfterMerge(events: seq<Event>, i: nat, j: nat)
    requires i < j < |events| && DoneBefore(events, i)
    ensures DoneBefore(Merged(events, i, j), i)
  {
    var m := Merged(events, i, j);
    forall a, b | 0 <= a < b < |m| && a < i
      ensures !Continues(m[a], m[b])
    {
      MergedAt(events, i, j, a);
      MergedAt(events, i, j, b);
      assert !Continues(events[a], events[OldPlace(b, j)]);
    }
  }

  /** No event of the node and kind ends before it starts. */
  ghost predicate Forward(events: seq<Event>, node: string, kind: string) {
    forall i :: 0 <= i < |events| && events[i].node == node && events[i].kind == kind ==>
      events[i].start <= events[i].end
  }

  ghost predicate SameCover(input: seq<Event>, events: seq<Event>, node: string, kind: string) {
    forall x :: Covered(events, node, kind, x) <==> Covered(input, node, kind, x)
  }

  /** The same total for every node and kind; no new time covered; and the same time where all run forward. */
  ghost predicate SameTime(input: seq<Event>, events: seq<Event>) {
    && (forall node, kind :: Total(events, node, kind) == Total(input, node, kind))
    && (forall node, kind, x :: Covered(events, node, kind, x) ==> Covered(input, node, kind, x))
    && (forall node, kind :: Forward(input, node, kind) ==>
         Forward(events, node, kind) && SameCover(input, events, node, kind))
  }

  lemma SameTimeStart(input: seq<Event>)
    ensures SameTime(input, input)
  {
  }

  lemma SameTimeMerge(input: seq<Event>, events: seq<Event>, i: nat, j: nat)
    requires SameTime(input, events) && i < j < |events| && Continues(events[i], events[j])
    ensures SameTime(input, Merged(events, i, j))
  {
    var m := Merged(events, i, j);
    forall node, kind
      ensures Total(m, node, kind) == Total(input, node, kind)
    {
      MergeKeepsTotal(events, i, j, node, kind);
    }
    forall node, kind, x
      ensures Covered(m, node, kind, x) ==> Covered(input, node, kind, x)
    {
      MergeKeepsCover(events, i, j, node, kind, x);
    }
    forall node, kind | Forward(input, node, kind)
      ensures Forward(m, node, kind) && SameCover(input, m, node, kind)
    {
      ForwardMerge(events, i, j, node, kind);
      forall x
        ensures Covered(m, node, kind, x) <==> Covered(input, node, kind, x)
      {
        MergeKeepsCover(events, i, j, node, kind, x);
      }
    }
  }

  lemma ForwardMerge(events: seq<Event>, i: nat, j: nat, node: string, kind: string)
    requires i < j < |events| && Continues(events[i], events[j]) && Forward(events, node, kind)
    ensures Forward(Merged(events, i, j), node, kind)
    ensures events[i].node == node && events[i].kind == kind ==> KeepsCover(events[i], events[j])
  {
    var m := Merged(events, i, j);
    forall k | 0 <= k < |m| && m[k].node == node && m[k].kind == kind
      ensures m[k].start <= m[k].end
    {
      MergedAt(events, i, j, k);
    }
  }

  /** The first event takes over the end of the second, which is deleted. */
  method MergeInto(events: seq<Event>, i: nat, j: nat) returns (now: seq<Event>)
    requires i < j < |events|
    ensures now == Merged(events, i, j) && |now| == |events| - 1
  {
    now := events[i := events[i].(end := events[j].end)];
    now := now[..j] + now[j + 1..];
  }

  /** No later event starts where an earlier one of its node and kind ends. */
  ghost predicate NoneMeet(events: seq<Event>) {
    forall a, b :: 0 <= a < b < |events| && events[a].node == events[b].node && events[a].kind == events[b].kind ==>
      events[b].start != events[a].end
  }

  lemma NoneMeetIff(events: seq<Event>)
    ensures NoneMeet(events) <==> DoneBefore(events, |events|)
  {
  }

  lemma NoneToMerge(events: seq<Event>, i: nat, j: nat)
    requires i < j < |events| && Continues(events[i], events[j])
    ensures !NoneMeet(events)
  {
  }

  /** `merge_successive_events`. */
  method MergeSuccessiveEvents(input: seq<Event>) returns (events: seq<Event>, ghost places: seq<nat>)
    ensures Kept(input, events, places)
    ensures SameTime(input, events)
    ensures NoneMeet(events)
    ensures NoneMeet(input) ==> events == input
  {
    hide SameTime, Kept, Merged, NoneMeet;
    SameTimeStart(input);
    KeptStart(input);
    events := input;
    places := seq(|input|, i => i);
    var eventIndex, nbEvents := 0, |events|;
    while eventIndex < nbEvents - 1
      invariant nbEvents == |events| == |places| && 0 <= eventIndex <= nbEvents
      invariant Kept(input, events, places)
      invariant SameTime(input, events)
      invariant DoneBefore(events, eventIndex)
      invariant NoneMeet(input) ==> events == input
      decreases nbEvents - eventIndex
    {
      var next := eventIndex + 1;
      while next < nbEvents && !Continues(events[eventIndex], events[next])
        invariant eventIndex < next <= nbEvents
        invariant forall b :: eventIndex < b < next ==> !Continues(events[eventIndex], events[b])
      {
        next := next + 1;
      }
      if next == nbEvents {
        eventIndex := eventIndex + 1;
      } else {
        NoneToMerge(events, eventIndex, next);
        KeptMerge(input, events, places, eventIndex, next);
        DoneAfterMerge(events, eventIndex, next);
        SameTimeMerge(input, events, eventIndex, next);
        places := places[..next] + places[next + 1..];
        events := MergeInto(events, eventIndex, next);
        nbEvents := nbEvents - 1;
      }
    }
    NoneMeetIff(events);
  }
}
