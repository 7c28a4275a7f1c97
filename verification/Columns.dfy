/** The columns of `_setup_association_limits`: what an INSERT or an UPDATE writes, and what it leaves. */
module Columns {
  import opened Wrappers
  import opened NestedSet

  /** What a list of qos names amounts to: none writes, an empty list clears, and the first name tells a list
      of qos from one of changes. */
  datatype QosGiven = KeepQos | ClearQos | SetQos(qos: string) | SetDelta(deltaQos: string)

  /** The columns a caller gives.  A limit is a value, NULL, or not mentioned; `now` is the time of the call. */
  datatype Given = Given(limits: map<Limit, Option<int>>, qos: QosGiven, now: int)

  function WrittenLimits(was: map<Limit, int>, given: map<Limit, Option<int>>): map<Limit, int> {
    map l <- was.Keys + given.Keys | l !in given || given[l].Some? :: if l in given then given[l].value else was[l]
  }

  /** An UPDATE: only what is given is written, and the creation time is not. */
  function Updated(was: Info, g: Given): Info {
    var limited := was.(limits := WrittenLimits(was.limits, g.limits));
    match g.qos
    case KeepQos => limited
    case ClearQos => limited.(qos := "", deltaQos := "")
    case SetQos(qos) => limited.(qos := qos)
    case SetDelta(deltaQos) => limited.(deltaQos := deltaQos)
  }

  /** An INSERT: the rest are the defaults of the table. */
  function Inserted(g: Given): Info {
    Updated(Info(map[], "", "", g.now), g)
  }

  // ----- column by column -----

  ghost predicate LimitWritten(was: map<Limit, int>, given: map<Limit, Option<int>>, now: map<Limit, int>, l: Limit) {
    if l in given && given[l].Some? then l in now && now[l] == given[l].value
    else if l in given then l !in now
    else (l in now <==> l in was) && (l in now && l in was ==> now[l] == was[l])
  }

  /** What a row holds that had `was`: every limit and qos given, and for the rest what it held before. */
  ghost predicate Holds(was: Info, g: Given, now: Info) {
    && (forall l: Limit :: LimitWritten(was.limits, g.limits, now.limits, l))
    && now.qos == (if g.qos.SetQos? then g.qos.qos else if g.qos.ClearQos? then "" else was.qos)
    && now.deltaQos == (if g.qos.SetDelta? then g.qos.deltaQos else if g.qos.ClearQos? then "" else was.deltaQos)
    && now.created == was.created
  }

  /** A new row: nothing but what is given, created now. */
  ghost predicate NewHolds(g: Given, now: Info) {
    && (forall l: Limit :: l in now.limits <==> l in g.limits && g.limits[l].Some?)
    && (forall l <- now.limits :: now.limits[l] == g.limits[l].value)
    && now.qos == (if g.qos.SetQos? then g.qos.qos else "")
    && now.deltaQos == (if g.qos.SetDelta? then g.qos.deltaQos else "")
    && now.created == g.now
  }

  lemma UpdatedHolds(was: Info, g: Given)
    ensures Holds(was, g, Updated(was, g))
  {
    forall l: Limit
      ensures LimitWritten(was.limits, g.limits, Updated(was, g).limits, l)
    {
    }
  }

  lemma InsertedHolds(g: Given)
    ensures NewHolds(g, Inserted(g))
  {
  }
}
