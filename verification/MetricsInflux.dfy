/**
 The Influx output handler (metrics_influx.go): sensors accumulate in a context and
 a flush turns them into one point.
 */
module MetricsInflux {
  import opened Common
  import opened Telemetry
  import opened MetricsSpec
  import opened MetricsTrace

  /** A field value of a point; unsigned 64-bit sensors are converted to float64. */
  datatype PointValue = Native(v: Option<Value>) | Float64(of: nat)

  datatype PointField = PointField(key: string, val: PointValue)

  datatype Point = Point(name: string, tags: map<string, Option<Value>>, fields: map<string, PointValue>, nanos: int)

  datatype Pending = Pending(fields: Option<seq<PointField>>, points: seq<Point>)

  function Rewrite(v: Option<Value>): PointValue {
    if v.Some? && v.value.Uint64Value? then Float64(v.value.u64) else Native(v)
  }

  function ToInt64(x: int): int {
    (x + 0x8000_0000_0000_0000) % 0x1_0000_0000_0000_0000 - 0x8000_0000_0000_0000
  }

  function PointNanos(ts: nat): int {
    ToInt64(ToInt64(ToInt64(ts) * 1000) * 1000)
  }

  /** Later occurrences of a key replace earlier ones. */
  function LastFields(fields: seq<PointField>): map<string, PointValue> {
    if fields == [] then map[]
    else
      var n := |fields| - 1;
      LastFields(fields[..n])[fields[n].key := fields[n].val]
  }

  function LastTags(tags: seq<Atom>): map<string, Option<Value>> {
    if tags == [] then map[]
    else
      var n := |tags| - 1;
      LastTags(tags[..n])[tags[n].key := tags[n].val]
  }

  function MakePoint(name: string, tags: seq<Atom>, fields: seq<PointField>, ts: nat): Point {
    Point(name, LastTags(tags), LastFields(fields), PointNanos(ts))
  }

  /** The effect of one call on the context. */
  function Step(name: string, p: Pending, e: Event): Pending {
    match e
    case Build(_, sensor, _) =>
      p.(fields := Some((if p.fields.Some? then p.fields.value else []) + [PointField(sensor.key, Rewrite(sensor.val))]))
    case Flush(tags, ts) =>
      if p.fields.None? then p else Pending(None, p.points + [MakePoint(name, tags, p.fields.value, ts)])
    case Track(_, _, _) => p
  }

  function Fold(name: string, p: Pending, events: seq<Event>): Pending {
    if events == [] then p
    else
      var n := |events| - 1;
      Step(name, Fold(name, p, events[..n]), events[n])
  }

  lemma {:induction false} FoldAppend(name: string, p: Pending, e1: seq<Event>, e2: seq<Event>)
    ensures Fold(name, p, e1 + e2) == Fold(name, Fold(name, p, e1), e2)
    decreases |e2|
  {
    if e2 == [] {
      assert e1 + e2 == e1;
    } else {
      var n := |e2| - 1;
      assert (e1 + e2)[..|e1 + e2| - 1] == e1 + e2[..n];
      FoldAppend(name, p, e1, e2[..n]);
    }
  }

  /** The context handed to every buildMetric and flushMetric of one message. */
  class InfluxContext {
    const name: string
    var fields: Option<seq<PointField>>
    var points: seq<Point>
    ghost var log: seq<Event>

    /** The context is what the logged calls make of it; unfolded only where a proof asks for it. */
    ghost predicate Valid()
      reads this
    {
      forall now :: ValidHere(now)
    }

    ghost predicate ValidHere(now: bool)
      reads this
    {
      now ==> Pending(fields, points) == Fold(name, Pending(None, []), log)
    }

    constructor (name: string)
      ensures this.name == name && fields == None && points == [] && log == [] && Valid()
    {
      this.name, fields, points, log := name, None, [], [];
    }

    method BuildMetric(tags: seq<Atom>, sensor: Atom, ts: nat)
      requires Valid()
      modifies this
      ensures Valid() && log == old(log) + [Build(tags, sensor, ts)]
    {
      assert ValidHere(true);
      if fields.None? {
        fields := Some([]);
      }
      fields := Some(fields.value + [PointField(sensor.key, Rewrite(sensor.val))]);
      Record(Build(tags, sensor, ts), old(fields), old(points), log);
      log := log + [Build(tags, sensor, ts)];
      assert forall now :: ValidHere(now);
    }

    method FlushMetric(tags: seq<Atom>, ts: nat)
      requires Valid()
      modifies this
      ensures Valid() && log == old(log) + [Flush(tags, ts)]
      ensures fields == None && |points| == |old(points)| + (if old(fields).Some? then 1 else 0) && old(points) <= points
      ensures old(fields).Some? ==> FlushedPoint(name, tags, old(fields).value, ts, points[|old(points)|])
    {
      assert ValidHere(true);
      if fields.Some? {
        var fieldMap: map<string, PointValue> := map[];
        for i := 0 to |fields.value|
          invariant fieldMap == LastFields(fields.value[..i])
        {
          assert fields.value[..i + 1][..i] == fields.value[..i];
          fieldMap := fieldMap[fields.value[i].key := fields.value[i].val];
        }
        var tagMap: map<string, Option<Value>> := map[];
        for i := 0 to |tags|
          invariant tagMap == LastTags(tags[..i])
        {
          assert tags[..i + 1][..i] == tags[..i];
          tagMap := tagMap[tags[i].key := tags[i].val];
        }
        assert tags[..|tags|] == tags && fields.value[..|fields.value|] == fields.value;
        points := points + [Point(name, tagMap, fieldMap, PointNanos(ts))];
        Flushed(name, tags, fields.value, ts);
        fields := None;
      }
      Record(Flush(tags, ts), old(fields), old(points), log);
      log := log + [Flush(tags, ts)];
      assert forall now :: ValidHere(now);
    }

    /** A tracked sensor updates the statistics table, not the context. */
    ghost method TrackSensor(fqName: string, tags: seq<Atom>, ts: nat)
      requires Valid()
      modifies this`log
      ensures Valid() && log == old(log) + [Track(fqName, tags, ts)]
    {
      assert ValidHere(true);
      Record(Track(fqName, tags, ts), fields, points, log);
      log := log + [Track(fqName, tags, ts)];
      assert forall now :: ValidHere(now);
    }

    lemma Record(e: Event, f: Option<seq<PointField>>, ps: seq<Point>, events: seq<Event>)
      requires Pending(f, ps) == Fold(name, Pending(None, []), events)
      ensures Step(name, Pending(f, ps), e) == Fold(name, Pending(None, []), events + [e])
    {
      assert (events + [e])[..|events|] == events;
    }
  }

  // ---------------------------------------------------------------------------
  // Points of a whole walk

  /** One node visit: the tags it flushes with, its sensors with a value, and the flush timestamp. */
  datatype NodeVisit = NodeVisit(tags: seq<Atom>, sensors: seq<Atom>, ts: nat)

  function VisitSensors(a: Adapter, s: Spec, at: string, fields: seq<Field>, i: nat): seq<Atom>
    requires i <= |fields|
    decreases |fields| - i
  {
    if i == |fields| then [] else SensorAtoms(a, s, at, fields[i]) + VisitSensors(a, s, at, fields, i + 1)
  }

  ghost function OwnVisit(a: Adapter, s: Spec, at: string, fields: seq<Field>, ts: nat, tags: seq<Atom>): NodeVisit {
    NodeVisit(tags, VisitSensors(a, s, at, fields, 0), LastTs(s, fields, ts))
  }

  /** Every node visit of a walk, a node before its containers. */
  ghost function Visits(a: Adapter, s: Spec, at: string, fields: seq<Field>, ts: nat, tags: seq<Atom>): seq<NodeVisit>
    decreases s, |fields| + 1
  {
    var all := tags + CollectTags(a, s, at, fields, 0, TagTarget(s));
    [OwnVisit(a, s, at, fields, ts, all)] + ContainerVisits(a, s, at, fields, 0, ts, all)
  }

  ghost function ContainerVisits(a: Adapter, s: Spec, at: string, fields: seq<Field>, i: nat, ts: nat, tags: seq<Atom>): seq<NodeVisit>
    requires i <= |fields|
    decreases s, |fields| - i
  {
    if i == |fields| then []
    else ContainerVisit(a, s, at, fields[i], ts, tags) + ContainerVisits(a, s, at, fields, i + 1, ts, tags)
  }

  ghost function ContainerVisit(a: Adapter, s: Spec, at: string, f: Field, ts: nat, tags: seq<Atom>): seq<NodeVisit>
    decreases s, 0
  {
    var c := Child(s.fields, Container, f.name);
    if c.None? then []
    else Visits(a, c.value, Extend(at, c.value.name), Children(f), PickTs(f.timestamp, ts), tags)
  }

  function ToPointFields(sensors: seq<Atom>): seq<PointField> {
    seq(|sensors|, i requires 0 <= i < |sensors| => PointField(sensors[i].key, Rewrite(sensors[i].val)))
  }

  /** One point per visit that has at least one sensor value, and none for the others. */
  function PointsOf(name: string, visits: seq<NodeVisit>): seq<Point> {
    if visits == [] then [] else VisitPoint(name, visits[0]) + PointsOf(name, visits[1..])
  }

  function VisitPoint(name: string, v: NodeVisit): seq<Point> {
    if v.sensors == [] then [] else [MakePoint(name, v.tags, ToPointFields(v.sensors), v.ts)]
  }

  lemma {:induction false} PointsOfAppend(name: string, v: seq<NodeVisit>, w: seq<NodeVisit>)
    ensures PointsOf(name, v + w) == PointsOf(name, v) + PointsOf(name, w)
  {
    if v == [] {
      assert v + w == w;
    } else {
      assert (v + w)[1..] == v[1..] + w && (v + w)[0] == v[0];
      PointsOfAppend(name, v[1..], w);
      Assoc(VisitPoint(name, v[0]), PointsOf(name, v[1..]), PointsOf(name, w));
    }
  }

  function NilIfEmpty(fields: seq<PointField>): Option<seq<PointField>> {
    if fields == [] then None else Some(fields)
  }

  lemma FoldOne(name: string, p: Pending, e: Event)
    ensures Fold(name, p, [e]) == Step(name, p, e)
  {
    assert [e][..0] == [];
  }

  lemma ToPointFieldsAppend(u: seq<Atom>, v: seq<Atom>)
    ensures ToPointFields(u + v) == ToPointFields(u) + ToPointFields(v)
  {
  }

  lemma TrackFold(name: string, p: Pending, a: Adapter, s: Spec, at: string, f: Field, ts: nat, tags: seq<Atom>)
    ensures Fold(name, p, TrackEvents(a, s, at, f, ts, tags)) == p
  {
    var e := TrackEvents(a, s, at, f, ts, tags);
    if e != [] {
      FoldOne(name, p, e[0]);
    }
  }

  lemma BuildFold(name: string, atoms: seq<Atom>, ts: nat, tags: seq<Atom>, acc: seq<PointField>, points: seq<Point>)
    requires |atoms| <= 1
    ensures Fold(name, Pending(NilIfEmpty(acc), points), BuildEvents(atoms, ts, tags))
         == Pending(NilIfEmpty(acc + ToPointFields(atoms)), points)
  {
    if atoms == [] {
      assert acc + ToPointFields(atoms) == acc;
    } else {
      var e := Build(tags, atoms[0], ts);
      assert BuildEvents(atoms, ts, tags) == [e];
      FoldOne(name, Pending(NilIfEmpty(acc), points), e);
      assert ToPointFields(atoms) == [PointField(atoms[0].key, Rewrite(atoms[0].val))];
    }
  }

  /** One sensor field adds its value, if any, to the pending fields. */
  lemma SensorStepFold(name: string, a: Adapter, s: Spec, at: string, f: Field, ts: nat, tags: seq<Atom>,
                       acc: seq<PointField>, points: seq<Point>)
    ensures Fold(name, Pending(NilIfEmpty(acc), points), SensorStep(a, s, at, f, ts, tags))
         == Pending(NilIfEmpty(acc + ToPointFields(SensorAtoms(a, s, at, f))), points)
  {
    var p, ts', atoms := Pending(NilIfEmpty(acc), points), PickTs(f.timestamp, ts), SensorAtoms(a, s, at, f);
    FoldAppend(name, p, TrackEvents(a, s, at, f, ts', tags), BuildEvents(atoms, ts', tags));
    TrackFold(name, p, a, s, at, f, ts', tags);
    BuildFold(name, atoms, ts', tags, acc, points);
  }

  lemma {:induction false} SensorsFold(name: string, a: Adapter, s: Spec, at: string, fields: seq<Field>, i: nat, ts: nat,
                                       tags: seq<Atom>, acc: seq<PointField>, points: seq<Point>)
    requires i <= |fields|
    ensures Fold(name, Pending(NilIfEmpty(acc), points), Sensors(a, s, at, fields, i, ts, tags))
         == Pending(NilIfEmpty(acc + ToPointFields(VisitSensors(a, s, at, fields, i))), points)
    decreases |fields| - i
  {
    if i == |fields| {
      assert acc + ToPointFields([]) == acc;
    } else {
      var here, later := SensorAtoms(a, s, at, fields[i]), VisitSensors(a, s, at, fields, i + 1);
      FoldAppend(name, Pending(NilIfEmpty(acc), points), SensorStep(a, s, at, fields[i], ts, tags), Sensors(a, s, at, fields, i + 1, ts, tags));
      SensorStepFold(name, a, s, at, fields[i], ts, tags, acc, points);
      SensorsFold(name, a, s, at, fields, i + 1, ts, tags, acc + ToPointFields(here), points);
      ToPointFieldsAppend(here, later);
      Assoc(acc, ToPointFields(here), ToPointFields(later));
    }
  }

  lemma {:induction false} ReadingsFrom(a: Adapter, s: Spec, at: string, fields: seq<Field>, i: nat)
    requires i <= |fields|
    ensures VisitSensors(a, s, at, fields, i) != [] || WrittenBefore(s, fields, i) <==> Written(s, fields)
    decreases |fields| - i
  {
    if i < |fields| {
      ReadingsFrom(a, s, at, fields, i + 1);
      assert SensorAtoms(a, s, at, fields[i]) != [] <==> HasReading(s, fields[i]);
    }
  }

  /** Two stretches of calls that each start and end with nothing pending. */
  lemma Compose(name: string, points: seq<Point>, e1: seq<Event>, v1: seq<NodeVisit>, e2: seq<Event>, v2: seq<NodeVisit>)
    requires Fold(name, Pending(None, points), e1) == Pending(None, points + PointsOf(name, v1))
    requires Fold(name, Pending(None, points + PointsOf(name, v1)), e2)
          == Pending(None, points + PointsOf(name, v1) + PointsOf(name, v2))
    ensures Fold(name, Pending(None, points), e1 + e2) == Pending(None, points + PointsOf(name, v1 + v2))
  {
    FoldAppend(name, Pending(None, points), e1, e2);
    PointsOfAppend(name, v1, v2);
    Assoc(points, PointsOf(name, v1), PointsOf(name, v2));
  }

  /** The flush of a visit turns its sensors into one point, or does nothing when there are none. */
  lemma FlushFold(name: string, v: NodeVisit, points: seq<Point>)
    ensures Fold(name, Pending(NilIfEmpty(ToPointFields(v.sensors)), points), if v.sensors != [] then [Flush(v.tags, v.ts)] else [])
         == Pending(None, points + PointsOf(name, [v]))
  {
    assert [v][1..] == [];
    if v.sensors == [] {
      assert PointsOf(name, [v]) == [] && points + [] == points;
    } else {
      assert PointsOf(name, [v]) == [MakePoint(name, v.tags, ToPointFields(v.sensors), v.ts)];
      FoldOne(name, Pending(NilIfEmpty(ToPointFields(v.sensors)), points), Flush(v.tags, v.ts));
    }
  }

  lemma OwnPoint(name: string, a: Adapter, s: Spec, at: string, fields: seq<Field>, ts: nat, tags: seq<Atom>, points: seq<Point>)
    ensures Fold(name, Pending(None, points), OwnEvents(a, s, at, fields, ts, tags))
         == Pending(None, points + PointsOf(name, [OwnVisit(a, s, at, fields, ts, tags)]))
  {
    var here := OwnVisit(a, s, at, fields, ts, tags);
    FoldAppend(name, Pending(None, points), Sensors(a, s, at, fields, 0, ts, tags), FlushEvents(s, fields, ts, tags));
    SensorsFold(name, a, s, at, fields, 0, ts, tags, [], points);
    assert [] + ToPointFields(here.sensors) == ToPointFields(here.sensors);
    ReadingsFrom(a, s, at, fields, 0);
    FlushFold(name, here, points);
  }

  /**
   A visit that starts with nothing pending ends with nothing pending.  In between,
   the visit and each visit below it that has a sensor value adds exactly one point,
   made of that visit's tags and of the last value of each of that visit's sensors.
   */
  lemma {:induction false} VisitPoints(name: string, a: Adapter, s: Spec, at: string, fields: seq<Field>, ts: nat,
                                       tags: seq<Atom>, points: seq<Point>)
    ensures Fold(name, Pending(None, points), Visit(a, s, at, fields, ts, tags))
         == Pending(None, points + PointsOf(name, Visits(a, s, at, fields, ts, tags)))
    decreases s, |fields| + 1
  {
    var all := tags + CollectTags(a, s, at, fields, 0, TagTarget(s));
    var here := OwnVisit(a, s, at, fields, ts, all);
    OwnPoint(name, a, s, at, fields, ts, all, points);
    ContainersPoints(name, a, s, at, fields, 0, ts, all, points + PointsOf(name, [here]));
    Compose(name, points, OwnEvents(a, s, at, fields, ts, all), [here], Containers(a, s, at, fields, 0, ts, all), ContainerVisits(a, s, at, fields, 0, ts, all));
  }

  lemma {:induction false} ContainersPoints(name: string, a: Adapter, s: Spec, at: string, fields: seq<Field>, i: nat, ts: nat,
                                            tags: seq<Atom>, points: seq<Point>)
    requires i <= |fields|
    ensures Fold(name, Pending(None, points), Containers(a, s, at, fields, i, ts, tags))
         == Pending(None, points + PointsOf(name, ContainerVisits(a, s, at, fields, i, ts, tags)))
    decreases s, |fields| - i
  {
    assert points + [] == points;
    if i < |fields| {
      var c := Child(s.fields, Container, fields[i].name);
      if c.Some? {
        VisitPoints(name, a, c.value, Extend(at, c.value.name), Children(fields[i]), PickTs(fields[i].timestamp, ts), tags, points);
      }
      var visits := ContainerVisit(a, s, at, fields[i], ts, tags);
      ContainersPoints(name, a, s, at, fields, i + 1, ts, tags, points + PointsOf(name, visits));
      Compose(name, points, ContainerStep(a, s, at, fields[i], ts, tags), visits,
              Containers(a, s, at, fields, i + 1, ts, tags), ContainerVisits(a, s, at, fields, i + 1, ts, tags));
    }
  }

  // The visits of a whole message, row by row.

  ghost function PartVisits(a: Adapter, s: Spec, part: Field, ts: nat, tags: seq<Atom>): seq<NodeVisit> {
    if part.name == "content" then Visits(a, s, Extend("", s.name), Children(part), ts, tags) else []
  }

  ghost function RowVisits(a: Adapter, s: Spec, parts: seq<Field>, i: nat, ts: nat, tags: seq<Atom>): seq<NodeVisit>
    requires i <= |parts|
    decreases |parts| - i
  {
    if i == |parts| then []
    else
      var all := PartTags(a, parts[i], tags);
      PartVisits(a, s, parts[i], ts, all) + RowVisits(a, s, parts, i + 1, ts, all)
  }

  ghost function MessageVisits(a: Adapter, s: Spec, rows: seq<Field>, i: nat, msgTs: nat, tags: seq<Atom>): seq<NodeVisit>
    requires i <= |rows|
    decreases |rows| - i
  {
    if i == |rows| then []
    else RowVisits(a, s, Children(rows[i]), 0, PickTs(rows[i].timestamp, msgTs), tags) + MessageVisits(a, s, rows, i + 1, msgTs, tags)
  }

  lemma {:induction false} RowPoints(name: string, a: Adapter, s: Spec, parts: seq<Field>, i: nat, ts: nat, tags: seq<Atom>, points: seq<Point>)
    requires i <= |parts|
    ensures Fold(name, Pending(None, points), RowParts(a, s, parts, i, ts, tags))
         == Pending(None, points + PointsOf(name, RowVisits(a, s, parts, i, ts, tags)))
    decreases |parts| - i
  {
    assert points + [] == points;
    if i < |parts| {
      var all := PartTags(a, parts[i], tags);
      var visits := PartVisits(a, s, parts[i], ts, all);
      if parts[i].name == "content" {
        VisitPoints(name, a, s, Extend("", s.name), Children(parts[i]), ts, all, points);
      }
      RowPoints(name, a, s, parts, i + 1, ts, all, points + PointsOf(name, visits));
      Compose(name, points, PartEvents(a, s, parts[i], ts, all), visits,
              RowParts(a, s, parts, i + 1, ts, all), RowVisits(a, s, parts, i + 1, ts, all));
    }
  }

  /** The points of a message are those of its visits; nothing is left pending between rows or after the last. */
  lemma {:induction false} MessagePoints(name: string, a: Adapter, s: Spec, rows: seq<Field>, i: nat, msgTs: nat, tags: seq<Atom>, points: seq<Point>)
    requires i <= |rows|
    ensures Fold(name, Pending(None, points), Rows(a, s, rows, i, msgTs, tags))
         == Pending(None, points + PointsOf(name, MessageVisits(a, s, rows, i, msgTs, tags)))
    decreases |rows| - i
  {
    assert points + [] == points;
    if i < |rows| {
      var ts := PickTs(rows[i].timestamp, msgTs);
      var visits := RowVisits(a, s, Children(rows[i]), 0, ts, tags);
      RowPoints(name, a, s, Children(rows[i]), 0, ts, tags, points);
      MessagePoints(name, a, s, rows, i + 1, msgTs, tags, points + PointsOf(name, visits));
      Compose(name, points, RowParts(a, s, Children(rows[i]), 0, ts, tags), visits,
              Rows(a, s, rows, i + 1, msgTs, tags), MessageVisits(a, s, rows, i + 1, msgTs, tags));
    }
  }

  // ---------------------------------------------------------------------------
  // What is in a point

  function Always(): nat -> bool {
    (i: nat) => true
  }

  function KeyAt(atoms: seq<Atom>): nat -> string {
    (i: nat) => if i < |atoms| then atoms[i].key else ""
  }

  function ValAt(atoms: seq<Atom>): nat -> Option<Value> {
    (i: nat) => if i < |atoms| then atoms[i].val else None
  }

  /** The value of a sensor as a field of a point: unsigned 64-bit integers become floating point numbers, others stay. */
  function FieldValue(v: Option<Value>): PointValue {
    match v
    case Some(Uint64Value(n)) => Float64(n)
    case _ => Native(v)
  }

  function FieldAt(atoms: seq<Atom>): nat -> PointValue {
    (i: nat) => if i < |atoms| then FieldValue(atoms[i].val) else Native(None)
  }

  /**
   The point of a visit: its fields are the visit's sensors and its tags the visit's tags,
   the last of a name counting, and its time is the visit's in nanoseconds, in 64 bits.
   */
  ghost predicate PointOf(name: string, v: NodeVisit, p: Point) {
    && p.name == name
    && LastWins(p.fields, Always(), KeyAt(v.sensors), FieldAt(v.sensors), |v.sensors|)
    && LastWins(p.tags, Always(), KeyAt(v.tags), ValAt(v.tags), |v.tags|)
    && NanosOf(v.ts, p.nanos)
  }

  predicate NanosOf(ts: nat, nanos: int) {
    && -0x8000_0000_0000_0000 <= nanos < 0x8000_0000_0000_0000
    && (nanos - ts * 1_000_000) % 0x1_0000_0000_0000_0000 == 0
  }

  lemma RewriteIs(sensors: seq<Atom>, i: nat)
    requires i < |sensors|
    ensures Rewrite(sensors[i].val) == FieldAt(sensors)(i)
  {
    assert FieldAt(sensors)(i) == FieldValue(sensors[i].val);
    var v := sensors[i].val;
    assert v.Some? && v.value.Uint64Value? ==> v == Some(Uint64Value(v.value.u64));
  }

  lemma {:induction false} LastFieldsIs(fields: seq<PointField>, key: nat -> string, val: nat -> PointValue, n: nat)
    requires n <= |fields| && forall i | 0 <= i < |fields| :: fields[i] == PointField(key(i), val(i))
    ensures LastWins(LastFields(fields[..n]), Always(), key, val, n)
  {
    if n == 0 {
      LastWinsNone(Always(), key, val);
    } else {
      LastFieldsIs(fields, key, val, n - 1);
      assert fields[..n][..n - 1] == fields[..n - 1];
      LastWinsNext(LastFields(fields[..n - 1]), Always(), key, val, n - 1);
    }
  }

  lemma {:induction false} LastTagsIs(tags: seq<Atom>, n: nat)
    requires n <= |tags|
    ensures LastWins(LastTags(tags[..n]), Always(), KeyAt(tags), ValAt(tags), n)
  {
    if n == 0 {
      LastWinsNone(Always(), KeyAt(tags), ValAt(tags));
    } else {
      LastTagsIs(tags, n - 1);
      assert tags[..n][..n - 1] == tags[..n - 1];
      LastWinsNext(LastTags(tags[..n - 1]), Always(), KeyAt(tags), ValAt(tags), n - 1);
    }
  }

  lemma ToInt64Is(x: int)
    ensures var y := ToInt64(x);
            -0x8000_0000_0000_0000 <= y < 0x8000_0000_0000_0000 && (y - x) % 0x1_0000_0000_0000_0000 == 0
  {
  }

  /** Scaling commutes with reduction to 64 bits. */
  lemma ScaledInt64(x: int, y: int)
    requires (y - x) % 0x1_0000_0000_0000_0000 == 0
    ensures (ToInt64(y * 1000) - x * 1000) % 0x1_0000_0000_0000_0000 == 0
  {
    var m := 0x1_0000_0000_0000_0000;
    ToInt64Is(y * 1000);
    var q, r := (y - x) / m, (ToInt64(y * 1000) - y * 1000) / m;
    assert y - x == q * m && ToInt64(y * 1000) - y * 1000 == r * m;
    var t := r + q * 1000;
    assert ToInt64(y * 1000) - x * 1000 == t * m + 0;
    DivModUnique(ToInt64(y * 1000) - x * 1000, m, t, 0);
  }

  lemma PointNanosIs(ts: nat)
    ensures NanosOf(ts, PointNanos(ts))
    ensures ts * 1_000_000 < 0x8000_0000_0000_0000 ==> PointNanos(ts) == ts * 1_000_000
  {
    ToInt64Is(ts);
    ScaledInt64(ts, ToInt64(ts));
    ScaledInt64(ts * 1000, ToInt64(ToInt64(ts) * 1000));
    ToInt64Is(ToInt64(ToInt64(ts) * 1000) * 1000);
    assert ts * 1000 * 1000 == ts * 1_000_000;
    if ts * 1_000_000 < 0x8000_0000_0000_0000 {
      SameInt64(PointNanos(ts), ts * 1_000_000);
    }
  }

  lemma SameInt64(a: int, b: int)
    requires -0x8000_0000_0000_0000 <= a < 0x8000_0000_0000_0000 && -0x8000_0000_0000_0000 <= b < 0x8000_0000_0000_0000
    requires (a - b) % 0x1_0000_0000_0000_0000 == 0
    ensures a == b
  {
  }

  function PendingKey(fields: seq<PointField>): nat -> string {
    (i: nat) => if i < |fields| then fields[i].key else ""
  }

  function PendingVal(fields: seq<PointField>): nat -> PointValue {
    (i: nat) => if i < |fields| then fields[i].val else Native(None)
  }

  /** The point made of pending fields by a flush. */
  ghost predicate FlushedPoint(name: string, tags: seq<Atom>, fields: seq<PointField>, ts: nat, p: Point) {
    && p.name == name && NanosOf(ts, p.nanos)
    && LastWins(p.fields, Always(), PendingKey(fields), PendingVal(fields), |fields|)
    && LastWins(p.tags, Always(), KeyAt(tags), ValAt(tags), |tags|)
  }

  lemma Flushed(name: string, tags: seq<Atom>, fields: seq<PointField>, ts: nat)
    ensures FlushedPoint(name, tags, fields, ts, MakePoint(name, tags, fields, ts))
  {
    LastFieldsIs(fields, PendingKey(fields), PendingVal(fields), |fields|);
    LastTagsIs(tags, |tags|);
    assert fields[..|fields|] == fields && tags[..|tags|] == tags;
    PointNanosIs(ts);
  }

  lemma MadePoint(name: string, v: NodeVisit)
    ensures PointOf(name, v, MakePoint(name, v.tags, ToPointFields(v.sensors), v.ts))
  {
    var fields := ToPointFields(v.sensors);
    forall i | 0 <= i < |fields| ensures fields[i] == PointField(KeyAt(v.sensors)(i), FieldAt(v.sensors)(i)) {
      RewriteIs(v.sensors, i);
    }
    LastFieldsIs(fields, KeyAt(v.sensors), FieldAt(v.sensors), |fields|);
    LastTagsIs(v.tags, |v.tags|);
    assert fields[..|fields|] == fields && v.tags[..|v.tags|] == v.tags;
    PointNanosIs(v.ts);
  }

  function ReadsAt(visits: seq<NodeVisit>): nat -> bool {
    (i: nat) => i < |visits| && visits[i].sensors != []
  }

  /** There is one point for each visit that reads a sensor, in the order of the visits, and no other. */
  ghost predicate PointsMatch(name: string, visits: seq<NodeVisit>, points: seq<Point>) {
    && |points| == Count(ReadsAt(visits), |visits|)
    && forall i | 0 <= i < |visits| && ReadsAt(visits)(i) ::
         Count(ReadsAt(visits), i) < |points| && PointOf(name, visits[i], points[Count(ReadsAt(visits), i)])
  }

  function MadeAt(name: string, visits: seq<NodeVisit>): nat -> Point {
    (i: nat) => if i < |visits| then MakePoint(name, visits[i].tags, ToPointFields(visits[i].sensors), visits[i].ts) else Point("", map[], map[], 0)
  }

  lemma {:induction false} PointsPick(name: string, visits: seq<NodeVisit>, n: nat)
    requires n <= |visits|
    ensures Picks(MadeAt(name, visits), ReadsAt(visits), n, PointsOf(name, visits[..n]))
  {
    if n == 0 {
      PicksNone(MadeAt(name, visits), ReadsAt(visits));
    } else {
      PointsPick(name, visits, n - 1);
      PicksNext(MadeAt(name, visits), ReadsAt(visits), n - 1, PointsOf(name, visits[..n - 1]));
      PointsNext(name, visits, n - 1);
    }
  }

  lemma PointsNext(name: string, visits: seq<NodeVisit>, m: nat)
    requires m < |visits|
    ensures PointsOf(name, visits[..m + 1]) ==
            if ReadsAt(visits)(m) then PointsOf(name, visits[..m]) + [MadeAt(name, visits)(m)] else PointsOf(name, visits[..m])
  {
    assert visits[..m + 1] == visits[..m] + [visits[m]];
    PointsOfAppend(name, visits[..m], [visits[m]]);
    assert [visits[m]][1..] == [];
  }

  lemma PointsAreThose(name: string, visits: seq<NodeVisit>)
    ensures PointsMatch(name, visits, PointsOf(name, visits))
  {
    PointsPick(name, visits, |visits|);
    assert visits[..|visits|] == visits;
    forall i | 0 <= i < |visits| ensures PointOf(name, visits[i], MadeAt(name, visits)(i)) {
      MadePoint(name, visits[i]);
    }
  }

  // ---------------------------------------------------------------------------
  // Tags that every point of a message has

  lemma {:induction false} VisitsKeepTags(a: Adapter, s: Spec, at: string, fields: seq<Field>, ts: nat, tags: seq<Atom>, v: NodeVisit)
    requires v in Visits(a, s, at, fields, ts, tags)
    ensures tags <= v.tags
    decreases s, |fields| + 1
  {
    var all := tags + CollectTags(a, s, at, fields, 0, TagTarget(s));
    if v in ContainerVisits(a, s, at, fields, 0, ts, all) {
      BelowKeepTags(a, s, at, fields, 0, ts, all, v);
    }
  }

  lemma {:induction false} BelowKeepTags(a: Adapter, s: Spec, at: string, fields: seq<Field>, i: nat, ts: nat, tags: seq<Atom>, v: NodeVisit)
    requires i <= |fields| && v in ContainerVisits(a, s, at, fields, i, ts, tags)
    ensures tags <= v.tags
    decreases s, |fields| - i
  {
    var c := Child(s.fields, Container, fields[i].name);
    if v in ContainerVisit(a, s, at, fields[i], ts, tags) {
      VisitsKeepTags(a, c.value, Extend(at, c.value.name), Children(fields[i]), PickTs(fields[i].timestamp, ts), tags, v);
    } else {
      BelowKeepTags(a, s, at, fields, i + 1, ts, tags, v);
    }
  }

  lemma {:induction false} RowKeepTags(a: Adapter, s: Spec, parts: seq<Field>, i: nat, ts: nat, tags: seq<Atom>, v: NodeVisit)
    requires i <= |parts| && v in RowVisits(a, s, parts, i, ts, tags)
    ensures tags <= v.tags
    decreases |parts| - i
  {
    var all := PartTags(a, parts[i], tags);
    if v in PartVisits(a, s, parts[i], ts, all) {
      VisitsKeepTags(a, s, Extend("", s.name), Children(parts[i]), ts, all, v);
    } else {
      RowKeepTags(a, s, parts, i + 1, ts, all, v);
    }
  }

  /** Every visit of a message has the message's tags in front of its own. */
  lemma {:induction false} MessageKeepsTags(a: Adapter, s: Spec, rows: seq<Field>, i: nat, msgTs: nat, tags: seq<Atom>, v: NodeVisit)
    requires i <= |rows| && v in MessageVisits(a, s, rows, i, msgTs, tags)
    ensures tags <= v.tags
    decreases |rows| - i
  {
    var ts := PickTs(rows[i].timestamp, msgTs);
    if v in RowVisits(a, s, Children(rows[i]), 0, ts, tags) {
      RowKeepTags(a, s, Children(rows[i]), 0, ts, tags, v);
    } else {
      MessageKeepsTags(a, s, rows, i + 1, msgTs, tags, v);
    }
  }
}
