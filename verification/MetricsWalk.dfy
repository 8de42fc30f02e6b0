/**
 Telemetry fields as the GPB key/value encoding carries them (codec_gpb.go).
 */
module Telemetry {
  import opened Common

  datatype Value =
    | BytesValue(bytes: seq<byte>)
    | StringValue(str: string)
    | BoolValue(bool)
    | Uint32Value(u32: nat)
    | Uint64Value(u64: nat)
    | Sint32Value(s32: int)
    | Sint64Value(s64: int)
    | DoubleValue(double: real)
    | FloatValue(float: real)

  datatype Field = Field(timestamp: nat, name: string, value: Option<Value>, fields: FieldSlice)

  /** A slice of fields; the source distinguishes a nil slice from an empty one. */
  datatype FieldSlice = NilSlice | Fields(list: seq<Field>)

  function Children(f: Field): seq<Field> {
    if f.fields.Fields? then f.fields.list else []
  }

  predicate Numeric(v: Value) {
    !v.BytesValue? && !v.StringValue? && !v.BoolValue?
  }

  function ExtractNative(f: Field, mustBeNumeric: bool): Option<Value> {
    if f.value.Some? && (mustBeNumeric ==> Numeric(f.value.value)) then f.value else None
  }
}

/**
 The metrics walk over one GPB key/value message, at the level of values: what it
 emits as a function of the specification and the fields.
 */
module MetricsTrace {
  import opened Common
  import opened Telemetry
  import opened MetricsSpec

  datatype Atom = Atom(key: string, val: Option<Value>)

  /** Calls that leave the walk: buildMetric, flushMetric and the statistics update of a tracked sensor. */
  datatype Event =
    | Build(tags: seq<Atom>, sensor: Atom, ts: nat)
    | Flush(tags: seq<Atom>, ts: nat)
    | Track(fqName: string, tags: seq<Atom>, ts: nat)

  /** The child of type `t` called `name`, as the compiled maps resolve it. */
  function Child(fields: seq<Spec>, t: NodeType, name: string): (r: Option<Spec>)
    ensures r.Some? ==> r.value in fields && TypeOf(r.value) == t && r.value.name == name
  {
    var k := Lookup(fields, |fields|, t, name);
    if k.Some? then Some(fields[k.value]) else None
  }

  /** A field's own timestamp, or the inherited one when the field has none. */
  function PickTs(own: nat, inherited: nat): nat {
    if own == 0 then inherited else own
  }

  function ChildName(a: Adapter, at: string, c: Spec): string {
    FqName(a, Extend(at, c.name), c)
  }

  /** The tag pass from field `i` on: it stops once `left` tag fields have been met. */
  function CollectTags(a: Adapter, s: Spec, at: string, fields: seq<Field>, i: nat, left: nat): seq<Atom>
    requires i <= |fields|
    decreases |fields| - i
  {
    if i == |fields| || left == 0 then []
    else
      var c := Child(s.fields, Tag, fields[i].name);
      if c.None? then CollectTags(a, s, at, fields, i + 1, left)
      else TagAtoms(a, at, c.value, fields[i]) + CollectTags(a, s, at, fields, i + 1, left - 1)
  }

  function TagAtoms(a: Adapter, at: string, c: Spec, f: Field): seq<Atom> {
    if ExtractNative(f, false).Some? then [Atom(ChildName(a, at, c), ExtractNative(f, false))] else []
  }

  ghost function TagTarget(s: Spec): nat {
    |NamesOfType(s.fields, |s.fields|, Tag)|
  }

  /** The sensor value of one field, if the field is a sensor of the node and has a value. */
  function SensorAtoms(a: Adapter, s: Spec, at: string, f: Field): seq<Atom> {
    var c := Child(s.fields, Sensor, f.name);
    if c.Some? && ExtractNative(f, false).Some? then [Atom(ChildName(a, at, c.value), ExtractNative(f, false))] else []
  }

  function TrackEvents(a: Adapter, s: Spec, at: string, f: Field, ts: nat, tags: seq<Atom>): seq<Event> {
    var c := Child(s.fields, Sensor, f.name);
    if c.Some? && c.value.track then [Track(ChildName(a, at, c.value), tags, ts)] else []
  }

  function BuildEvents(atoms: seq<Atom>, ts: nat, tags: seq<Atom>): seq<Event> {
    seq(|atoms|, i requires 0 <= i < |atoms| => Build(tags, atoms[i], ts))
  }

  /** What one field contributes to the sensor pass. */
  function SensorStep(a: Adapter, s: Spec, at: string, f: Field, ts: nat, tags: seq<Atom>): seq<Event> {
    TrackEvents(a, s, at, f, PickTs(f.timestamp, ts), tags)
    + BuildEvents(SensorAtoms(a, s, at, f), PickTs(f.timestamp, ts), tags)
  }

  function Sensors(a: Adapter, s: Spec, at: string, fields: seq<Field>, i: nat, ts: nat, tags: seq<Atom>): seq<Event>
    requires i <= |fields|
    decreases |fields| - i
  {
    if i == |fields| then []
    else SensorStep(a, s, at, fields[i], ts, tags) + Sensors(a, s, at, fields, i + 1, ts, tags)
  }

  /** The field is a sensor of the node and carries a value. */
  predicate HasReading(s: Spec, f: Field) {
    Child(s.fields, Sensor, f.name).Some? && ExtractNative(f, false).Some?
  }

  predicate WrittenBefore(s: Spec, fields: seq<Field>, i: nat)
    requires i <= |fields|
  {
    i > 0 && (HasReading(s, fields[i - 1]) || WrittenBefore(s, fields, i - 1))
  }

  predicate Written(s: Spec, fields: seq<Field>) {
    WrittenBefore(s, fields, |fields|)
  }

  /** The timestamp of the last sensor field before `i`, with or without a value. */
  function LastTsBefore(s: Spec, fields: seq<Field>, i: nat, ts: nat): nat
    requires i <= |fields|
  {
    if i == 0 then 0
    else if Child(s.fields, Sensor, fields[i - 1].name).Some? then PickTs(fields[i - 1].timestamp, ts)
    else LastTsBefore(s, fields, i - 1, ts)
  }

  function LastTs(s: Spec, fields: seq<Field>, ts: nat): nat {
    LastTsBefore(s, fields, |fields|, ts)
  }

  function FlushEvents(s: Spec, fields: seq<Field>, ts: nat, tags: seq<Atom>): seq<Event> {
    if Written(s, fields) then [Flush(tags, LastTs(s, fields, ts))] else []
  }

  /** Everything one visit of a node emits itself. */
  function OwnEvents(a: Adapter, s: Spec, at: string, fields: seq<Field>, ts: nat, tags: seq<Atom>): seq<Event> {
    Sensors(a, s, at, fields, 0, ts, tags) + FlushEvents(s, fields, ts, tags)
  }

  /** What one visit of a node emits, and then its containers'. */
  ghost function Visit(a: Adapter, s: Spec, at: string, fields: seq<Field>, ts: nat, tags: seq<Atom>): seq<Event>
    decreases s, |fields| + 1
  {
    var all := tags + CollectTags(a, s, at, fields, 0, TagTarget(s));
    OwnEvents(a, s, at, fields, ts, all) + Containers(a, s, at, fields, 0, ts, all)
  }

  ghost function Containers(a: Adapter, s: Spec, at: string, fields: seq<Field>, i: nat, ts: nat, tags: seq<Atom>): seq<Event>
    requires i <= |fields|
    decreases s, |fields| - i
  {
    if i == |fields| then []
    else ContainerStep(a, s, at, fields[i], ts, tags) + Containers(a, s, at, fields, i + 1, ts, tags)
  }

  ghost function ContainerStep(a: Adapter, s: Spec, at: string, f: Field, ts: nat, tags: seq<Atom>): seq<Event>
    decreases s, 0
  {
    var c := Child(s.fields, Container, f.name);
    if c.None? then []
    else Visit(a, c.value, Extend(at, c.value.name), Children(f), PickTs(f.timestamp, ts), tags)
  }

  // Rows

  function KeyAtoms(a: Adapter, keys: seq<Field>): seq<Atom> {
    seq(|keys|, i requires 0 <= i < |keys| => Atom(a.tag(keys[i].name), ExtractNative(keys[i], false)))
  }

  /** What one part of a row adds to the tags of the parts after it. */
  function PartTags(a: Adapter, part: Field, tags: seq<Atom>): seq<Atom> {
    if part.name == "keys" then tags + KeyAtoms(a, Children(part)) else tags
  }

  ghost function PartEvents(a: Adapter, s: Spec, part: Field, ts: nat, tags: seq<Atom>): seq<Event> {
    if part.name == "content" then Visit(a, s, Extend("", s.name), Children(part), ts, tags) else []
  }

  /** The "keys" and "content" parts of a row from part `i` on, in order. */
  ghost function RowParts(a: Adapter, s: Spec, parts: seq<Field>, i: nat, ts: nat, tags: seq<Atom>): seq<Event>
    requires i <= |parts|
    decreases |parts| - i
  {
    if i == |parts| then []
    else
      var all := PartTags(a, parts[i], tags);
      PartEvents(a, s, parts[i], ts, all) + RowParts(a, s, parts, i + 1, ts, all)
  }

  ghost function Rows(a: Adapter, s: Spec, rows: seq<Field>, i: nat, msgTs: nat, tags: seq<Atom>): seq<Event>
    requires i <= |rows|
    decreases |rows| - i
  {
    if i == |rows| then []
    else RowParts(a, s, Children(rows[i]), 0, PickTs(rows[i].timestamp, msgTs), tags) + Rows(a, s, rows, i + 1, msgTs, tags)
  }

  // ---------------------------------------------------------------------------
  // The tags of a row

  /** The tags at the content that is part `j` of a row: the message's, and those of the "keys" parts up to there. */
  function TagsAt(a: Adapter, parts: seq<Field>, j: nat, tags: seq<Atom>): seq<Atom>
    requires j <= |parts|
  {
    if j == 0 then tags else PartTags(a, parts[j - 1], TagsAt(a, parts, j - 1, tags))
  }

  /** Where the tags of part `j` of a row begin. */
  function Offset(parts: seq<Field>, j: nat, n: nat): nat
    requires j <= |parts|
  {
    if j == 0 then n else Offset(parts, j - 1, n) + if parts[j - 1].name == "keys" then |Children(parts[j - 1])| else 0
  }

  /** Key `k` of the "keys" part `i` has become a tag: its name adapted, its value as it is, at its place in the order of the row. */
  predicate KeyIsTag(a: Adapter, parts: seq<Field>, n: nat, all: seq<Atom>, i: nat, k: nat)
    requires i < |parts| && k < |Children(parts[i])|
  {
    var key, at := Children(parts[i])[k], Offset(parts, i, n) + k;
    at < |all| && all[at] == Atom(a.tag(key.name), key.value)
  }

  lemma {:induction false} TagsAtAre(a: Adapter, parts: seq<Field>, j: nat, tags: seq<Atom>)
    requires j <= |parts|
    ensures var all := TagsAt(a, parts, j, tags);
            && |all| == Offset(parts, j, |tags|) && tags <= all
            && forall i, k | 0 <= i < j && parts[i].name == "keys" && 0 <= k < |Children(parts[i])| :: KeyIsTag(a, parts, |tags|, all, i, k)
  {
    if j > 0 {
      TagsAtAre(a, parts, j - 1, tags);
      var before, all := TagsAt(a, parts, j - 1, tags), TagsAt(a, parts, j, tags);
      forall i, k | 0 <= i < j && parts[i].name == "keys" && 0 <= k < |Children(parts[i])| ensures KeyIsTag(a, parts, |tags|, all, i, k) {
        if i < j - 1 {
          assert KeyIsTag(a, parts, |tags|, before, i, k);
        }
      }
    }
  }

  /** The calls a part makes when it is content. */
  ghost function ContentCall(a: Adapter, s: Spec, part: Field, ts: nat, tags: seq<Atom>): seq<Event> {
    if part.name == "content" then Visit(a, s, s.name, Children(part), ts, tags) else []
  }

  /** The calls of the "content" parts among the first `j`, each with the tags it has there. */
  ghost function ContentCalls(a: Adapter, s: Spec, parts: seq<Field>, j: nat, ts: nat, tags: seq<Atom>): seq<Event>
    requires j <= |parts|
  {
    if j == 0 then []
    else ContentCalls(a, s, parts, j - 1, ts, tags) + ContentCall(a, s, parts[j - 1], ts, TagsAt(a, parts, j - 1, tags))
  }

  /** `all` is what the content among the first `i` parts calls and what the parts from there on will call. */
  ghost predicate RowLeft(all: seq<Event>, a: Adapter, s: Spec, parts: seq<Field>, i: nat, ts: nat, tags: seq<Atom>) {
    forall now :: RowLeftHere(all, a, s, parts, i, ts, tags, now)
  }

  ghost predicate RowLeftHere(all: seq<Event>, a: Adapter, s: Spec, parts: seq<Field>, i: nat, ts: nat, tags: seq<Atom>, now: bool) {
    now ==> i <= |parts| && all == ContentCalls(a, s, parts, i, ts, tags) + RowParts(a, s, parts, i, ts, TagsAt(a, parts, i, tags))
  }

  lemma RowNext(all: seq<Event>, a: Adapter, s: Spec, parts: seq<Field>, i: nat, j: nat, ts: nat, tags: seq<Atom>)
    requires i < |parts| && j == i + 1 && RowLeft(all, a, s, parts, i, ts, tags)
    ensures RowLeft(all, a, s, parts, j, ts, tags)
  {
    assert RowLeftHere(all, a, s, parts, i, ts, tags, true);
    var here, there := TagsAt(a, parts, i, tags), TagsAt(a, parts, j, tags);
    var done, now' := ContentCalls(a, s, parts, i, ts, tags), ContentCall(a, s, parts[i], ts, here);
    assert PartEvents(a, s, parts[i], ts, there) == now';
    Assoc(done, now', RowParts(a, s, parts, j, ts, there));
    assert ContentCalls(a, s, parts, j, ts, tags) == done + now';
    assert forall now :: RowLeftHere(all, a, s, parts, j, ts, tags, now);
  }

  lemma {:induction false} RowFrom(a: Adapter, s: Spec, parts: seq<Field>, j: nat, ts: nat, tags: seq<Atom>, all: seq<Event>)
    requires j <= |parts| && RowLeft(all, a, s, parts, 0, ts, tags)
    ensures RowLeft(all, a, s, parts, j, ts, tags)
  {
    if j > 0 {
      RowFrom(a, s, parts, j - 1, ts, tags, all);
      RowNext(all, a, s, parts, j - 1, j, ts, tags);
    }
  }

  /** A row makes the calls of its "content" parts, with the tags of `TagsAtAre`. */
  lemma RowIsContent(a: Adapter, s: Spec, parts: seq<Field>, ts: nat, tags: seq<Atom>)
    ensures RowParts(a, s, parts, 0, ts, tags) == ContentCalls(a, s, parts, |parts|, ts, tags)
  {
    var all := RowParts(a, s, parts, 0, ts, tags);
    assert [] + all == all;
    assert forall now :: RowLeftHere(all, a, s, parts, 0, ts, tags, now);
    RowFrom(a, s, parts, |parts|, ts, tags, all);
    assert RowLeftHere(all, a, s, parts, |parts|, ts, tags, true);
    assert ContentCalls(a, s, parts, |parts|, ts, tags) + [] == ContentCalls(a, s, parts, |parts|, ts, tags);
  }
}
