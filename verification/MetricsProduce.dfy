/**
 The metrics walk as the code runs it (codec_gpb.go): over compiled specification
 nodes, with the tags held in slices that share a backing array.
 */
module MetricsProduce {
  import opened Common
  import opened Telemetry
  import opened MetricsSpec
  import opened MetricsTrace
  import opened MetricsInflux

  /** A slice header: the first `len` elements of `arr`; the capacity is the array's length. */
  datatype Slice = Slice(arr: array<Atom>, len: nat)

  predicate InBounds(s: Slice) {
    s.len <= s.arr.Length
  }

  function View(s: Slice): seq<Atom>
    requires InBounds(s)
    reads s.arr
  {
    s.arr[..s.len]
  }

  /**
   Go's append: in place when there is room, else into a new array of some larger
   capacity.  It writes at or above `s.len` only.
   */
  method Append(s: Slice, x: Atom) returns (r: Slice)
    requires InBounds(s)
    modifies s.arr
    ensures InBounds(r) && r.len == s.len + 1
    ensures View(r) == old(View(s)) + [x]
    ensures View(s) == old(View(s))
    ensures if s.len < s.arr.Length then r.arr == s.arr else fresh(r.arr)
  {
    if s.len < s.arr.Length {
      s.arr[s.len] := x;
      r := Slice(s.arr, s.len + 1);
    } else {
      var cap: nat :| s.len < cap;
      var arr := new Atom[cap](_ => x);
      for i := 0 to s.len
        invariant View(s) == old(View(s))
        invariant arr[..i] == View(s)[..i]
        invariant i <= arr.Length && arr[s.len] == x
      {
        arr[i] := s.arr[i];
      }
      r := Slice(arr, s.len + 1);
      assert arr[..s.len] == View(s);
    }
  }

  /** Appending to a slice that extends `base` leaves what `base` shows as it was. */
  method AppendAbove(ghost base: Slice, s: Slice, x: Atom) returns (r: Slice)
    requires InBounds(base) && InBounds(s) && base.len <= s.len
    modifies s.arr
    ensures InBounds(r) && r.len == s.len + 1 && (r.arr == s.arr || fresh(r.arr))
    ensures View(r) == old(View(s)) + [x]
    ensures View(base) == old(View(base))
  {
    if base.arr == s.arr {
      ViewPrefix(base, s);
    }
    r := Append(s, x);
    if base.arr == s.arr {
      ViewPrefix(base, s);
    }
  }

  lemma ViewPrefix(base: Slice, s: Slice)
    requires InBounds(base) && InBounds(s) && base.len <= s.len && base.arr == s.arr
    ensures View(base) == View(s)[..base.len]
  {
  }

  lemma CompiledBelow(n: SpecNode, a: Adapter, c: SpecNode)
    requires Compiled(n, a) && c.repr <= n.repr
    ensures Compiled(c, a)
  {
    assert Raw(c.repr, a) <= Raw(n.repr, a);
  }

  /** What a lookup in a compiled node finds is what the specification says. */
  lemma CompiledLookup(node: SpecNode, a: Adapter, t: NodeType, name: string)
    requires Tree(node) && Compiled(node, a)
    ensures name in node.byType.At(t) <==> Child(node.spec.fields, t, name).Some?
    ensures name in node.byType.At(t) ==>
              var c := node.byType.At(t)[name];
              && Some(c.spec) == Child(node.spec.fields, t, name)
              && c.track == c.spec.track
              && Tree(c) && Compiled(c, a) && c.at == Extend(node.at, c.spec.name)
              && (t != Container ==> c.fqName == ChildName(a, node.at, c.spec))
  {
    TreeRoot(node);
    CompiledNode(node, a, node);
    MapResolves(node, |node.fields|, t, name);
    assert t == Tag || t == Sensor || t == Container;
    if name in node.byType.At(t) {
      var k := Lookup(node.spec.fields, |node.fields|, t, name).value;
      var c := node.fields[k];
      TreeBelow(node, k);
      TreeRoot(c);
      CompiledNode(node, a, c);
      CompiledBelow(node, a, c);
    }
  }

  /** The map resolves `name` to a child of type `t` as the specification does, with its compiled name. */
  ghost predicate Resolves(m: map<string, SpecNode>, a: Adapter, s: Spec, at: string, t: NodeType, name: string)
    reads m.Values
  {
    var c := Child(s.fields, t, name);
    && (name in m <==> c.Some?)
    && (name in m ==>
          && m[name].spec == c.value && m[name].track == c.value.track
          && m[name].fqName == ChildName(a, at, c.value))
  }

  ghost predicate LeafMap(m: map<string, SpecNode>, a: Adapter, s: Spec, at: string, t: NodeType)
    reads m.Values
  {
    forall name :: Resolves(m, a, s, at, t, name)
  }

  lemma CompiledLeafMap(node: SpecNode, a: Adapter, t: NodeType)
    requires Tree(node) && Compiled(node, a) && t != Container
    ensures LeafMap(node.byType.At(t), a, node.spec, node.at, t)
    ensures t == Tag ==> |node.byType.At(t)| == TagTarget(node.spec)
  {
    CompiledLookup(node, a, t, "");
    forall name ensures Resolves(node.byType.At(t), a, node.spec, node.at, t, name) {
      CompiledLookup(node, a, t, name);
    }
    if t == Tag {
      TreeRoot(node);
      CompiledNode(node, a, node);
      forall name ensures name in node.byType.At(t).Keys <==> name in NamesOfType(node.spec.fields, |node.fields|, t) {
        MapResolves(node, |node.fields|, t, name);
        LookupNames(node.spec.fields, |node.fields|, t, name);
      }
      assert node.byType.At(t).Keys == NamesOfType(node.spec.fields, |node.fields|, t);
      assert |node.byType.At(t)| == |node.byType.At(t).Keys|;
    }
  }

  method TagStep(ghost base: Slice, child: SpecNode, ghost a: Adapter, ghost at: string, field: Field, s: Slice)
    returns (r: Slice)
    requires InBounds(base) && InBounds(s) && base.len <= s.len && child.fqName == ChildName(a, at, child.spec)
    modifies s.arr
    ensures InBounds(r) && s.len <= r.len && (r.arr == s.arr || fresh(r.arr))
    ensures View(r) == old(View(s)) + TagAtoms(a, at, child.spec, field)
    ensures View(base) == old(View(base))
  {
    var val := ExtractNative(field, false);
    r := s;
    if val.Some? {
      r := AppendAbove(base, s, Atom(child.fqName, val));
    }
  }

  /** What the tag pass still has to collect from field `i` on for the tags to end as `goal`. */
  ghost predicate TagsLeft(goal: seq<Atom>, tags: seq<Atom>, a: Adapter, s: Spec, at: string, fields: seq<Field>, i: nat, left: nat) {
    forall now :: TagsLeftHere(goal, tags, a, s, at, fields, i, left, now)
  }

  ghost predicate TagsLeftHere(goal: seq<Atom>, tags: seq<Atom>, a: Adapter, s: Spec, at: string, fields: seq<Field>, i: nat, left: nat, now: bool) {
    now ==> i <= |fields| && goal == tags + CollectTags(a, s, at, fields, i, left)
  }

  lemma NextTag(goal: seq<Atom>, tags: seq<Atom>, a: Adapter, s: Spec, at: string, fields: seq<Field>, i: nat, left: nat)
    requires i < |fields| && left > 0 && TagsLeft(goal, tags, a, s, at, fields, i, left)
    ensures var c := Child(s.fields, Tag, fields[i].name);
            if c.None? then TagsLeft(goal, tags, a, s, at, fields, i + 1, left)
            else TagsLeft(goal, tags + TagAtoms(a, at, c.value, fields[i]), a, s, at, fields, i + 1, left - 1)
  {
    assert TagsLeftHere(goal, tags, a, s, at, fields, i, left, true);
    var c, j, rest := Child(s.fields, Tag, fields[i].name), i + 1, left - 1;
    if c.None? {
      assert forall now :: TagsLeftHere(goal, tags, a, s, at, fields, j, left, now);
    } else {
      var more := tags + TagAtoms(a, at, c.value, fields[i]);
      Assoc(tags, TagAtoms(a, at, c.value, fields[i]), CollectTags(a, s, at, fields, j, rest));
      assert forall now :: TagsLeftHere(goal, more, a, s, at, fields, j, rest, now);
    }
  }

  lemma TagsDone(goal: seq<Atom>, tags: seq<Atom>, a: Adapter, s: Spec, at: string, fields: seq<Field>, i: nat, left: nat)
    requires TagsLeft(goal, tags, a, s, at, fields, i, left) && (i == |fields| || left == 0)
    ensures goal == tags
  {
    assert TagsLeftHere(goal, tags, a, s, at, fields, i, left, true);
  }

  method TagPass(fieldsMap: map<string, SpecNode>, ghost a: Adapter, ghost s: Spec, ghost at: string,
                 fields: seq<Field>, tags: Slice) returns (r: Slice)
    requires LeafMap(fieldsMap, a, s, at, Tag) && InBounds(tags)
    modifies tags.arr
    ensures InBounds(r) && tags.len <= r.len && (r.arr == tags.arr || fresh(r.arr))
    ensures View(r) == old(View(tags)) + CollectTags(a, s, at, fields, 0, |fieldsMap|)
    ensures View(tags) == old(View(tags))
  {
    var target := |fieldsMap|;
    ghost var start, goal := View(tags), View(tags) + CollectTags(a, s, at, fields, 0, target);
    r := tags;
    assert forall now :: TagsLeftHere(goal, View(r), a, s, at, fields, 0, target, now);
    var collected, i := 0, 0;
    while i < |fields| && collected < target
      invariant i <= |fields| && collected <= target
      invariant InBounds(r) && tags.len <= r.len && (r.arr == tags.arr || fresh(r.arr))
      invariant View(tags) == start && TagsLeft(goal, View(r), a, s, at, fields, i, target - collected)
    {
      NextTag(goal, View(r), a, s, at, fields, i, target - collected);
      assert Resolves(fieldsMap, a, s, at, Tag, fields[i].name);
      if fields[i].name in fieldsMap {
        r := TagStep(tags, fieldsMap[fields[i].name], a, at, fields[i], r);
        collected := collected + 1;
      }
      i := i + 1;
    }
    TagsDone(goal, View(r), a, s, at, fields, i, target - collected);
  }

  method SensorField(fieldsMap: map<string, SpecNode>, ghost a: Adapter, ghost s: Spec, ghost at: string, field: Field, ts: nat,
                     tags: Slice, ctx: InfluxContext) returns (hit: bool, written: bool)
    requires Resolves(fieldsMap, a, s, at, Sensor, field.name)
    requires InBounds(tags) && ctx.Valid()
    modifies ctx
    ensures ctx.Valid() && ctx.log == old(ctx.log) + SensorStep(a, s, at, field, ts, View(tags))
    ensures hit <==> Child(s.fields, Sensor, field.name).Some?
    ensures written <==> HasReading(s, field)
  {
    ghost var tracked, atoms := TrackEvents(a, s, at, field, PickTs(field.timestamp, ts), View(tags)), SensorAtoms(a, s, at, field);
    if field.name !in fieldsMap {
      assert ctx.log + ([] + []) == ctx.log;
      return false, false;
    }
    hit := true;
    var child := fieldsMap[field.name];
    var ts' := PickTs(field.timestamp, ts);
    if child.track {
      ctx.TrackSensor(child.fqName, View(tags), ts');
    }
    var val := ExtractNative(field, false);
    written := val.Some?;
    if written {
      ctx.BuildMetric(View(tags), Atom(child.fqName, val), ts');
    }
    Assoc(old(ctx.log), tracked, BuildEvents(atoms, ts', View(tags)));
  }

  /** The sensor pass before field `i`: what it still has to append for the log to end as `goal`, and what it has seen. */
  ghost predicate SensorsLeft(goal: seq<Event>, log: seq<Event>, a: Adapter, s: Spec, at: string, fields: seq<Field>, i: nat, ts: nat,
                              tags: seq<Atom>, written: bool, last: nat) {
    forall now :: SensorsLeftHere(goal, log, a, s, at, fields, i, ts, tags, written, last, now)
  }

  ghost predicate SensorsLeftHere(goal: seq<Event>, log: seq<Event>, a: Adapter, s: Spec, at: string, fields: seq<Field>, i: nat, ts: nat,
                                  tags: seq<Atom>, written: bool, last: nat, now: bool) {
    now ==>
      && i <= |fields| && goal == log + Sensors(a, s, at, fields, i, ts, tags)
      && (written <==> WrittenBefore(s, fields, i)) && last == LastTsBefore(s, fields, i, ts)
  }

  lemma NextSensor(goal: seq<Event>, log: seq<Event>, a: Adapter, s: Spec, at: string, fields: seq<Field>, i: nat, ts: nat,
                   tags: seq<Atom>, written: bool, last: nat)
    requires i < |fields| && SensorsLeft(goal, log, a, s, at, fields, i, ts, tags, written, last)
    ensures SensorsLeft(goal, log + SensorStep(a, s, at, fields[i], ts, tags), a, s, at, fields, i + 1, ts, tags,
                        written || HasReading(s, fields[i]),
                        if Child(s.fields, Sensor, fields[i].name).Some? then PickTs(fields[i].timestamp, ts) else last)
  {
    assert SensorsLeftHere(goal, log, a, s, at, fields, i, ts, tags, written, last, true);
    var j, more := i + 1, log + SensorStep(a, s, at, fields[i], ts, tags);
    Assoc(log, SensorStep(a, s, at, fields[i], ts, tags), Sensors(a, s, at, fields, j, ts, tags));
    var written' := written || HasReading(s, fields[i]);
    var last' := if Child(s.fields, Sensor, fields[i].name).Some? then PickTs(fields[i].timestamp, ts) else last;
    assert forall now :: SensorsLeftHere(goal, more, a, s, at, fields, j, ts, tags, written', last', now);
  }

  lemma SensorsDone(goal: seq<Event>, log: seq<Event>, a: Adapter, s: Spec, at: string, fields: seq<Field>, ts: nat,
                    tags: seq<Atom>, written: bool, last: nat)
    requires SensorsLeft(goal, log, a, s, at, fields, |fields|, ts, tags, written, last)
    ensures goal == log && (written <==> Written(s, fields)) && last == LastTs(s, fields, ts)
  {
    assert SensorsLeftHere(goal, log, a, s, at, fields, |fields|, ts, tags, written, last, true);
  }

  method SensorPass(fieldsMap: map<string, SpecNode>, ghost a: Adapter, ghost s: Spec, ghost at: string,
                    fields: seq<Field>, timestamp: nat, tags: Slice, ctx: InfluxContext) returns (written: bool, ts: nat)
    requires LeafMap(fieldsMap, a, s, at, Sensor) && InBounds(tags) && ctx.Valid()
    modifies ctx
    ensures ctx.Valid() && ctx.log == old(ctx.log) + Sensors(a, s, at, fields, 0, timestamp, View(tags))
    ensures written <==> Written(s, fields)
    ensures ts == LastTs(s, fields, timestamp)
  {
    written, ts := false, 0;
    ghost var view := View(tags);
    ghost var goal := ctx.log + Sensors(a, s, at, fields, 0, timestamp, view);
    assert forall now :: SensorsLeftHere(goal, ctx.log, a, s, at, fields, 0, timestamp, view, false, 0, now);
    for i := 0 to |fields|
      invariant ctx.Valid() && SensorsLeft(goal, ctx.log, a, s, at, fields, i, timestamp, view, written, ts)
    {
      NextSensor(goal, ctx.log, a, s, at, fields, i, timestamp, view, written, ts);
      assert Resolves(fieldsMap, a, s, at, Sensor, fields[i].name);
      var hit, reading := SensorField(fieldsMap, a, s, at, fields[i], timestamp, tags, ctx);
      if hit {
        ts := PickTs(fields[i].timestamp, timestamp);
      }
      written := written || reading;
    }
    SensorsDone(goal, ctx.log, a, s, at, fields, timestamp, view, written, ts);
  }

  /** Tags, then sensors and their flush. */
  method OwnPass(node: SpecNode, ghost a: Adapter, fields: seq<Field>, timestamp: nat, tags: Slice, ctx: InfluxContext)
    returns (all: Slice)
    requires Tree(node) && Compiled(node, a) && InBounds(tags) && ctx.Valid()
    modifies tags.arr, ctx
    ensures InBounds(all) && tags.len <= all.len && (all.arr == tags.arr || fresh(all.arr))
    ensures View(all) == old(View(tags)) + CollectTags(a, node.spec, node.at, fields, 0, TagTarget(node.spec))
    ensures View(tags) == old(View(tags))
    ensures ctx.Valid() && ctx.log == old(ctx.log) + OwnEvents(a, node.spec, node.at, fields, timestamp, View(all))
  {
    CompiledLeafMap(node, a, Tag);
    CompiledLeafMap(node, a, Sensor);
    all := TagPass(node.byType.tags, a, node.spec, node.at, fields, tags);
    var written, ts := SensorPass(node.byType.sensors, a, node.spec, node.at, fields, timestamp, all, ctx);
    ghost var sensors := Sensors(a, node.spec, node.at, fields, 0, timestamp, View(all));
    if written {
      ctx.FlushMetric(View(all), ts);
    }
    Assoc(old(ctx.log), sensors, FlushEvents(node.spec, fields, timestamp, View(all)));
  }

  /**
   One node, its own part and then the containers below.  For every specification,
   field tree and slice, the calls made are those of `Visit` on the slice's value,
   and the caller's view of the tags is left as it was.
   */
  method ProduceForNode(node: SpecNode, ghost a: Adapter, fields: seq<Field>, timestamp: nat, tags: Slice, ctx: InfluxContext)
    requires Tree(node) && Compiled(node, a) && InBounds(tags) && ctx.Valid()
    modifies tags.arr, ctx
    ensures ctx.Valid()
    ensures ctx.log == old(ctx.log) + Visit(a, node.spec, node.at, fields, timestamp, old(View(tags)))
    ensures View(tags) == old(View(tags))
    decreases node.spec, 2
  {
    var all := OwnPass(node, a, fields, timestamp, tags, ctx);
    ghost var own := OwnEvents(a, node.spec, node.at, fields, timestamp, View(all));
    Assoc(old(ctx.log), own, Containers(a, node.spec, node.at, fields, 0, timestamp, View(all)));
    ContainerPass(node, a, fields, timestamp, tags, all, ctx);
  }

  method ContainerPass(node: SpecNode, ghost a: Adapter, fields: seq<Field>, timestamp: nat,
                       ghost base: Slice, tags: Slice, ctx: InfluxContext)
    requires Tree(node) && Compiled(node, a) && ctx.Valid()
    requires InBounds(tags) && InBounds(base) && base.len <= tags.len
    modifies tags.arr, ctx
    ensures ctx.Valid()
    ensures ctx.log == old(ctx.log) + Containers(a, node.spec, node.at, fields, 0, timestamp, old(View(tags)))
    ensures View(base) == old(View(base))
    decreases node.spec, 1
  {
    ghost var view, low := View(tags), View(base);
    ghost var start, all := ctx.log, Containers(a, node.spec, node.at, fields, 0, timestamp, view);
    ghost var done, todo := [], all;
    for i := 0 to |fields|
      invariant ctx.Valid() && View(tags) == view && View(base) == low
      invariant ctx.log == start + done
      invariant todo == Containers(a, node.spec, node.at, fields, i, timestamp, view)
      invariant all == done + todo
    {
      ghost var here := ContainerStep(a, node.spec, node.at, fields[i], timestamp, view);
      todo := Containers(a, node.spec, node.at, fields, i + 1, timestamp, view);
      ContainerField(node, a, fields[i], timestamp, base, tags, ctx);
      Advance(start, done, here, todo);
      done := done + here;
    }
  }

  method ContainerField(node: SpecNode, ghost a: Adapter, field: Field, timestamp: nat,
                        ghost base: Slice, tags: Slice, ctx: InfluxContext)
    requires Tree(node) && Compiled(node, a) && ctx.Valid()
    requires InBounds(tags) && InBounds(base) && base.len <= tags.len
    modifies tags.arr, ctx
    ensures ctx.Valid()
    ensures ctx.log == old(ctx.log) + ContainerStep(a, node.spec, node.at, field, timestamp, old(View(tags)))
    ensures View(tags) == old(View(tags)) && View(base) == old(View(base))
    decreases node.spec, 0
  {
    CompiledLookup(node, a, Container, field.name);
    if field.name in node.byType.containers {
      var child := node.byType.containers[field.name];
      if base.arr == tags.arr {
        ViewPrefix(base, tags);
      }
      ProduceForNode(child, a, Children(field), PickTs(field.timestamp, timestamp), tags, ctx);
      if base.arr == tags.arr {
        ViewPrefix(base, tags);
      }
    } else {
      assert ctx.log + [] == ctx.log;
    }
  }

  // ---------------------------------------------------------------------------
  // Rows and messages

  /** Appends the keys of a row to its tags. */
  method KeysPass(a: Adapter, keys: seq<Field>, ghost base: Slice, tags: Slice) returns (r: Slice)
    requires InBounds(base) && InBounds(tags) && base.len <= tags.len
    modifies tags.arr
    ensures InBounds(r) && tags.len <= r.len && (r.arr == tags.arr || fresh(r.arr))
    ensures View(r) == old(View(tags)) + KeyAtoms(a, keys)
    ensures View(base) == old(View(base))
  {
    r := tags;
    ghost var start, low := View(tags), View(base);
    for i := 0 to |keys|
      invariant InBounds(r) && tags.len <= r.len && (r.arr == tags.arr || fresh(r.arr))
      invariant View(r) == start + KeyAtoms(a, keys)[..i] && View(base) == low
    {
      r := AppendAbove(base, r, Atom(a.tag(keys[i].name), ExtractNative(keys[i], false)));
    }
  }

  method RowPass(node: SpecNode, a: Adapter, parts: seq<Field>, ts: nat, tags: Slice, ctx: InfluxContext)
    requires Tree(node) && Compiled(node, a) && node.at == Extend("", node.spec.name) && ctx.Valid() && InBounds(tags)
    modifies tags.arr, ctx
    ensures ctx.Valid() && ctx.log == old(ctx.log) + RowParts(a, node.spec, parts, 0, ts, old(View(tags)))
    ensures View(tags) == old(View(tags))
  {
    ghost var low, goal := View(tags), ctx.log + RowParts(a, node.spec, parts, 0, ts, View(tags));
    var copy := tags;
    assert forall now :: PartsLeftHere(goal, ctx.log, a, node.spec, parts, 0, ts, View(copy), now);
    for i := 0 to |parts|
      invariant ctx.Valid() && InBounds(copy) && tags.len <= copy.len && (copy.arr == tags.arr || fresh(copy.arr))
      invariant View(tags) == low && PartsLeft(goal, ctx.log, a, node.spec, parts, i, ts, View(copy))
    {
      ghost var log, view := ctx.log, View(copy);
      copy := RowPart(node, a, parts[i], ts, tags, copy, ctx);
      NextPart(goal, log, a, node.spec, parts, i, ts, view);
    }
    assert PartsLeftHere(goal, ctx.log, a, node.spec, parts, |parts|, ts, View(copy), true);
    assert ctx.log + [] == ctx.log;
  }

  /** What the parts of a row from `i` on still have to append to the log for it to end as `goal`. */
  ghost predicate PartsLeft(goal: seq<Event>, log: seq<Event>, a: Adapter, s: Spec, parts: seq<Field>, i: nat, ts: nat, tags: seq<Atom>) {
    forall now :: PartsLeftHere(goal, log, a, s, parts, i, ts, tags, now)
  }

  ghost predicate PartsLeftHere(goal: seq<Event>, log: seq<Event>, a: Adapter, s: Spec, parts: seq<Field>, i: nat, ts: nat, tags: seq<Atom>, now: bool) {
    now ==> i <= |parts| && goal == log + RowParts(a, s, parts, i, ts, tags)
  }

  lemma NextPart(goal: seq<Event>, log: seq<Event>, a: Adapter, s: Spec, parts: seq<Field>, i: nat, ts: nat, tags: seq<Atom>)
    requires i < |parts| && PartsLeft(goal, log, a, s, parts, i, ts, tags)
    ensures var all := PartTags(a, parts[i], tags);
            PartsLeft(goal, log + PartEvents(a, s, parts[i], ts, all), a, s, parts, i + 1, ts, all)
  {
    assert PartsLeftHere(goal, log, a, s, parts, i, ts, tags, true);
    var all, j := PartTags(a, parts[i], tags), i + 1;
    Assoc(log, PartEvents(a, s, parts[i], ts, all), RowParts(a, s, parts, j, ts, all));
    assert forall now :: PartsLeftHere(goal, log + PartEvents(a, s, parts[i], ts, all), a, s, parts, j, ts, all, now);
  }

  method RowPart(node: SpecNode, a: Adapter, part: Field, ts: nat, ghost base: Slice, tags: Slice, ctx: InfluxContext)
    returns (r: Slice)
    requires Tree(node) && Compiled(node, a) && node.at == Extend("", node.spec.name) && ctx.Valid()
    requires InBounds(base) && InBounds(tags) && base.len <= tags.len
    modifies tags.arr, ctx
    ensures InBounds(r) && tags.len <= r.len && (r.arr == tags.arr || fresh(r.arr))
    ensures View(r) == PartTags(a, part, old(View(tags)))
    ensures ctx.Valid() && ctx.log == old(ctx.log) + PartEvents(a, node.spec, part, ts, View(r))
    ensures View(base) == old(View(base))
  {
    r := tags;
    if part.name == "keys" {
      r := KeysPass(a, Children(part), base, tags);
    }
    ContentPart(node, a, part, ts, base, r, ctx);
  }

  method ContentPart(node: SpecNode, a: Adapter, part: Field, ts: nat, ghost base: Slice, tags: Slice, ctx: InfluxContext)
    requires Tree(node) && Compiled(node, a) && node.at == Extend("", node.spec.name) && ctx.Valid()
    requires InBounds(base) && InBounds(tags) && base.len <= tags.len
    modifies tags.arr, ctx
    ensures ctx.Valid() && ctx.log == old(ctx.log) + PartEvents(a, node.spec, part, ts, old(View(tags)))
    ensures View(tags) == old(View(tags)) && View(base) == old(View(base))
  {
    if part.name == "content" {
      if base.arr == tags.arr {
        ViewPrefix(base, tags);
      }
      ProduceForNode(node, a, Children(part), ts, tags, ctx);
      if base.arr == tags.arr {
        ViewPrefix(base, tags);
      }
    } else {
      assert ctx.log + [] == ctx.log;
    }
  }

  /** Every row restarts from the message's tags, in the array the rows before it have written to. */
  method RowsPass(node: SpecNode, a: Adapter, rows: seq<Field>, msgTs: nat, tags: Slice, ctx: InfluxContext)
    requires Tree(node) && Compiled(node, a) && node.at == Extend("", node.spec.name) && ctx.Valid() && InBounds(tags)
    modifies tags.arr, ctx
    ensures ctx.Valid() && ctx.log == old(ctx.log) + Rows(a, node.spec, rows, 0, msgTs, old(View(tags)))
    ensures View(tags) == old(View(tags))
  {
    ghost var start, low, all := ctx.log, View(tags), Rows(a, node.spec, rows, 0, msgTs, View(tags));
    ghost var done, todo := [], all;
    for i := 0 to |rows|
      invariant ctx.Valid() && View(tags) == low && ctx.log == start + done
      invariant todo == Rows(a, node.spec, rows, i, msgTs, low)
      invariant all == done + todo
    {
      var ts := PickTs(rows[i].timestamp, msgTs);
      ghost var here := RowParts(a, node.spec, Children(rows[i]), 0, ts, low);
      todo := Rows(a, node.spec, rows, i + 1, msgTs, low);
      RowPass(node, a, Children(rows[i]), ts, tags, ctx);
      Advance(start, done, here, todo);
      done := done + here;
    }
  }

  /** A decoded key/value message. */
  datatype KvMessage = KvMessage(encodingPath: string, nodeId: string, msgTimestamp: nat, rows: seq<Field>)

  function MessageTags(m: KvMessage, source: string): seq<Atom> {
    [Atom("EncodingPath", Some(StringValue(m.encodingPath))),
     Atom("Producer", Some(StringValue(if m.nodeId == "" then source else m.nodeId)))]
  }

  /** The index of compiled specifications a worker holds. */
  ghost predicate ReadyDB(db: map<string, SpecNode>, a: Adapter)
    reads set n, o | n in db.Values && o in n.repr :: o
  {
    forall b | b in db :: db[b].at == Extend("", db[b].spec.name) && Tree(db[b]) && Compiled(db[b], a)
  }

  /**
   A worker turns one message into points: none when its path has no specification,
   else one for each visit of the walk that reads a sensor.
   */
  method ProduceMetrics(db: map<string, SpecNode>, a: Adapter, m: KvMessage, source: string) returns (points: seq<Point>)
    requires ReadyDB(db, a)
    ensures points == if m.encodingPath !in db then []
                      else PointsOf(m.encodingPath,
                                    MessageVisits(a, db[m.encodingPath].spec, m.rows, 0, m.msgTimestamp, MessageTags(m, source)))
    ensures m.encodingPath in db ==>
              PointsMatch(m.encodingPath, MessageVisits(a, db[m.encodingPath].spec, m.rows, 0, m.msgTimestamp, MessageTags(m, source)), points)
  {
    var ctx := new InfluxContext(m.encodingPath);
    if m.encodingPath !in db {
      return [];
    }
    var node := db[m.encodingPath];
    var tags := MessageTags(m, source);
    var arr := new Atom[8](i => if 0 <= i < 2 then tags[i] else Atom("", None));
    var slice := Slice(arr, 2);
    assert View(slice) == tags;
    RowsPass(node, a, m.rows, m.msgTimestamp, slice, ctx);
    assert ctx.log == Rows(a, node.spec, m.rows, 0, m.msgTimestamp, tags);
    assert ctx.ValidHere(true);
    MessagePoints(m.encodingPath, a, node.spec, m.rows, 0, m.msgTimestamp, tags, []);
    points := ctx.points;
    PointsAreThose(m.encodingPath, MessageVisits(a, node.spec, m.rows, 0, m.msgTimestamp, tags));
  }

  /** Who a message came from: the node that says so, or else the peer it was received from. */
  predicate Producer(m: KvMessage, source: string, name: string) {
    (m.nodeId != "" ==> name == m.nodeId) && (m.nodeId == "" ==> name == source)
  }

  /** A tag that is the first of its name in a visit, and the last, is in the visit's point. */
  lemma TagShown(name: string, v: NodeVisit, p: Point, i: nat)
    requires PointOf(name, v, p) && i < |v.tags| && forall j | 0 <= j < |v.tags| && j != i :: v.tags[j].key != v.tags[i].key
    ensures v.tags[i].key in p.tags && p.tags[v.tags[i].key] == v.tags[i].val
  {
    var k := v.tags[i].key;
    assert KeyAt(v.tags)(i) == k && Gives(Always(), KeyAt(v.tags), |v.tags|, i, KeyAt(v.tags)(i));
    var j: nat :| GivesLast(Always(), KeyAt(v.tags), |v.tags|, j, k) && p.tags[k] == ValAt(v.tags)(j);
    assert KeyAt(v.tags)(j) == v.tags[j].key;
  }

  /**
   Every point of a message names the message's path and its producer, unless a tag of the
   same name comes later in the visit.
   */
  lemma EveryPointTagged(a: Adapter, s: Spec, m: KvMessage, source: string, v: NodeVisit, p: Point) returns (from: string)
    requires v in MessageVisits(a, s, m.rows, 0, m.msgTimestamp, MessageTags(m, source)) && PointOf(m.encodingPath, v, p)
    ensures p.name == m.encodingPath && Producer(m, source, from)
    ensures (forall j | 1 <= j < |v.tags| :: v.tags[j].key != "EncodingPath") ==>
              "EncodingPath" in p.tags && p.tags["EncodingPath"] == Some(StringValue(m.encodingPath))
    ensures (forall j | 2 <= j < |v.tags| :: v.tags[j].key != "Producer") ==>
              "Producer" in p.tags && p.tags["Producer"] == Some(StringValue(from))
  {
    var tags := MessageTags(m, source);
    MessageKeepsTags(a, s, m.rows, 0, m.msgTimestamp, tags, v);
    assert v.tags[0] == tags[0] && v.tags[1] == tags[1];
    from := if m.nodeId == "" then source else m.nodeId;
    if forall j | 1 <= j < |v.tags| :: v.tags[j].key != "EncodingPath" {
      TagShown(m.encodingPath, v, p, 0);
    }
    if forall j | 2 <= j < |v.tags| :: v.tags[j].key != "Producer" {
      TagShown(m.encodingPath, v, p, 1);
    }
  }
}
