/**
 A naive reading of the metrics walk: it searches the operator's specification
 directly and knows nothing of compiled maps, of the early exit of the tag pass, or
 of paths and timestamps handed down the recursion.  The compiled walk is measured
 against it.
 */
module MetricsNaive {
  import opened Common
  import opened Telemetry
  import opened MetricsSpec
  import opened MetricsTrace

  /** The names on the way from the root, joined; empty names are left out. */
  function JoinNames(names: seq<string>): string {
    if names == [] then ""
    else if names[0] == "" then JoinNames(names[1..])
    else
      var rest := JoinNames(names[1..]);
      if rest == "" then names[0] else names[0] + "__" + rest
  }

  /** The nearest nonzero timestamp of the enclosing message, row, containers and field, innermost last. */
  function Nearest(chain: seq<nat>): nat {
    if chain == [] then 0
    else if chain[|chain| - 1] != 0 then chain[|chain| - 1]
    else Nearest(chain[..|chain| - 1])
  }

  /** The child of type `t` called `name`, found by searching `Fields` from `i` on. */
  function Search(fields: seq<Spec>, i: nat, t: NodeType, name: string): (r: Option<Spec>)
    requires i <= |fields|
    ensures r.Some? ==> r.value in fields
    decreases |fields| - i
  {
    if i == |fields| then None
    else if fields[i].name == name && TypeOf(fields[i]) == t then Some(fields[i])
    else Search(fields, i + 1, t, name)
  }

  function Select(s: Spec, t: NodeType, f: Field): (r: Option<Spec>)
    ensures r.Some? ==> r.value in s.fields
  {
    Search(s.fields, 0, t, f.name)
  }

  function FqOf(a: Adapter, names: seq<string>, c: Spec): string {
    FqName(a, JoinNames(names + [c.name]), c)
  }

  /** The tags of a level: every tag field that has a value. */
  function NaiveTags(a: Adapter, s: Spec, names: seq<string>, fields: seq<Field>, i: nat): seq<Atom>
    requires i <= |fields|
    decreases |fields| - i
  {
    if i == |fields| then [] else NaiveTag(a, s, names, fields[i]) + NaiveTags(a, s, names, fields, i + 1)
  }

  function NaiveTag(a: Adapter, s: Spec, names: seq<string>, f: Field): seq<Atom> {
    var c := Select(s, Tag, f);
    if c.Some? && f.value.Some? then [Atom(FqOf(a, names, c.value), f.value)] else []
  }

  function NaiveSensor(a: Adapter, s: Spec, names: seq<string>, chain: seq<nat>, f: Field, tags: seq<Atom>): seq<Event> {
    var c := Select(s, Sensor, f);
    if c.None? then []
    else
      (if c.value.track then [Track(FqOf(a, names, c.value), tags, Nearest(chain + [f.timestamp]))] else [])
      + (if f.value.Some? then [Build(tags, Atom(FqOf(a, names, c.value), f.value), Nearest(chain + [f.timestamp]))] else [])
  }

  function NaiveSensors(a: Adapter, s: Spec, names: seq<string>, chain: seq<nat>, fields: seq<Field>, i: nat, tags: seq<Atom>): seq<Event>
    requires i <= |fields|
    decreases |fields| - i
  {
    if i == |fields| then []
    else NaiveSensor(a, s, names, chain, fields[i], tags) + NaiveSensors(a, s, names, chain, fields, i + 1, tags)
  }

  /** The last sensor field among the first `n`. */
  function LastSensor(s: Spec, fields: seq<Field>, n: nat): (r: Option<Field>)
    requires n <= |fields|
  {
    if n == 0 then None
    else if Select(s, Sensor, fields[n - 1]).Some? then Some(fields[n - 1])
    else LastSensor(s, fields, n - 1)
  }

  predicate Reads(s: Spec, fields: seq<Field>) {
    exists i :: 0 <= i < |fields| && Select(s, Sensor, fields[i]).Some? && fields[i].value.Some?
  }

  /** A level that reads a sensor is flushed once, with the timestamp of its last sensor field. */
  function NaiveFlush(s: Spec, chain: seq<nat>, fields: seq<Field>, tags: seq<Atom>): seq<Event> {
    var last := LastSensor(s, fields, |fields|);
    if Reads(s, fields) && last.Some? then [Flush(tags, Nearest(chain + [last.value.timestamp]))] else []
  }

  function NaiveVisit(a: Adapter, s: Spec, names: seq<string>, chain: seq<nat>, fields: seq<Field>, tags: seq<Atom>): seq<Event>
    decreases s, |fields| + 1
  {
    var all := tags + NaiveTags(a, s, names, fields, 0);
    NaiveSensors(a, s, names, chain, fields, 0, all) + NaiveFlush(s, chain, fields, all)
    + NaiveBelow(a, s, names, chain, fields, 0, all)
  }

  function NaiveBelow(a: Adapter, s: Spec, names: seq<string>, chain: seq<nat>, fields: seq<Field>, i: nat, tags: seq<Atom>): seq<Event>
    requires i <= |fields|
    decreases s, |fields| - i
  {
    if i == |fields| then []
    else NaiveContainer(a, s, names, chain, fields[i], tags) + NaiveBelow(a, s, names, chain, fields, i + 1, tags)
  }

  function NaiveContainer(a: Adapter, s: Spec, names: seq<string>, chain: seq<nat>, f: Field, tags: seq<Atom>): seq<Event>
    decreases s, 0
  {
    var c := Select(s, Container, f);
    if c.None? then []
    else NaiveVisit(a, c.value, names + [c.value.name], chain + [f.timestamp], Children(f), tags)
  }

  // ---------------------------------------------------------------------------
  // Names, timestamps and children

  lemma {:induction false} JoinSnoc(names: seq<string>, n: string)
    ensures JoinNames(names + [n]) == Extend(JoinNames(names), n)
  {
    if names == [] {
      assert [n][1..] == [];
    } else {
      assert (names + [n])[1..] == names[1..] + [n] && (names + [n])[0] == names[0];
      JoinSnoc(names[1..], n);
      var rest := JoinNames(names[1..]);
      if names[0] != "" && n != "" && rest != "" {
        assert names[0] + CONJOIN + (rest + CONJOIN + n) == (names[0] + CONJOIN + rest) + CONJOIN + n;
      }
    }
  }

  /** The node of a tree that is reached by taking these children in turn, and the names on the way to it. */
  ghost function Reach(n: SpecNode, path: seq<nat>): Option<SpecNode>
    decreases |path|
  {
    if path == [] then Some(n) else if path[0] < |n.fields| then Reach(n.fields[path[0]], path[1..]) else None
  }

  ghost function NamesTo(n: SpecNode, path: seq<nat>): seq<string>
    decreases |path|
  {
    [n.name] + if path == [] || path[0] >= |n.fields| then [] else NamesTo(n.fields[path[0]], path[1..])
  }

  /**
   What the compiler makes of every node of a tree: the type its flag and its children
   give it, and for a tag or a sensor the names on the way to it, joined and adapted as a
   tag's or a sensor's.
   */
  lemma {:induction false} NodeNames(n: SpecNode, a: Adapter, path: seq<nat>, above: seq<string>)
    requires Tree(n) && Compiled(n, a) && n.at == JoinNames(above + [n.name]) && Reach(n, path).Some?
    ensures var m, name := Reach(n, path).value, JoinNames(above + NamesTo(n, path));
            && m in n.repr
            && (m.nodeType == Tag <==> m.tag) && (m.nodeType == Container <==> !m.tag && m.fields != [])
            && (m.tag ==> m.fqName == a.tag(name)) && (!m.tag && m.fields == [] ==> m.fqName == a.sensor(name))
    decreases |path|
  {
    TreeRoot(n);
    if path == [] {
      CompiledNode(n, a, n);
      assert NamesTo(n, path) == [n.name];
    } else {
      var c, so := n.fields[path[0]], above + [n.name];
      TreeBelow(n, path[0]);
      JoinSnoc(so, c.name);
      assert Raw(c.repr, a) == {} by {
        assert forall m | m in c.repr :: m in n.repr;
        assert forall m | m in n.repr :: m !in Raw(n.repr, a);
      }
      NodeNames(c, a, path[1..], so);
      Assoc(above, [n.name], NamesTo(c, path[1..]));
    }
  }

  lemma NearestSnoc(chain: seq<nat>, t: nat)
    ensures Nearest(chain + [t]) == PickTs(t, Nearest(chain))
  {
    assert (chain + [t])[..|chain|] == chain;
  }

  predicate DistinctNames(s: Spec) {
    forall i, j | 0 <= i < j < |s.fields| :: s.fields[i].name != s.fields[j].name
  }

  /** With distinct sibling names, searching forwards finds the child the compiled maps hold. */
  lemma {:induction false} SearchIsLookup(s: Spec, i: nat, t: NodeType, name: string)
    requires i <= |s.fields| && DistinctNames(s)
    ensures Child(s.fields, t, name) == (var k := Lookup(s.fields, i, t, name); if k.Some? then Some(s.fields[k.value]) else Search(s.fields, i, t, name))
    decreases |s.fields| - i
  {
    if i < |s.fields| {
      SearchIsLookup(s, i + 1, t, name);
      var k := Lookup(s.fields, i, t, name);
      if k.Some? {
        assert s.fields[k.value].name != s.fields[i].name;
      }
    }
  }

  lemma SelectIsChild(s: Spec, t: NodeType, f: Field)
    requires DistinctNames(s)
    ensures Select(s, t, f) == Child(s.fields, t, f.name)
  {
    SearchIsLookup(s, 0, t, f.name);
  }

  // ---------------------------------------------------------------------------
  // The early exit of the tag pass

  predicate IsTag(s: Spec, f: Field) {
    Child(s.fields, Tag, f.name).Some?
  }

  /** The tags of a level without the early exit. */
  function AllTags(a: Adapter, s: Spec, at: string, fields: seq<Field>, i: nat): seq<Atom>
    requires i <= |fields|
    decreases |fields| - i
  {
    if i == |fields| then []
    else
      (if IsTag(s, fields[i]) then TagAtoms(a, at, Child(s.fields, Tag, fields[i].name).value, fields[i]) else [])
      + AllTags(a, s, at, fields, i + 1)
  }

  /** Where the tag pass stops: after `left` tag fields from `i` on, or at the end. */
  function Cut(s: Spec, fields: seq<Field>, i: nat, left: nat): (r: nat)
    requires i <= |fields|
    ensures i <= r <= |fields|
    decreases |fields| - i
  {
    if i == |fields| || left == 0 then i
    else Cut(s, fields, i + 1, if IsTag(s, fields[i]) then left - 1 else left)
  }

  /** What the early exit costs is exactly the tags beyond the cut. */
  lemma {:induction false} CutSplits(a: Adapter, s: Spec, at: string, fields: seq<Field>, i: nat, left: nat)
    requires i <= |fields|
    ensures AllTags(a, s, at, fields, i)
         == CollectTags(a, s, at, fields, i, left) + AllTags(a, s, at, fields, Cut(s, fields, i, left))
    decreases |fields| - i
  {
    if i < |fields| && left > 0 {
      CutSplits(a, s, at, fields, i + 1, if IsTag(s, fields[i]) then left - 1 else left);
    }
  }

  lemma {:induction false} NoTagsFrom(a: Adapter, s: Spec, at: string, fields: seq<Field>, i: nat)
    requires i <= |fields|
    ensures AllTags(a, s, at, fields, i) == [] <==>
            forall j | i <= j < |fields| :: !(IsTag(s, fields[j]) && fields[j].value.Some?)
    decreases |fields| - i
  {
    if i < |fields| {
      NoTagsFrom(a, s, at, fields, i + 1);
    }
  }

  /** The early exit loses nothing if and only if no tag field beyond the cut has a value. */
  lemma EarlyExitExact(a: Adapter, s: Spec, at: string, fields: seq<Field>, target: nat)
    ensures CollectTags(a, s, at, fields, 0, target) == AllTags(a, s, at, fields, 0) <==>
            forall j | Cut(s, fields, 0, target) <= j < |fields| :: !(IsTag(s, fields[j]) && fields[j].value.Some?)
  {
    var cut := Cut(s, fields, 0, target);
    CutSplits(a, s, at, fields, 0, target);
    NoTagsFrom(a, s, at, fields, cut);
  }

  /** No tag name repeats within the level. */
  predicate TagsOnce(s: Spec, fields: seq<Field>) {
    forall i, j | 0 <= i < j < |fields| && IsTag(s, fields[i]) && IsTag(s, fields[j]) :: fields[i].name != fields[j].name
  }

  lemma SubsetOfSameSize<T>(a: set<T>, b: set<T>)
    requires a <= b && |a| == |b|
    ensures a == b
  {
    assert |b - a| == 0;
  }

  /** When no tag name repeats there are at most as many tag fields as tag names, so none is beyond the cut. */
  lemma {:induction false} NoneBeyondCut(s: Spec, fields: seq<Field>, i: nat, seen: set<string>)
    requires i <= |fields| && TagsOnce(s, fields)
    requires seen <= NamesOfType(s.fields, |s.fields|, Tag) && |seen| <= TagTarget(s)
    requires forall j | i <= j < |fields| && IsTag(s, fields[j]) :: fields[j].name !in seen
    ensures forall j | Cut(s, fields, i, TagTarget(s) - |seen|) <= j < |fields| :: !IsTag(s, fields[j])
    decreases |fields| - i
  {
    var names := NamesOfType(s.fields, |s.fields|, Tag);
    if |seen| == |names| {
      SubsetOfSameSize(seen, names);
      forall j | i <= j < |fields| ensures !IsTag(s, fields[j]) {
        LookupNames(s.fields, |s.fields|, Tag, fields[j].name);
      }
    } else if i < |fields| {
      if IsTag(s, fields[i]) {
        LookupNames(s.fields, |s.fields|, Tag, fields[i].name);
        var seen' := seen + {fields[i].name};
        assert |seen'| == |seen| + 1;
        SubsetSize(seen', names);
        NoneBeyondCut(s, fields, i + 1, seen');
      } else {
        NoneBeyondCut(s, fields, i + 1, seen);
      }
    }
  }

  lemma SubsetSize<T>(a: set<T>, b: set<T>)
    requires a <= b
    ensures |a| <= |b|
  {
    assert b == a + (b - a);
  }

  /** A level whose tag names do not repeat loses no tag to the early exit. */
  lemma TagsOnceSuffices(a: Adapter, s: Spec, at: string, fields: seq<Field>)
    requires TagsOnce(s, fields)
    ensures CollectTags(a, s, at, fields, 0, TagTarget(s)) == AllTags(a, s, at, fields, 0)
  {
    NoneBeyondCut(s, fields, 0, {});
    EarlyExitExact(a, s, at, fields, TagTarget(s));
  }

  /** With a repeated tag name the early exit does lose a tag: the second "a" uses up the exit before "b" is met. */
  lemma RepeatedTagLosesOne(a: Adapter)
    ensures var s := Spec("", false, false, [Spec("a", true, false, []), Spec("b", true, false, [])]);
            var f := (n: string) => Field(0, n, Some(BoolValue(true)), NilSlice);
            var fields := [f("a"), f("a"), f("b")];
            CollectTags(a, s, "", fields, 0, TagTarget(s)) != AllTags(a, s, "", fields, 0)
  {
    var s := Spec("", false, false, [Spec("a", true, false, []), Spec("b", true, false, [])]);
    var f := (n: string) => Field(0, n, Some(BoolValue(true)), NilSlice);
    var fields := [f("a"), f("a"), f("b")];
    assert NamesOfType(s.fields, 1, Tag) == {"a"} by {
      assert NamesOfType(s.fields, 0, Tag) == {};
    }
    assert NamesOfType(s.fields, 2, Tag) == {"a", "b"};
    assert Lookup(s.fields, 2, Tag, "b") == Some(1);
    assert Lookup(s.fields, 1, Tag, "a") == Some(0) && Lookup(s.fields, 2, Tag, "a") == Some(0);
    EarlyExitExact(a, s, "", fields, 2);
    assert Cut(s, fields, 2, 0) == 2 && Cut(s, fields, 1, 1) == 2 && Cut(s, fields, 0, 2) == 2;
    assert IsTag(s, fields[2]) && fields[2].value.Some?;
  }

  // ---------------------------------------------------------------------------
  // The compiled walk is the naive walk

  /** No tag field with a value lies beyond the cut. */
  ghost predicate KeepsTags(s: Spec, fields: seq<Field>) {
    forall j | Cut(s, fields, 0, TagTarget(s)) <= j < |fields| :: !(IsTag(s, fields[j]) && fields[j].value.Some?)
  }

  /** The same at every level a walk reaches. */
  ghost predicate KeepsTagsBelow(s: Spec, fields: seq<Field>)
    decreases s, |fields| + 1
  {
    KeepsTags(s, fields) && KeepsTagsIn(s, fields, |fields|)
  }

  ghost predicate KeepsTagsIn(s: Spec, fields: seq<Field>, n: nat)
    requires n <= |fields|
    decreases s, n
  {
    n == 0 ||
    (&& KeepsTagsIn(s, fields, n - 1)
     && var c := Child(s.fields, Container, fields[n - 1].name);
     c.Some? ==> KeepsTagsBelow(c.value, Children(fields[n - 1])))
  }

  lemma {:induction false} KeepsTagsAt(s: Spec, fields: seq<Field>, n: nat, i: nat)
    requires i < n <= |fields| && KeepsTagsIn(s, fields, n)
    ensures var c := Child(s.fields, Container, fields[i].name); c.Some? ==> KeepsTagsBelow(c.value, Children(fields[i]))
  {
    if i < n - 1 {
      KeepsTagsAt(s, fields, n - 1, i);
    }
  }

  /** At every level a walk reaches, tag names do not repeat. */
  predicate TagsOnceBelow(s: Spec, fields: seq<Field>)
    decreases s, |fields| + 1
  {
    TagsOnce(s, fields) && TagsOnceIn(s, fields, |fields|)
  }

  predicate TagsOnceIn(s: Spec, fields: seq<Field>, n: nat)
    requires n <= |fields|
    decreases s, n
  {
    n == 0 ||
    (&& TagsOnceIn(s, fields, n - 1)
     && var c := Child(s.fields, Container, fields[n - 1].name);
     c.Some? ==> TagsOnceBelow(c.value, Children(fields[n - 1])))
  }

  /** Where tag names do not repeat, no tag is beyond the cut. */
  lemma {:induction false} TagsOnceKeeps(s: Spec, fields: seq<Field>)
    requires TagsOnceBelow(s, fields)
    ensures KeepsTagsBelow(s, fields)
    decreases s, |fields| + 1
  {
    NoneBeyondCut(s, fields, 0, {});
    TagsOnceKeepsIn(s, fields, |fields|);
  }

  lemma {:induction false} TagsOnceKeepsIn(s: Spec, fields: seq<Field>, n: nat)
    requires n <= |fields| && TagsOnceIn(s, fields, n)
    ensures KeepsTagsIn(s, fields, n)
    decreases s, n
  {
    if n > 0 {
      TagsOnceKeepsIn(s, fields, n - 1);
      var c := Child(s.fields, Container, fields[n - 1].name);
      if c.Some? {
        TagsOnceKeeps(c.value, Children(fields[n - 1]));
      }
    }
  }

  lemma DistinctBelow(s: Spec, c: Spec)
    requires DistinctSiblings(s) && c in s.fields
    ensures DistinctSiblings(c)
  {
  }

  lemma {:induction false} TagsAgree(a: Adapter, s: Spec, names: seq<string>, fields: seq<Field>, i: nat)
    requires i <= |fields| && DistinctNames(s)
    ensures AllTags(a, s, JoinNames(names), fields, i) == NaiveTags(a, s, names, fields, i)
    decreases |fields| - i
  {
    if i < |fields| {
      SelectIsChild(s, Tag, fields[i]);
      var c := Child(s.fields, Tag, fields[i].name);
      if c.Some? {
        JoinSnoc(names, c.value.name);
      }
      TagsAgree(a, s, names, fields, i + 1);
    }
  }

  lemma SensorAgrees(a: Adapter, s: Spec, names: seq<string>, chain: seq<nat>, f: Field, tags: seq<Atom>)
    requires DistinctNames(s)
    ensures SensorStep(a, s, JoinNames(names), f, Nearest(chain), tags) == NaiveSensor(a, s, names, chain, f, tags)
  {
    SelectIsChild(s, Sensor, f);
    NearestSnoc(chain, f.timestamp);
    var c := Child(s.fields, Sensor, f.name);
    if c.Some? {
      JoinSnoc(names, c.value.name);
    }
  }

  lemma {:induction false} SensorsAgree(a: Adapter, s: Spec, names: seq<string>, chain: seq<nat>, fields: seq<Field>, i: nat, tags: seq<Atom>)
    requires i <= |fields| && DistinctNames(s)
    ensures Sensors(a, s, JoinNames(names), fields, i, Nearest(chain), tags) == NaiveSensors(a, s, names, chain, fields, i, tags)
    decreases |fields| - i
  {
    if i < |fields| {
      SensorAgrees(a, s, names, chain, fields[i], tags);
      SensorsAgree(a, s, names, chain, fields, i + 1, tags);
    }
  }

  lemma {:induction false} WrittenReads(s: Spec, fields: seq<Field>, n: nat)
    requires n <= |fields| && DistinctNames(s)
    ensures WrittenBefore(s, fields, n) <==>
            exists i :: 0 <= i < n && Select(s, Sensor, fields[i]).Some? && fields[i].value.Some?
  {
    if n > 0 {
      SelectIsChild(s, Sensor, fields[n - 1]);
      WrittenReads(s, fields, n - 1);
    }
  }

  lemma {:induction false} LastAgrees(s: Spec, chain: seq<nat>, fields: seq<Field>, n: nat)
    requires n <= |fields| && DistinctNames(s)
    ensures var last := LastSensor(s, fields, n);
            && (last.Some? ==> LastTsBefore(s, fields, n, Nearest(chain)) == Nearest(chain + [last.value.timestamp]))
            && (WrittenBefore(s, fields, n) ==> last.Some?)
  {
    if n > 0 {
      SelectIsChild(s, Sensor, fields[n - 1]);
      NearestSnoc(chain, fields[n - 1].timestamp);
      LastAgrees(s, chain, fields, n - 1);
    }
  }

  /**
   For every specification with distinct sibling names and every field tree in which no
   tag with a value lies beyond the cut of its level, the walk over compiled maps makes
   the calls of the naive walk, in the same order and with the same tags, names and
   timestamps.
   */
  lemma {:induction false} WalkIsNaive(a: Adapter, s: Spec, names: seq<string>, chain: seq<nat>, fields: seq<Field>, tags: seq<Atom>)
    requires DistinctSiblings(s) && KeepsTagsBelow(s, fields)
    ensures Visit(a, s, JoinNames(names), fields, Nearest(chain), tags) == NaiveVisit(a, s, names, chain, fields, tags)
    decreases s, |fields| + 1
  {
    var at, ts := JoinNames(names), Nearest(chain);
    EarlyExitExact(a, s, at, fields, TagTarget(s));
    TagsAgree(a, s, names, fields, 0);
    var all := tags + NaiveTags(a, s, names, fields, 0);
    SensorsAgree(a, s, names, chain, fields, 0, all);
    WrittenReads(s, fields, |fields|);
    LastAgrees(s, chain, fields, |fields|);
    ContainersAreNaive(a, s, names, chain, fields, 0, all);
  }

  lemma {:induction false} ContainersAreNaive(a: Adapter, s: Spec, names: seq<string>, chain: seq<nat>, fields: seq<Field>, i: nat, tags: seq<Atom>)
    requires i <= |fields| && DistinctSiblings(s) && KeepsTagsBelow(s, fields)
    ensures Containers(a, s, JoinNames(names), fields, i, Nearest(chain), tags) == NaiveBelow(a, s, names, chain, fields, i, tags)
    decreases s, |fields| - i
  {
    if i < |fields| {
      SelectIsChild(s, Container, fields[i]);
      var c := Child(s.fields, Container, fields[i].name);
      if c.Some? {
        JoinSnoc(names, c.value.name);
        NearestSnoc(chain, fields[i].timestamp);
        DistinctBelow(s, c.value);
        KeepsTagsAt(s, fields, |fields|, i);
        WalkIsNaive(a, c.value, names + [c.value.name], chain + [fields[i].timestamp], Children(fields[i]), tags);
      }
      ContainersAreNaive(a, s, names, chain, fields, i + 1, tags);
    }
  }

  // Rows and messages: a row's chain is the message's timestamp, then its own.

  function NaiveRow(a: Adapter, s: Spec, chain: seq<nat>, parts: seq<Field>, i: nat, tags: seq<Atom>): seq<Event>
    requires i <= |parts|
    decreases |parts| - i
  {
    if i == |parts| then []
    else
      var all := PartTags(a, parts[i], tags);
      (if parts[i].name == "content" then NaiveVisit(a, s, [s.name], chain, Children(parts[i]), all) else [])
      + NaiveRow(a, s, chain, parts, i + 1, all)
  }

  function NaiveRows(a: Adapter, s: Spec, rows: seq<Field>, i: nat, msgTs: nat, tags: seq<Atom>): seq<Event>
    requires i <= |rows|
    decreases |rows| - i
  {
    if i == |rows| then []
    else NaiveRow(a, s, [msgTs, rows[i].timestamp], Children(rows[i]), 0, tags) + NaiveRows(a, s, rows, i + 1, msgTs, tags)
  }

  ghost predicate ContentKept(s: Spec, parts: seq<Field>) {
    forall i | 0 <= i < |parts| && parts[i].name == "content" :: KeepsTagsBelow(s, Children(parts[i]))
  }

  lemma {:induction false} RowIsNaive(a: Adapter, s: Spec, chain: seq<nat>, parts: seq<Field>, i: nat, tags: seq<Atom>)
    requires i <= |parts| && DistinctSiblings(s) && ContentKept(s, parts)
    ensures RowParts(a, s, parts, i, Nearest(chain), tags) == NaiveRow(a, s, chain, parts, i, tags)
    decreases |parts| - i
  {
    if i < |parts| {
      var all := PartTags(a, parts[i], tags);
      if parts[i].name == "content" {
        JoinSnoc([], s.name);
        assert [] + [s.name] == [s.name];
        WalkIsNaive(a, s, [s.name], chain, Children(parts[i]), all);
      }
      RowIsNaive(a, s, chain, parts, i + 1, all);
    }
  }

  /** The calls of a whole message are those of the naive walk of its rows. */
  lemma {:induction false} MessageIsNaive(a: Adapter, s: Spec, rows: seq<Field>, i: nat, msgTs: nat, tags: seq<Atom>)
    requires i <= |rows| && DistinctSiblings(s)
    requires forall j | 0 <= j < |rows| :: ContentKept(s, Children(rows[j]))
    ensures Rows(a, s, rows, i, msgTs, tags) == NaiveRows(a, s, rows, i, msgTs, tags)
    decreases |rows| - i
  {
    if i < |rows| {
      NearestSnoc([], msgTs);
      NearestSnoc([msgTs], rows[i].timestamp);
      assert [] + [msgTs] == [msgTs] && [msgTs] + [rows[i].timestamp] == [msgTs, rows[i].timestamp];
      RowIsNaive(a, s, [msgTs, rows[i].timestamp], Children(rows[i]), 0, tags);
      MessageIsNaive(a, s, rows, i + 1, msgTs, tags);
    }
  }

  predicate ContentOnce(s: Spec, parts: seq<Field>) {
    forall i | 0 <= i < |parts| && parts[i].name == "content" :: TagsOnceBelow(s, Children(parts[i]))
  }

  /** In particular for messages in which tag names do not repeat within a level. */
  lemma MessageTagsOnce(a: Adapter, s: Spec, rows: seq<Field>, msgTs: nat, tags: seq<Atom>)
    requires DistinctSiblings(s) && forall j | 0 <= j < |rows| :: ContentOnce(s, Children(rows[j]))
    ensures Rows(a, s, rows, 0, msgTs, tags) == NaiveRows(a, s, rows, 0, msgTs, tags)
  {
    forall j | 0 <= j < |rows| ensures ContentKept(s, Children(rows[j])) {
      var parts := Children(rows[j]);
      forall i | 0 <= i < |parts| && parts[i].name == "content" ensures KeepsTagsBelow(s, Children(parts[i])) {
        assert ContentOnce(s, parts);
        TagsOnceKeeps(s, Children(parts[i]));
      }
    }
    MessageIsNaive(a, s, rows, 0, msgTs, tags);
  }
}
