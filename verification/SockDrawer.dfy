/**
 The conversion of key/value telemetry into a tree for JSON and templates
 (telemetryKvToSockDrawer in codec_gpb.go).  Fields whose name repeats within a level
 are gathered in an array under the name extended by a suffix.
 */
module SockDrawer {
  import opened Common
  import opened Telemetry

  const SUFFIX := "_PIPELINE_EDIT"

  /**
   What a drawer may hold.  `Nil` is the absence of a value; `NilDrawer` is a nil
   pointer to a drawer, which the code does not treat as an absent value.
   */
  datatype Item = Nil | Leaf(v: Value) | NilDrawer | Drawer(entries: map<string, Item>) | Arr(items: seq<Item>)

  datatype Named = Named(name: string, item: Item)

  /** The two maps the loop updates: the drawer, and the names that have been moved to an array. */
  datatype State = State(s: map<string, Item>, placed: set<string>)

  /** One field of a level; `None` where a type assertion of the code panics. */
  function Step(st: State, x: Named): Option<State> {
    var exists' := x.name in st.s;
    var newName := x.name + SUFFIX;
    if x.name !in st.placed && !exists' then Some(st.(s := st.s[x.name := x.item]))
    else
      var moved := if exists' && x.name !in st.placed
                   then State(st.s[newName := Arr([st.s[x.name]])] - {x.name}, st.placed + {x.name}) else st;
      if x.item.Nil? then Some(moved)
      else if newName in moved.s && moved.s[newName].Arr?
      then Some(moved.(s := moved.s[newName := Arr(moved.s[newName].items + [x.item])]))
      else None
  }

  function Level(items: seq<Named>, n: nat): Option<State>
    requires n <= |items|
  {
    if n == 0 then Some(State(map[], {}))
    else
      var st := Level(items, n - 1);
      if st.None? then None else Step(st.value, items[n - 1])
  }

  // ---------------------------------------------------------------------------
  // Group by name

  /** The values the first `n` fields give to `name`, in order. */
  function Vals(items: seq<Named>, n: nat, name: string): seq<Item>
    requires n <= |items|
  {
    if n == 0 then []
    else Vals(items, n - 1, name) + if items[n - 1].name == name then [items[n - 1].item] else []
  }

  /** The first value and the later ones that are not nil. */
  function Kept(vals: seq<Item>): seq<Item> {
    if |vals| <= 1 then vals
    else
      var n := |vals| - 1;
      Kept(vals[..n]) + if vals[n].Nil? then [] else [vals[n]]
  }

  /** The name a key was made from, if it carries the suffix. */
  function Stem(key: string): Option<string> {
    if |key| >= |SUFFIX| && key[|key| - |SUFFIX|..] == SUFFIX then Some(key[..|key| - |SUFFIX|]) else None
  }

  lemma StemOf(name: string)
    ensures Stem(name + SUFFIX) == Some(name)
  {
    var key := name + SUFFIX;
    assert key[|key| - |SUFFIX|..] == SUFFIX && key[..|key| - |SUFFIX|] == name;
  }

  lemma StemBack(key: string)
    requires Stem(key).Some?
    ensures Stem(key).value + SUFFIX == key
  {
    assert key == key[..|key| - |SUFFIX|] + key[|key| - |SUFFIX|..];
  }

  /** A name that occurs once keeps its value; one that repeats has its values in an array under the longer name. */
  predicate GroupedName(s: map<string, Item>, items: seq<Named>, n: nat, name: string)
    requires n <= |items|
  {
    var v := Vals(items, n, name);
    && (|v| == 1 ==> name in s && s[name] == v[0])
    && (|v| >= 2 ==> name + SUFFIX in s && s[name + SUFFIX] == Arr(Kept(v)))
  }

  predicate Owned(items: seq<Named>, n: nat, key: string)
    requires n <= |items|
  {
    |Vals(items, n, key)| == 1 || (Stem(key).Some? && |Vals(items, n, Stem(key).value)| >= 2)
  }

  /** `s` is the group-by-name of the first `n` fields: every name is in its place and there is no other key. */
  ghost predicate Grouped(s: map<string, Item>, items: seq<Named>, n: nat)
    requires n <= |items|
  {
    && (forall name :: GroupedName(s, items, n, name))
    && (forall key | key in s :: Owned(items, n, key))
  }

  /**
   Field `k` collides with the key of another name: it is the first of its name and
   the name is already the array key of a repeated one, or it is the second of its
   name and the array key it needs is the name of a field that stands alone.
   */
  predicate Collides(items: seq<Named>, k: nat)
    requires k < |items|
  {
    var x := items[k].name;
    || (Vals(items, k, x) == [] && Stem(x).Some? && |Vals(items, k, Stem(x).value)| >= 2)
    || (|Vals(items, k, x)| == 1 && |Vals(items, k, x + SUFFIX)| == 1)
  }

  predicate NoCollision(items: seq<Named>, n: nat)
    requires n <= |items|
  {
    n == 0 || (NoCollision(items, n - 1) && !Collides(items, n - 1))
  }

  /** The state after `n` fields of a level without collisions. */
  ghost predicate Good(st: State, items: seq<Named>, n: nat)
    requires n <= |items|
  {
    && Grouped(st.s, items, n)
    && (forall name :: name in st.placed <==> |Vals(items, n, name)| >= 2)
  }

  lemma {:induction false} KeptSnoc(vals: seq<Item>, x: Item)
    requires vals != []
    ensures Kept(vals + [x]) == Kept(vals) + if x.Nil? then [] else [x]
  {
    assert (vals + [x])[..|vals|] == vals;
  }

  /** Converted fields are never arrays themselves. */
  predicate Plain(items: seq<Named>) {
    forall i | 0 <= i < |items| :: !items[i].item.Arr?
  }

  lemma {:induction false} ValsPlain(items: seq<Named>, n: nat, name: string)
    requires n <= |items| && Plain(items)
    ensures forall i | 0 <= i < |Vals(items, n, name)| :: !Vals(items, n, name)[i].Arr?
  {
    if n > 0 {
      ValsPlain(items, n - 1, name);
    }
  }

  /** In a grouped level a name that stands alone is not the array key of another. */
  lemma {:induction false} AloneNotArrayKey(s: map<string, Item>, items: seq<Named>, n: nat, name: string)
    requires n <= |items| && Plain(items)
    requires GroupedName(s, items, n, name) && GroupedName(s, items, n, name + SUFFIX)
    ensures !(|Vals(items, n, name)| >= 2 && |Vals(items, n, name + SUFFIX)| == 1)
  {
    ValsPlain(items, n, name + SUFFIX);
  }

  lemma {:induction false} FirstOfName(st: State, items: seq<Named>, k: nat)
    requires k < |items| && Good(st, items, k) && !Collides(items, k) && Vals(items, k, items[k].name) == []
    ensures var r := Step(st, items[k]); r.Some? && Good(r.value, items, k + 1)
  {
    var x, n := items[k], k + 1;
    assert !Owned(items, k, x.name);
    var s' := st.s[x.name := x.item];
    assert Step(st, x) == Some(State(s', st.placed));
    forall y ensures GroupedName(s', items, n, y) {
      assert GroupedName(st.s, items, k, y);
      StemOf(y);
      if y != x.name {
        assert Vals(items, n, y) == Vals(items, k, y);
      }
    }
    forall key | key in s' ensures Owned(items, n, key) {
      assert key in st.s ==> Owned(items, k, key);
    }
  }

  lemma {:induction false} SecondOfName(st: State, items: seq<Named>, k: nat)
    requires k < |items| && Plain(items) && Good(st, items, k) && !Collides(items, k) && |Vals(items, k, items[k].name)| == 1
    ensures var r := Step(st, items[k]); r.Some? && Good(r.value, items, k + 1)
  {
    var x, n, v := items[k], k + 1, Vals(items, k, items[k].name);
    var newName := x.name + SUFFIX;
    assert GroupedName(st.s, items, k, x.name);
    KeptSnoc(v, x.item);
    var s' := st.s[newName := Arr(Kept(v + [x.item]))] - {x.name};
    assert SUFFIX != "";
    assert |newName| > |x.name|;
    assert [st.s[x.name]] == v == Kept(v);
    var moved := st.s[newName := Arr(v)] - {x.name};
    assert v + [] == v;
    if x.item.Nil? {
      assert s' == moved;
    } else {
      assert s' == moved[newName := Arr(v + [x.item])];
    }
    assert Step(st, x) == Some(State(s', st.placed + {x.name}));
    StemOf(x.name);
    forall y ensures GroupedName(s', items, n, y) {
      assert GroupedName(st.s, items, k, y);
      StemOf(y);
      if y == x.name {
        assert Vals(items, n, y) == v + [x.item];
      } else {
        assert Vals(items, n, y) == Vals(items, k, y);
        if y + SUFFIX == x.name {
          AloneNotArrayKey(st.s, items, k, y);
        }
      }
    }
    forall key | key in s' ensures Owned(items, n, key) {
      assert key in st.s ==> Owned(items, k, key);
    }
  }

  /** Later fields of a name are added to its array. */
  lemma {:induction false} LaterStep(st: State, x: Named, kept: seq<Item>, more: seq<Item>)
    requires x.name in st.placed && x.name + SUFFIX in st.s && st.s[x.name + SUFFIX] == Arr(kept)
    requires more == kept + if x.item.Nil? then [] else [x.item]
    ensures Step(st, x) == Some(State(st.s[x.name + SUFFIX := Arr(more)], st.placed))
  {
    if x.item.Nil? {
      assert more == kept && st.s[x.name + SUFFIX := Arr(kept)] == st.s;
    }
  }

  lemma {:induction false} LaterGrouped(s: map<string, Item>, items: seq<Named>, k: nat, y: string)
    requires k < |items| && Plain(items) && |Vals(items, k, items[k].name)| >= 2 && GroupedName(s, items, k, y)
    requires GroupedName(s, items, k, items[k].name) && GroupedName(s, items, k, items[k].name + SUFFIX)
    ensures var x := items[k];
            GroupedName(s[x.name + SUFFIX := Arr(Kept(Vals(items, k, x.name) + [x.item]))], items, k + 1, y)
  {
    var x := items[k];
    StemOf(x.name);
    StemOf(y);
    if y == x.name {
      assert Vals(items, k + 1, y) == Vals(items, k, y) + [x.item];
    } else {
      assert Vals(items, k + 1, y) == Vals(items, k, y);
      if y == x.name + SUFFIX {
        AloneNotArrayKey(s, items, k, x.name);
      }
    }
  }

  lemma {:induction false} LaterOfName(st: State, items: seq<Named>, k: nat)
    requires k < |items| && Plain(items) && Good(st, items, k) && |Vals(items, k, items[k].name)| >= 2
    ensures var r := Step(st, items[k]); r.Some? && Good(r.value, items, k + 1)
  {
    var x, n, v := items[k], k + 1, Vals(items, k, items[k].name);
    var newName := x.name + SUFFIX;
    assert GroupedName(st.s, items, k, x.name) && GroupedName(st.s, items, k, newName);
    KeptSnoc(v, x.item);
    LaterStep(st, x, Kept(v), Kept(v + [x.item]));
    var s' := st.s[newName := Arr(Kept(v + [x.item]))];
    assert Step(st, x) == Some(State(s', st.placed));
    forall y ensures GroupedName(s', items, n, y) {
      LaterGrouped(st.s, items, k, y);
    }
    StemOf(x.name);
    forall key | key in s' ensures Owned(items, n, key) {
      assert key in st.s ==> Owned(items, k, key);
    }
  }

  /** One field that does not collide keeps the level grouped, and does not panic. */
  lemma {:induction false} GoodStep(st: State, items: seq<Named>, k: nat)
    requires k < |items| && Plain(items) && Good(st, items, k) && !Collides(items, k)
    ensures var r := Step(st, items[k]); r.Some? && Good(r.value, items, k + 1)
  {
    var v := Vals(items, k, items[k].name);
    if v == [] {
      FirstOfName(st, items, k);
    } else if |v| == 1 {
      SecondOfName(st, items, k);
    } else {
      LaterOfName(st, items, k);
    }
  }

  /** A level without collisions ends grouped by name. */
  lemma {:induction false} NoCollisionGroups(items: seq<Named>, n: nat)
    requires n <= |items| && Plain(items) && NoCollision(items, n)
    ensures Level(items, n).Some? && Good(Level(items, n).value, items, n)
  {
    if n == 0 {
      forall name ensures GroupedName(map[], items, 0, name) {
      }
    } else {
      NoCollisionGroups(items, n - 1);
      GoodStep(Level(items, n - 1).value, items, n - 1);
    }
  }

  // ---------------------------------------------------------------------------
  // The group-by-name of a level, as a map

  function KeyOf(items: seq<Named>, i: nat): string
    requires i < |items|
  {
    if |Vals(items, |items|, items[i].name)| == 1 then items[i].name else items[i].name + SUFFIX
  }

  function Keys(items: seq<Named>): set<string> {
    set i | 0 <= i < |items| :: KeyOf(items, i)
  }

  function ValueAt(items: seq<Named>, key: string): Item {
    var v := Vals(items, |items|, key);
    if |v| == 1 then v[0]
    else if Stem(key).Some? then Arr(Kept(Vals(items, |items|, Stem(key).value))) else Nil
  }

  /** Names that stand alone keep their value, repeated names have an array; a name that stands alone comes first. */
  function Group(items: seq<Named>): map<string, Item> {
    map key | key in Keys(items) :: ValueAt(items, key)
  }

  lemma {:induction false} NameOccurs(items: seq<Named>, n: nat, name: string) returns (i: nat)
    requires n <= |items| && Vals(items, n, name) != []
    ensures i < n && items[i].name == name
  {
    if items[n - 1].name == name {
      i := n - 1;
    } else {
      i := NameOccurs(items, n - 1, name);
    }
  }

  lemma {:induction false} ValsHas(items: seq<Named>, i: nat, n: nat)
    requires i < n <= |items|
    ensures Vals(items, n, items[i].name) != []
  {
    if i < n - 1 {
      ValsHas(items, i, n - 1);
    }
  }

  lemma {:induction false} KeysOwned(items: seq<Named>, key: string)
    ensures key in Keys(items) <==> Owned(items, |items|, key)
  {
    if key in Keys(items) {
      var i :| 0 <= i < |items| && KeyOf(items, i) == key;
      ValsHas(items, i, |items|);
      StemOf(items[i].name);
    }
    if Owned(items, |items|, key) {
      if |Vals(items, |items|, key)| == 1 {
        var i := NameOccurs(items, |items|, key);
        assert KeyOf(items, i) == key;
      } else {
        var i := NameOccurs(items, |items|, Stem(key).value);
        StemBack(key);
        assert KeyOf(items, i) == key;
      }
    }
  }

  /** There is one grouping of a level at most. */
  lemma {:induction false} GroupedIsGroup(s: map<string, Item>, items: seq<Named>)
    requires Grouped(s, items, |items|)
    ensures s == Group(items)
  {
    forall key ensures key in s <==> key in Group(items) {
      KeysOwned(items, key);
      assert GroupedName(s, items, |items|, key);
      if Stem(key).Some? {
        StemBack(key);
        assert GroupedName(s, items, |items|, Stem(key).value);
      }
    }
    forall key | key in s ensures s[key] == ValueAt(items, key) {
      assert Owned(items, |items|, key);
      assert GroupedName(s, items, |items|, key);
      if |Vals(items, |items|, key)| != 1 {
        StemBack(key);
        assert GroupedName(s, items, |items|, Stem(key).value);
      }
    }
  }

  // ---------------------------------------------------------------------------
  // A collision is never repaired

  /** Levels with the same names whose absent values are at the same places. */
  predicate SameShape(a: seq<Named>, b: seq<Named>) {
    |a| == |b| && forall i | 0 <= i < |a| :: a[i].name == b[i].name && (a[i].item.Nil? <==> b[i].item.Nil?)
  }

  lemma {:induction false} ShapeVals(a: seq<Named>, b: seq<Named>, n: nat, name: string)
    requires SameShape(a, b) && n <= |a|
    ensures |Vals(a, n, name)| == |Vals(b, n, name)|
    ensures forall i | 0 <= i < |Vals(a, n, name)| :: Vals(a, n, name)[i].Nil? <==> Vals(b, n, name)[i].Nil?
  {
    if n > 0 {
      ShapeVals(a, b, n - 1, name);
    }
  }

  lemma {:induction false} ShapeCollision(a: seq<Named>, b: seq<Named>, n: nat)
    requires SameShape(a, b) && n <= |a|
    ensures NoCollision(a, n) <==> NoCollision(b, n)
  {
    if n > 0 {
      ShapeCollision(a, b, n - 1);
      var x := a[n - 1].name;
      ShapeVals(a, b, n - 1, x);
      ShapeVals(a, b, n - 1, x + SUFFIX);
      if Stem(x).Some? {
        ShapeVals(a, b, n - 1, Stem(x).value);
      }
    }
  }

  /**
   The key `y` of a repeated name belongs to a field called `y` as well: the array
   stands where the field should, or has been moved away with it.
   */
  predicate Tainted(st: State, name: string) {
    var y := name + SUFFIX;
    name in st.placed && (y !in st.placed ==> y in st.s && st.s[y].Arr?) && (y in st.placed ==> y !in st.s)
  }

  lemma {:induction false} TaintedStep(st: State, x: Named, name: string)
    requires Tainted(st, name) && Step(st, x).Some?
    ensures Tainted(Step(st, x).value, name)
    ensures name + SUFFIX in Step(st, x).value.placed <==> name + SUFFIX in st.placed || x.name == name + SUFFIX
  {
    StemOf(x.name);
    StemOf(name);
  }

  /** From a tainted state on, either the conversion panics or the key stays tainted. */
  lemma {:induction false} TaintedLevel(items: seq<Named>, k: nat, n: nat, name: string)
    requires k <= n <= |items|
    requires Level(items, k).Some? && Tainted(Level(items, k).value, name)
    requires name + SUFFIX !in Level(items, k).value.placed
    ensures var y := name + SUFFIX;
            Level(items, n).Some? ==>
              && Tainted(Level(items, n).value, name)
              && (y in Level(items, n).value.placed <==> |Vals(items, n, y)| > |Vals(items, k, y)|)
    decreases n
  {
    if k < n {
      TaintedLevel(items, k, n - 1, name);
      ValsGrow(items, k, n - 1, name + SUFFIX);
      if Level(items, n).Some? {
        TaintedStep(Level(items, n - 1).value, items[n - 1], name);
      }
    }
  }

  lemma {:induction false} ValsGrow(items: seq<Named>, k: nat, n: nat, name: string)
    requires k <= n <= |items|
    ensures Vals(items, k, name) <= Vals(items, n, name)
    decreases n
  {
    if k < n {
      ValsGrow(items, k, n - 1, name);
    }
  }

  /** What is wrong at the end: `name` repeats, a field is called `name` with the suffix, and the drawer has lost one of them. */
  predicate Lost(s: map<string, Item>, items: seq<Named>, name: string) {
    var y := name + SUFFIX;
    var count := |Vals(items, |items|, y)|;
    |Vals(items, |items|, name)| >= 2 && count >= 1 && (y !in s || (s[y].Arr? && count == 1))
  }

  lemma {:induction false} LostNotGroup(s: map<string, Item>, items: seq<Named>, b: seq<Named>, name: string)
    requires Plain(b) && SameShape(items, b) && Lost(s, items, name)
    ensures s != Group(b)
  {
    var y := name + SUFFIX;
    ShapeVals(items, b, |b|, y);
    ShapeVals(items, b, |b|, name);
    StemOf(name);
    KeysOwned(b, y);
    ValsPlain(b, |b|, y);
  }

  /** What a level without collisions has for one name. */
  lemma {:induction false} GoodAt(items: seq<Named>, k: nat, name: string)
    requires k <= |items| && Plain(items) && NoCollision(items, k)
    ensures Level(items, k).Some? && GroupedName(Level(items, k).value.s, items, k, name)
    ensures name in Level(items, k).value.placed <==> |Vals(items, k, name)| >= 2
  {
    NoCollisionGroups(items, k);
  }

  /** A field whose name is the array key of a repeated one. */
  lemma {:induction false} FirstLoses(items: seq<Named>, k: nat, name: string)
    requires k < |items| && Plain(items) && NoCollision(items, k) && items[k].name == name + SUFFIX
    requires Vals(items, k, name + SUFFIX) == [] && |Vals(items, k, name)| >= 2
    ensures var r := Level(items, |items|); r.Some? ==> Lost(r.value.s, items, name)
  {
    GoodAt(items, k, name);
    GoodAt(items, k, name + SUFFIX);
    TaintedLevel(items, k, |items|, name);
    ValsGrow(items, k, |items|, name);
    ValsGrow(items, k + 1, |items|, name + SUFFIX);
  }

  /** A field that repeats a name whose array key is the name of a field that stands alone. */
  lemma {:induction false} SecondLoses(items: seq<Named>, k: nat, name: string)
    requires k < |items| && Plain(items) && NoCollision(items, k) && items[k].name == name
    requires |Vals(items, k, name)| == 1 && |Vals(items, k, name + SUFFIX)| == 1
    ensures var r := Level(items, |items|); r.Some? ==> Lost(r.value.s, items, name)
  {
    if Level(items, |items|).Some? {
      LevelPrefix(items, k + 1, |items|);
      SecondTaints(items, k, name);
      TaintedLevel(items, k + 1, |items|, name);
    }
    ValsGrow(items, k + 1, |items|, name);
    ValsGrow(items, k + 1, |items|, name + SUFFIX);
  }

  lemma {:induction false} SecondTaints(items: seq<Named>, k: nat, name: string)
    requires k < |items| && Plain(items) && NoCollision(items, k) && items[k].name == name && Level(items, k + 1).Some?
    requires |Vals(items, k, name)| == 1 && |Vals(items, k, name + SUFFIX)| == 1
    ensures Tainted(Level(items, k + 1).value, name) && name + SUFFIX !in Level(items, k + 1).value.placed
    ensures |Vals(items, k + 1, name)| == 2 && |Vals(items, k + 1, name + SUFFIX)| == 1
  {
    GoodAt(items, k, name);
    GoodAt(items, k, name + SUFFIX);
    assert |name + SUFFIX| > |name|;
  }

  /** The first collision loses a name for good. */
  lemma {:induction false} CollisionLoses(items: seq<Named>, k: nat) returns (name: string)
    requires k < |items| && Plain(items) && NoCollision(items, k) && Collides(items, k)
    ensures var r := Level(items, |items|); r.Some? ==> Lost(r.value.s, items, name)
  {
    name := items[k].name;
    if Vals(items, k, name) == [] {
      StemBack(name);
      name := Stem(name).value;
      FirstLoses(items, k, name);
    } else {
      SecondLoses(items, k, name);
    }
  }

  lemma {:induction false} LevelPrefix(items: seq<Named>, k: nat, n: nat)
    requires k <= n <= |items| && Level(items, n).Some?
    ensures Level(items, k).Some?
  {
    if k < n {
      LevelPrefix(items, k, n - 1);
    }
  }

  lemma {:induction false} FirstCollision(items: seq<Named>, n: nat) returns (k: nat)
    requires n <= |items| && !NoCollision(items, n)
    ensures k < n && NoCollision(items, k) && Collides(items, k)
  {
    if NoCollision(items, n - 1) {
      k := n - 1;
    } else {
      k := FirstCollision(items, n - 1);
    }
  }

  /** The loop groups a level by name if and only if no field of the level collides. */
  lemma {:induction false} GroupsExactly(items: seq<Named>)
    requires Plain(items)
    ensures (var r := Level(items, |items|); r.Some? && r.value.s == Group(items)) <==> NoCollision(items, |items|)
  {
    if NoCollision(items, |items|) {
      NoCollisionGroups(items, |items|);
      GroupedIsGroup(Level(items, |items|).value.s, items);
    } else {
      var k := FirstCollision(items, |items|);
      var name := CollisionLoses(items, k);
      if Level(items, |items|).Some? {
        LostNotGroup(Level(items, |items|).value.s, items, items, name);
      }
    }
  }

  // ---------------------------------------------------------------------------
  // The grouping determines the fields

  lemma SplitEqual(a: seq<Item>, b: seq<Item>, x: seq<Item>, y: seq<Item>)
    requires |a| == |b| && a + x == b + y
    ensures a == b && x == y
  {
    assert a == (a + x)[..|a|] && b == (b + y)[..|b|];
    assert x == (a + x)[|a|..] && y == (b + y)[|b|..];
  }

  function NotNil(x: Item): seq<Item> {
    if x.Nil? then [] else [x]
  }

  lemma LastDetermined(a: seq<Item>, b: seq<Item>, x: Item, y: Item)
    requires |a| == |b| && (x.Nil? <==> y.Nil?)
    ensures a + NotNil(x) == b + NotNil(y) ==> a == b && x == y
  {
    if a + NotNil(x) == b + NotNil(y) {
      SplitEqual(a, b, NotNil(x), NotNil(y));
      assert !x.Nil? ==> [x][0] == [y][0];
    }
  }

  /** `k` is what is kept of `u`. */
  predicate IsKept(u: seq<Item>, k: seq<Item>) {
    forall now :: IsKeptHere(u, k, now)
  }

  predicate IsKeptHere(u: seq<Item>, k: seq<Item>, now: bool) {
    now ==> k == Kept(u)
  }

  lemma KeptParts(u: seq<Item>, k: seq<Item>) returns (before: seq<Item>)
    requires IsKept(u, k) && |u| > 1
    ensures IsKept(u[..|u| - 1], before) && k == before + NotNil(u[|u| - 1])
  {
    assert IsKeptHere(u, k, true);
    var u' := u[..|u| - 1];
    before := Kept(u');
    var b := before;
    assert forall now :: IsKeptHere(u', b, now);
  }

  lemma {:induction false} KeptInjective(u: seq<Item>, v: seq<Item>, k: seq<Item>, l: seq<Item>)
    requires |u| == |v| && (forall i | 0 <= i < |u| :: u[i].Nil? <==> v[i].Nil?) && IsKept(u, k) && IsKept(v, l)
    ensures |k| == |l| && (k == l ==> u == v)
    decreases |u|
  {
    if |u| > 1 {
      var n := |u| - 1;
      var a := KeptParts(u, k);
      var b := KeptParts(v, l);
      KeptInjective(u[..n], v[..n], a, b);
      LastDetermined(a, b, u[n], v[n]);
      assert u == u[..n] + [u[n]] && v == v[..n] + [v[n]];
    } else {
      assert IsKeptHere(u, k, true) && IsKeptHere(v, l, true);
    }
  }

  lemma {:induction false} ValsInjective(a: seq<Named>, b: seq<Named>, n: nat)
    requires SameShape(a, b) && n <= |a|
    requires forall name :: Vals(a, n, name) == Vals(b, n, name)
    ensures a[..n] == b[..n]
  {
    if n > 0 {
      var m := n - 1;
      forall name ensures Vals(a, m, name) == Vals(b, m, name) {
        assert Vals(a, n, name) == Vals(b, n, name) && a[m].name == b[m].name;
        if name == a[m].name {
          assert Vals(a, m, name) == Vals(a, n, name)[..|Vals(a, n, name)| - 1];
          assert Vals(b, m, name) == Vals(b, n, name)[..|Vals(b, n, name)| - 1];
        } else {
          assert Vals(a, m, name) == Vals(a, n, name) && Vals(b, m, name) == Vals(b, n, name);
        }
      }
      ValsInjective(a, b, m);
      var x := a[n - 1].name;
      assert Vals(a, n, x)[|Vals(a, n, x)| - 1] == a[n - 1].item && Vals(b, n, x)[|Vals(b, n, x)| - 1] == b[n - 1].item;
      assert a[..n] == a[..n - 1] + [a[n - 1]] && b[..n] == b[..n - 1] + [b[n - 1]];
    }
  }

  lemma {:induction false} GroupedInjective(s: map<string, Item>, a: seq<Named>, b: seq<Named>)
    requires SameShape(a, b) && Grouped(s, a, |a|) && Grouped(s, b, |b|)
    ensures a == b
  {
    forall name ensures Vals(a, |a|, name) == Vals(b, |a|, name) {
      assert GroupedName(s, a, |a|, name) && GroupedName(s, b, |b|, name);
      ShapeVals(a, b, |a|, name);
      var u, v := Vals(a, |a|, name), Vals(b, |a|, name);
      var k, l := Kept(u), Kept(v);
      assert forall now :: IsKeptHere(u, k, now);
      assert forall now :: IsKeptHere(v, l, now);
      KeptInjective(u, v, k, l);
    }
    ValsInjective(a, b, |a|);
    assert a[..|a|] == a && b[..|b|] == b;
  }

  /** The loop run on `a` ends with the grouping of `b` only when the level has no collision and `a` is `b`. */
  lemma {:induction false} GroupsOnlyItself(a: seq<Named>, b: seq<Named>)
    requires Plain(a) && Plain(b) && SameShape(a, b)
    requires Level(a, |a|).Some? && Level(a, |a|).value.s == Group(b)
    ensures NoCollision(a, |a|) && a == b
  {
    ShapeCollision(a, b, |a|);
    if NoCollision(a, |a|) {
      NoCollisionGroups(a, |a|);
      NoCollisionGroups(b, |b|);
      GroupedIsGroup(Level(b, |b|).value.s, b);
      GroupedInjective(Group(b), a, b);
    } else {
      var k := FirstCollision(a, |a|);
      var name := CollisionLoses(a, k);
      LostNotGroup(Level(a, |a|).value.s, a, b, name);
    }
  }

  // ---------------------------------------------------------------------------
  // The whole tree

  /** What the loop stores for a field; `None` where converting its children panics. */
  function ConvertField(f: Field): Option<Item>
    decreases f, 0
  {
    if f.fields.NilSlice? then Some(if ExtractNative(f, false).Some? then Leaf(ExtractNative(f, false).value) else Nil)
    else ConvertFields(f.fields.list)
  }

  /** The named values of the first `n` fields. */
  function ConvertFirst(fs: seq<Field>, n: nat): (r: Option<seq<Named>>)
    requires n <= |fs|
    decreases fs, n
  {
    if n == 0 then Some([])
    else
      var before, x := ConvertFirst(fs, n - 1), ConvertField(fs[n - 1]);
      if before.None? || x.None? then None else Some(before.value + [Named(fs[n - 1].name, x.value)])
  }

  /** The conversion as the code carries it out; `None` where it panics. */
  function ConvertFields(fs: seq<Field>): Option<Item>
    decreases fs, |fs| + 1
  {
    if fs == [] then Some(NilDrawer)
    else
      var items := ConvertFirst(fs, |fs|);
      if items.None? || |items.value| != |fs| then None
      else
        var st := Level(items.value, |fs|);
        if st.None? then None else Some(Drawer(st.value.s))
  }

  /** The tree grouped by name at every level. */
  function GroupField(f: Field): Item
    decreases f, 0
  {
    if f.fields.NilSlice? then if ExtractNative(f, false).Some? then Leaf(ExtractNative(f, false).value) else Nil
    else GroupFields(f.fields.list)
  }

  function GroupFirst(fs: seq<Field>, n: nat): seq<Named>
    requires n <= |fs|
    decreases fs, n
  {
    if n == 0 then [] else GroupFirst(fs, n - 1) + [Named(fs[n - 1].name, GroupField(fs[n - 1]))]
  }

  function GroupFields(fs: seq<Field>): Item
    decreases fs, |fs| + 1
  {
    if fs == [] then NilDrawer else Drawer(Group(GroupFirst(fs, |fs|)))
  }

  /** No field of any level collides with the key of another name. */
  predicate Clean(fs: seq<Field>)
    decreases fs, 1
  {
    NoCollision(GroupFirst(fs, |fs|), |GroupFirst(fs, |fs|)|) && CleanBelow(fs)
  }

  predicate CleanBelow(fs: seq<Field>)
    decreases fs, 0
  {
    forall i | 0 <= i < |fs| && fs[i].fields.Fields? :: Clean(fs[i].fields.list)
  }

  lemma {:induction false} FieldShape(f: Field)
    ensures !GroupField(f).Arr?
    ensures ConvertField(f).Some? ==> !ConvertField(f).value.Arr? && (ConvertField(f).value.Nil? <==> GroupField(f).Nil?)
  {
    if f.fields.Fields? {
      var fs := f.fields.list;
      assert ConvertFields(fs).Some? ==> ConvertFields(fs).value.Drawer? || ConvertFields(fs).value.NilDrawer?;
    }
  }

  /** Both trees hold, for the same fields, values of the same kind under the same names. */
  lemma {:induction false} FirstShape(fs: seq<Field>, n: nat)
    requires n <= |fs|
    ensures var b := GroupFirst(fs, n);
            && |b| == n && Plain(b)
            && (forall i | 0 <= i < n :: b[i] == Named(fs[i].name, GroupField(fs[i])))
    ensures var a := ConvertFirst(fs, n);
            a.Some? ==>
              && |a.value| == n && Plain(a.value) && SameShape(a.value, GroupFirst(fs, n))
              && (forall i | 0 <= i < n :: ConvertField(fs[i]) == Some(a.value[i].item))
  {
    if n > 0 {
      FirstShape(fs, n - 1);
      FieldShape(fs[n - 1]);
    }
  }

  lemma {:induction false} FirstAgrees(fs: seq<Field>, n: nat)
    requires n <= |fs|
    requires forall i | 0 <= i < n :: ConvertField(fs[i]) == Some(GroupField(fs[i]))
    ensures ConvertFirst(fs, n) == Some(GroupFirst(fs, n))
  {
    if n > 0 {
      FirstAgrees(fs, n - 1);
    }
  }

  /**
   The conversion returns the tree that is grouped by name at every level if and only
   if no field of any level collides; otherwise it panics or returns another tree.
   */
  lemma {:induction false} ConvertsExactly(fs: seq<Field>)
    ensures ConvertFields(fs) == Some(GroupFields(fs)) <==> Clean(fs)
    decreases fs
  {
    forall i | 0 <= i < |fs| && fs[i].fields.Fields?
      ensures ConvertField(fs[i]) == Some(GroupField(fs[i])) <==> Clean(fs[i].fields.list)
    {
      ConvertsExactly(fs[i].fields.list);
    }
    assert CleanBelow(fs) <==> forall i | 0 <= i < |fs| && fs[i].fields.Fields? :: Clean(fs[i].fields.list);
    var b := GroupFirst(fs, |fs|);
    FirstShape(fs, |fs|);
    if fs != [] && Clean(fs) {
      FirstAgrees(fs, |fs|);
      GroupsExactly(b);
    } else if fs != [] && ConvertFields(fs) == Some(GroupFields(fs)) {
      GroupsOnlyItself(ConvertFirst(fs, |fs|).value, b);
    }
  }

  predicate Suffixed(items: seq<Named>, i: nat, j: nat)
    requires i < |items| && j < |items|
  {
    items[i].name == items[j].name + SUFFIX
  }

  /** No name of the level is another one with the suffix added. */
  predicate NoSuffixPair(items: seq<Named>) {
    forall i, j | 0 <= i < |items| && 0 <= j < |items| :: !Suffixed(items, i, j)
  }

  lemma {:induction false} NoSuffixVals(items: seq<Named>, k: nat)
    requires k < |items| && NoSuffixPair(items)
    ensures Stem(items[k].name).Some? ==> Vals(items, k, Stem(items[k].name).value) == []
    ensures Vals(items, k, items[k].name + SUFFIX) == []
  {
    var x := items[k].name;
    if Stem(x).Some? && Vals(items, k, Stem(x).value) != [] {
      var j := NameOccurs(items, k, Stem(x).value);
      StemBack(x);
      assert Suffixed(items, k, j);
    }
    if Vals(items, k, x + SUFFIX) != [] {
      var i := NameOccurs(items, k, x + SUFFIX);
      assert Suffixed(items, i, k);
    }
  }

  lemma NoSuffixClear(items: seq<Named>, k: nat)
    requires k < |items| && NoSuffixPair(items)
    ensures !Collides(items, k)
  {
    NoSuffixVals(items, k);
  }

  lemma {:induction false} NoSuffixPairSuffices(items: seq<Named>, n: nat)
    requires n <= |items| && NoSuffixPair(items)
    ensures NoCollision(items, n)
  {
    if n > 0 {
      NoSuffixPairSuffices(items, n - 1);
      NoSuffixClear(items, n - 1);
    }
  }

  /** Without such names the branch that is logged as an inconsistency is never taken. */
  lemma {:induction false} NeverInconsistent(items: seq<Named>, k: nat)
    requires k < |items| && Plain(items) && NoSuffixPair(items)
    ensures Level(items, k).Some?
    ensures !(items[k].name in Level(items, k).value.s && items[k].name in Level(items, k).value.placed)
  {
    NoSuffixPairSuffices(items, k);
    NoCollisionGroups(items, k);
    NoSuffixVals(items, k);
    var st, x := Level(items, k).value, items[k].name;
    assert x in st.s ==> Owned(items, k, x);
    assert x in st.placed <==> |Vals(items, k, x)| >= 2;
  }

  /** The values a drawer has for a name, read back. */
  function Ungroup(s: map<string, Item>, name: string): seq<Item> {
    if name in s && !s[name].Arr? then [s[name]]
    else if name + "_PIPELINE_EDIT" in s && s[name + "_PIPELINE_EDIT"].Arr? then s[name + "_PIPELINE_EDIT"].items
    else []
  }

  /** A drawer gives back the values of every name in order, short of the later ones that are nil. */
  lemma {:induction false} UngroupGivesBack(items: seq<Named>, name: string)
    requires Plain(items) && NoCollision(items, |items|)
    ensures Ungroup(Group(items), name) == Kept(Vals(items, |items|, name))
  {
    var n := |items|;
    LevelIsGroup(items);
    var s := Group(items);
    GoodAt(items, n, name);
    GoodAt(items, n, name + SUFFIX);
    OwnedAt(items, name);
    OwnedAt(items, name + SUFFIX);
    StemOf(name);
    ValsPlain(items, n, name);
    ValsPlain(items, n, name + SUFFIX);
    if Stem(name).Some? {
      StemBack(name);
      GoodAt(items, n, Stem(name).value);
    }
  }

  lemma LevelIsGroup(items: seq<Named>)
    requires Plain(items) && NoCollision(items, |items|)
    ensures Level(items, |items|).Some? && Level(items, |items|).value.s == Group(items)
  {
    NoCollisionGroups(items, |items|);
    GroupedIsGroup(Level(items, |items|).value.s, items);
  }

  lemma OwnedAt(items: seq<Named>, key: string)
    ensures key in Group(items) <==> Owned(items, |items|, key)
  {
    KeysOwned(items, key);
  }

  // ---------------------------------------------------------------------------
  // Leaves

  ghost function Leaves(item: Item): nat
    decreases item, 0
  {
    match item
    case Nil => 0
    case Leaf(_) => 1
    case NilDrawer => 0
    case Drawer(m) => MapLeaves(item, m.Keys)
    case Arr(items) => SeqLeaves(items, |items|)
  }

  /** The leaves below some of the keys of a drawer. */
  ghost function MapLeaves(d: Item, keys: set<string>): nat
    requires d.Drawer? && keys <= d.entries.Keys
    decreases d, 0, keys
  {
    if keys == {} then 0
    else
      var k :| k in keys;
      Leaves(d.entries[k]) + MapLeaves(d, keys - {k})
  }

  ghost function SeqLeaves(items: seq<Item>, n: nat): nat
    requires n <= |items|
    decreases items, n
  {
    if n == 0 then 0 else SeqLeaves(items, n - 1) + Leaves(items[n - 1])
  }

  lemma {:induction false} TakeKey(d: Item, keys: set<string>, k: string)
    requires d.Drawer? && keys <= d.entries.Keys && k in keys
    ensures MapLeaves(d, keys) == Leaves(d.entries[k]) + MapLeaves(d, keys - {k})
    decreases keys
  {
    var j :| j in keys && MapLeaves(d, keys) == Leaves(d.entries[j]) + MapLeaves(d, keys - {j});
    if j != k {
      TakeKey(d, keys - {j}, k);
      TakeKey(d, keys - {k}, j);
      assert keys - {j} - {k} == keys - {k} - {j};
    }
  }

  lemma {:induction false} SameLeaves(d: Item, e: Item, keys: set<string>)
    requires d.Drawer? && e.Drawer? && keys <= d.entries.Keys && keys <= e.entries.Keys
    requires forall k | k in keys :: d.entries[k] == e.entries[k]
    ensures MapLeaves(d, keys) == MapLeaves(e, keys)
    decreases keys
  {
    if keys != {} {
      var k :| k in keys;
      TakeKey(d, keys, k);
      TakeKey(e, keys, k);
      SameLeaves(d, e, keys - {k});
    }
  }

  lemma {:induction false} PutLeaves(m: map<string, Item>, k: string, v: Item)
    ensures Leaves(Drawer(m[k := v])) == Leaves(Drawer(m - {k})) + Leaves(v)
    ensures k in m ==> Leaves(Drawer(m)) == Leaves(Drawer(m - {k})) + Leaves(m[k])
  {
    var d, e, f := Drawer(m - {k}), Drawer(m[k := v]), Drawer(m);
    TakeKey(e, m[k := v].Keys, k);
    assert m[k := v].Keys - {k} == (m - {k}).Keys;
    SameLeaves(d, e, (m - {k}).Keys);
    if k in m {
      TakeKey(f, m.Keys, k);
      assert m.Keys - {k} == (m - {k}).Keys;
      SameLeaves(d, f, (m - {k}).Keys);
    }
  }

  lemma {:induction false} PrefixLeaves(items: seq<Item>, more: seq<Item>, n: nat)
    requires n <= |items|
    ensures SeqLeaves(items + more, n) == SeqLeaves(items, n)
  {
    if n > 0 {
      PrefixLeaves(items, more, n - 1);
      assert (items + more)[n - 1] == items[n - 1];
    }
  }

  lemma {:induction false} ArrLeaves(items: seq<Item>, x: Item)
    ensures Leaves(Arr(items + [x])) == Leaves(Arr(items)) + Leaves(x)
  {
    PrefixLeaves(items, [x], |items|);
    assert (items + [x])[|items|] == x;
  }

  /** Appending to the array stored under a key adds the leaves of what is appended. */
  lemma {:induction false} AppendLeaves(m: map<string, Item>, key: string, x: Item)
    requires key in m && m[key].Arr?
    ensures Leaves(Drawer(m[key := Arr(m[key].items + [x])])) == Leaves(Drawer(m)) + Leaves(x)
  {
    PutLeaves(m, key, Arr(m[key].items + [x]));
    ArrLeaves(m[key].items, x);
    assert m[key] == Arr(m[key].items);
  }

  /** Moving a value to the front of a new array keeps its leaves. */
  lemma {:induction false} MoveLeaves(m: map<string, Item>, name: string, key: string)
    requires name in m && key !in m
    ensures Leaves(Drawer(m[key := Arr([m[name]])] - {name})) == Leaves(Drawer(m))
  {
    PutLeaves(m, key, Arr([m[name]]));
    assert m - {key} == m;
    var m' := m[key := Arr([m[name]])];
    PutLeaves(m', name, Nil);
    ArrLeaves([], m[name]);
    assert [] + [m[name]] == [m[name]];
  }

  /** A step that does not collide adds the leaves of its field and loses none. */
  lemma {:induction false} StepLeaves(st: State, items: seq<Named>, k: nat)
    requires k < |items| && Plain(items) && Good(st, items, k) && !Collides(items, k)
    ensures var r := Step(st, items[k]);
            r.Some? && Leaves(Drawer(r.value.s)) == Leaves(Drawer(st.s)) + Leaves(items[k].item)
  {
    GoodStep(st, items, k);
    var x := items[k];
    var newName, v := x.name + SUFFIX, Vals(items, k, x.name);
    assert GroupedName(st.s, items, k, x.name);
    StemOf(x.name);
    assert x.name in st.placed <==> |v| >= 2;
    if v == [] {
      assert x.name in st.s ==> Owned(items, k, x.name);
      PutLeaves(st.s, x.name, x.item);
      assert st.s - {x.name} == st.s;
    } else {
      var m := st.s;
      if |v| == 1 {
        assert newName in st.s ==> Owned(items, k, newName);
        MoveLeaves(st.s, x.name, newName);
        m := st.s[newName := Arr([st.s[x.name]])] - {x.name};
      }
      if !x.item.Nil? {
        AppendLeaves(m, newName, x.item);
      }
    }
  }

  ghost function NamedLeaves(items: seq<Named>, n: nat): nat
    requires n <= |items|
  {
    if n == 0 then 0 else NamedLeaves(items, n - 1) + Leaves(items[n - 1].item)
  }

  lemma {:induction false} LevelLeaves(items: seq<Named>, n: nat)
    requires n <= |items| && Plain(items) && NoCollision(items, n)
    ensures Level(items, n).Some? && Leaves(Drawer(Level(items, n).value.s)) == NamedLeaves(items, n)
  {
    if n > 0 {
      LevelLeaves(items, n - 1);
      NoCollisionGroups(items, n - 1);
      StepLeaves(Level(items, n - 1).value, items, n - 1);
    }
  }

  /** How many fields of a tree carry a value. */
  ghost function ValueCount(fs: seq<Field>, n: nat): nat
    requires n <= |fs|
    decreases fs, n
  {
    if n == 0 then 0
    else
      var f := fs[n - 1];
      ValueCount(fs, n - 1) +
      if f.fields.Fields? then ValueCount(f.fields.list, |f.fields.list|) else if f.value.Some? then 1 else 0
  }

  lemma {:induction false} FirstLeaves(fs: seq<Field>, n: nat)
    requires n <= |fs| && CleanBelow(fs)
    ensures |GroupFirst(fs, n)| == n && NamedLeaves(GroupFirst(fs, n), n) == ValueCount(fs, n)
    decreases fs, n
  {
    if n > 0 {
      FirstLeaves(fs, n - 1);
      var f, b := fs[n - 1], GroupFirst(fs, n - 1);
      NamedSnoc(b, Named(f.name, GroupField(f)));
      FieldLeaves(f);
    }
  }

  lemma {:induction false} FieldLeaves(f: Field)
    requires f.fields.Fields? ==> Clean(f.fields.list)
    ensures Leaves(GroupField(f)) ==
            if f.fields.Fields? then ValueCount(f.fields.list, |f.fields.list|) else if f.value.Some? then 1 else 0
    decreases f, 0
  {
    if f.fields.Fields? {
      CleanKeepsLeaves(f.fields.list);
    }
  }

  lemma {:induction false} NamedPrefix(items: seq<Named>, more: seq<Named>, n: nat)
    requires n <= |items|
    ensures NamedLeaves(items + more, n) == NamedLeaves(items, n)
  {
    if n > 0 {
      NamedPrefix(items, more, n - 1);
    }
  }

  lemma {:induction false} NamedSnoc(items: seq<Named>, x: Named)
    ensures NamedLeaves(items + [x], |items| + 1) == NamedLeaves(items, |items|) + Leaves(x.item)
  {
    NamedPrefix(items, [x], |items|);
  }

  /** Nothing is lost or duplicated: without collisions the tree has one leaf for every field that carries a value. */
  lemma {:induction false} CleanKeepsLeaves(fs: seq<Field>)
    requires Clean(fs)
    ensures ConvertFields(fs).Some? && Leaves(ConvertFields(fs).value) == ValueCount(fs, |fs|)
    ensures ConvertFields(fs) == Some(GroupFields(fs))
    decreases fs, |fs| + 1
  {
    ConvertsExactly(fs);
    if fs != [] {
      var b := GroupFirst(fs, |fs|);
      FirstLeaves(fs, |fs|);
      FirstShape(fs, |fs|);
      LevelLeaves(b, |b|);
      GroupsExactly(b);
    }
  }

  // ---------------------------------------------------------------------------
  // What a drawer holds, field by field

  /** What is stored for a field: its value, or the drawer of its fields. */
  function Held(f: Field): Item {
    if f.fields.Fields? then if ConvertFields(f.fields.list).Some? then ConvertFields(f.fields.list).value else Nil
    else if f.value.Some? then Leaf(f.value.value) else Nil
  }

  function HeldAt(fs: seq<Field>): nat -> Item {
    (i: nat) => if i < |fs| then Held(fs[i]) else Nil
  }

  function NamedAt(fs: seq<Field>, name: string): nat -> bool {
    (i: nat) => i < |fs| && fs[i].name == name
  }

  /** Field `i` is called `name`, and is the first of that name or has a value. */
  ghost function KeptAt(fs: seq<Field>, name: string): nat -> bool {
    (i: nat) => NamedAt(fs, name)(i) && (Count(NamedAt(fs, name), i) == 0 || HeldAt(fs)(i) != Nil)
  }

  /** `items` are the fields with what is stored for them. */
  predicate ItemsOf(items: seq<Named>, fs: seq<Field>) {
    |items| == |fs| && forall i | 0 <= i < |fs| :: items[i] == Named(fs[i].name, Held(fs[i]))
  }

  lemma KeptNext(items: seq<Named>, fs: seq<Field>, name: string, m: nat)
    requires ItemsOf(items, fs) && m < |fs| && |Vals(items, m, name)| == Count(NamedAt(fs, name), m)
    ensures |Vals(items, m + 1, name)| == Count(NamedAt(fs, name), m + 1)
    ensures var kept := Kept(Vals(items, m, name));
            Kept(Vals(items, m + 1, name)) == if KeptAt(fs, name)(m) then kept + [HeldAt(fs)(m)] else kept
  {
    CountNext(NamedAt(fs, name), m);
    var v := Vals(items, m, name);
    assert NamedAt(fs, name)(m) == (items[m].name == name) && HeldAt(fs)(m) == items[m].item;
    if items[m].name == name {
      assert Vals(items, m + 1, name) == v + [items[m].item];
      if v != [] {
        KeptSnoc(v, items[m].item);
        assert Kept(v) + [] == Kept(v);
      } else {
        assert v + [items[m].item] == [items[m].item];
      }
    } else {
      assert Vals(items, m + 1, name) == v + [] == v;
    }
  }

  lemma {:induction false} KeptPicks(items: seq<Named>, fs: seq<Field>, name: string, n: nat)
    requires ItemsOf(items, fs) && n <= |fs|
    ensures |Vals(items, n, name)| == Count(NamedAt(fs, name), n)
    ensures Picks(HeldAt(fs), KeptAt(fs, name), n, Kept(Vals(items, n, name)))
  {
    if n == 0 {
      PicksNone(HeldAt(fs), KeptAt(fs, name));
      PicksNone(HeldAt(fs), NamedAt(fs, name));
    } else {
      KeptPicks(items, fs, name, n - 1);
      KeptNext(items, fs, name, n - 1);
      PicksNext(HeldAt(fs), KeptAt(fs, name), n - 1, Kept(Vals(items, n - 1, name)));
    }
  }

  lemma CleanItems(fs: seq<Field>) returns (items: seq<Named>)
    requires Clean(fs) && fs != []
    ensures ItemsOf(items, fs) && Plain(items) && NoCollision(items, |items|) && ConvertFields(fs) == Some(Drawer(Group(items)))
  {
    ConvertsExactly(fs);
    items := GroupFirst(fs, |fs|);
    FirstShape(fs, |fs|);
    forall i | 0 <= i < |fs| ensures items[i] == Named(fs[i].name, Held(fs[i])) {
      if fs[i].fields.Fields? {
        ConvertsExactly(fs[i].fields.list);
      }
    }
  }

  /**
   Where no level has a collision, a drawer holds for every name what its fields have, in
   order, short of later fields without a value: under the name itself when it occurs once,
   in an array under the longer name when it repeats, and under no other key.
   */
  lemma DrawerHolds(fs: seq<Field>, name: string)
    requires Clean(fs) && fs != []
    ensures ConvertFields(fs).Some? && ConvertFields(fs).value.Drawer?
    ensures var s, n := ConvertFields(fs).value.entries, Count(NamedAt(fs, name), |fs|);
            && (n == 1 ==> name in s && !s[name].Arr?)
            && (n >= 2 ==> name + "_PIPELINE_EDIT" in s && s[name + "_PIPELINE_EDIT"].Arr?)
            && Picks(HeldAt(fs), KeptAt(fs, name), |fs|, Ungroup(s, name))
  {
    var items := CleanItems(fs);
    KeptPicks(items, fs, name, |fs|);
    UngroupGivesBack(items, name);
    LevelIsGroup(items);
    GoodAt(items, |items|, name);
    ValsPlain(items, |items|, name);
  }

  lemma DrawerKeys(fs: seq<Field>, key: string) returns (i: nat)
    requires Clean(fs) && fs != [] && ConvertFields(fs).Some? && ConvertFields(fs).value.Drawer? && key in ConvertFields(fs).value.entries
    ensures i < |fs| && (key == fs[i].name || key == fs[i].name + "_PIPELINE_EDIT")
  {
    var items := CleanItems(fs);
    OwnedAt(items, key);
    if |Vals(items, |items|, key)| == 1 {
      i := NameOccurs(items, |items|, key);
    } else {
      i := NameOccurs(items, |items|, Stem(key).value);
      StemBack(key);
    }
  }

  /** There is no drawer at all if and only if there are no fields. */
  lemma NoFieldsNoDrawer(fs: seq<Field>)
    ensures ConvertFields(fs) == Some(NilDrawer) <==> fs == []
  {
  }

  /** Two ways a collision shows: a value disappears, or the conversion panics. */
  lemma CollisionExamples(v: Value)
    ensures var items := [Named("a" + SUFFIX, Leaf(v)), Named("a", Leaf(v)), Named("a", Leaf(v))];
            Level(items, 3).Some? && Level(items, 3).value.s == map["a" + SUFFIX := Arr([Leaf(v), Leaf(v)])]
    ensures var items := [Named("a", Leaf(v)), Named("a", Leaf(v)), Named("a" + SUFFIX, Leaf(v)), Named("a", Leaf(v))];
            Level(items, 4).None?
  {
    var x, y := Named("a", Leaf(v)), Named("a" + SUFFIX, Leaf(v));
    var pair := map["a" + SUFFIX := Arr([Leaf(v), Leaf(v)])];
    assert [Leaf(v)] + [Leaf(v)] == [Leaf(v), Leaf(v)];
    var one := [y, x, x];
    assert Level(one, 0) == Some(State(map[], {}));
    assert Level(one, 1) == Some(State(map["a" + SUFFIX := Leaf(v)], {}));
    assert Level(one, 2) == Some(State(map["a" + SUFFIX := Leaf(v), "a" := Leaf(v)], {}));
    var m := Level(one, 2).value.s;
    assert (m["a" + SUFFIX := Arr([Leaf(v)])] - {"a"})["a" + SUFFIX := Arr([Leaf(v), Leaf(v)])] == pair;
    assert Level(one, 3) == Some(State(pair, {} + {"a"}));
    var two := [x, x, y, x];
    assert Level(two, 0) == Some(State(map[], {}));
    assert Level(two, 1) == Some(State(map["a" := Leaf(v)], {}));
    m := Level(two, 1).value.s;
    assert (m["a" + SUFFIX := Arr([Leaf(v)])] - {"a"})["a" + SUFFIX := Arr([Leaf(v), Leaf(v)])] == pair;
    assert Level(two, 2) == Some(State(pair, {} + {"a"}));
    assert Level(two, 3).Some? && "a" + SUFFIX !in Level(two, 3).value.s && "a" in Level(two, 3).value.placed;
  }

  // ---------------------------------------------------------------------------
  // The loop

  lemma {:induction false} LevelPrefixOnly(items: seq<Named>, more: seq<Named>, n: nat)
    requires n <= |items|
    ensures Level(items + more, n) == Level(items, n)
  {
    if n > 0 {
      LevelPrefixOnly(items, more, n - 1);
    }
  }

  lemma {:induction false} ConvertFirstPrefix(fs: seq<Field>, k: nat, n: nat)
    requires k <= n <= |fs|
    ensures ConvertFirst(fs, k).None? ==> ConvertFirst(fs, n).None?
    ensures ConvertFirst(fs, n).Some? ==> ConvertFirst(fs, k).Some? && ConvertFirst(fs, k).value <= ConvertFirst(fs, n).value
    decreases n
  {
    if k < n {
      ConvertFirstPrefix(fs, k, n - 1);
    }
  }

  /** If the loop panics over the first `k` fields, so does the conversion. */
  lemma {:induction false} PanicStays(fs: seq<Field>, k: nat)
    requires k <= |fs|
    requires var items := ConvertFirst(fs, k); items.Some? ==> k <= |items.value| && Level(items.value, k).None?
    ensures fs != [] ==> ConvertFields(fs).None?
  {
    ConvertFirstPrefix(fs, k, |fs|);
    var all := ConvertFirst(fs, |fs|);
    if all.Some? && |all.value| == |fs| {
      var items := ConvertFirst(fs, k).value;
      assert all.value == items + all.value[|items|..];
      LevelPrefixOnly(items, all.value[|items|..], k);
      if Level(all.value, |fs|).Some? {
        LevelPrefix(all.value, k, |fs|);
      }
    }
  }

  /** The conversion, one field after another, with the two maps it updates; `None` is a panic. */
  method KvToSockDrawer(item: FieldSlice) returns (r: Option<Item>)
    ensures r == ConvertFields(if item.NilSlice? then [] else item.list)
    decreases item
  {
    if item.NilSlice? || |item.list| == 0 {
      return Some(NilDrawer);
    }
    var fs := item.list;
    var s: map<string, Item>, placeInArrayMap: set<string> := map[], {};
    ghost var items: seq<Named> := [];
    for i := 0 to |fs|
      invariant |items| == i && ConvertFirst(fs, i) == Some(items)
      invariant Level(items, i) == Some(State(s, placeInArrayMap))
    {
      var field := fs[i];
      var exists', placeInArray := field.name in s, field.name in placeInArrayMap;
      var fieldVal: Item;
      if field.fields.NilSlice? {
        var v := ExtractNative(field, false);
        fieldVal := if v.Some? then Leaf(v.value) else Nil;
      } else {
        var sub := KvToSockDrawer(field.fields);
        if sub.None? {
          PanicStays(fs, i + 1);
          return None;
        }
        fieldVal := sub.value;
      }
      ghost var x := Named(field.name, fieldVal);
      LevelPrefixOnly(items, [x], i);
      items := items + [x];
      assert Level(items, i + 1) == Step(State(s, placeInArrayMap), x);
      if !placeInArray && !exists' {
        s := s[field.name := fieldVal];
      } else {
        var newName := field.name + SUFFIX;
        if exists' && !placeInArray {
          s := s[newName := Arr([s[field.name]])];
          placeInArrayMap := placeInArrayMap + {field.name};
          s := s - {field.name};
          placeInArray := true;
        }
        if placeInArray && fieldVal != Nil {
          if newName !in s || !s[newName].Arr? {
            PanicStays(fs, i + 1);
            return None;
          }
          s := s[newName := Arr(s[newName].items + [fieldVal])];
        }
      }
    }
    r := Some(Drawer(s));
  }
}
