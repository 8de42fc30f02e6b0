/**
 What marshalling writes, said without the marshaller (jsonpb.go): how a message shows in a
 JSON tree under each of the four options, and what can be a number or a string there.
 */
module JsonPbShows {
  import opened Common
  import opened DecimalText
  import opened JsonPb

  // ---------------------------------------------------------------------------
  // How a message shows

  /** The name of a member: the one in the .proto file when that is asked for or there is no other. */
  predicate Called(opts: Options, n: Name, x: string) {
    && (opts.origName ==> x == n.orig)
    && (!opts.origName && n.json != "" ==> x == n.json)
    && (!opts.origName && n.json == "" ==> x == n.orig)
  }

  /** Enumerations are names unless numbers are asked for or there is no name; 64-bit integers are quoted unless asked not to be; others are numbers. */
  predicate ShowsInt(env: Env, opts: Options, k: Kind, n: int, j: Json) {
    match k
    case KEnum(e) =>
      if e in env.enums && n in env.enums[e].names && !opts.enumsAsInts then j == JString(env.enums[e].names[n])
      else j == JNum(IntText(n))
    case KInt64 => (opts.emitUint64Unquoted ==> j == JNum(IntText(n))) && (!opts.emitUint64Unquoted ==> j == JString(IntText(n)))
    case KUint64 => (opts.emitUint64Unquoted ==> j == JNum(IntText(n))) && (!opts.emitUint64Unquoted ==> j == JString(IntText(n)))
    case _ => j == JNum(IntText(n))
  }

  predicate ShowsFloat(env: Env, k: Kind, f: Float, j: Json) {
    match f
    case NaN => j == JString("NaN")
    case PosInf => j == JString("Infinity")
    case NegInf => j == JString("-Infinity")
    case _ => j == JNum(env.floatText(k, f))
  }

  predicate ShowsKey(key: Key, x: string) {
    match key
    case KeyBool(true) => x == "true"
    case KeyBool(false) => x == "false"
    case KeyInt(n) => x == IntText(n)
    case KeyString(s) => x == s
  }

  predicate Zero(v: Val) {
    v in {VBool(false), VInt(0), VFloat(Fin(0.0)), VFloat(NegZero), VString(""), VBytes(None), VNilMsg}
  }

  /** A field has a member unless it has the zero value of its type and those are not asked for; a oneof has one when it is set. */
  predicate Present(opts: Options, sv: SlotVal) {
    match sv
    case One(v) => opts.emitDefaults || !Zero(v)
    case NilList => opts.emitDefaults
    case NilMap => opts.emitDefaults
    case Unset => false
    case _ => true
  }

  function PresentAt(opts: Options, vals: seq<SlotVal>): nat -> bool {
    (i: nat) => i < |vals| && Present(opts, vals[i])
  }

  function NameFor(slot: Slot, sv: SlotVal): Name {
    match slot
    case Plain(name, _) => name
    case Oneof(oneof, alts) => if sv.Chosen? && sv.alt < |alts| then alts[sv.alt].name else Name(oneof, "")
  }

  ghost predicate ShowsVal(env: Env, opts: Options, k: Kind, v: Val, j: Json)
    decreases v, 0
  {
    match v
    case VBool(b) => j == JBool(b)
    case VInt(n) => ShowsInt(env, opts, k, n, j)
    case VFloat(f) => ShowsFloat(env, k, f, j)
    case VString(s) => j == JString(s)
    case VBytes(None) => j == JNull
    case VBytes(Some(b)) => j == JString(env.base64(b))
    case VNilMsg => j == JNull
    case VMsg(m) => k.KMsg? && ShowsMsg(env, opts, k.msg, m, j)
  }

  /** The members of an object are those of the fields that have one, in the order of the fields. */
  ghost predicate ShowsMsg(env: Env, opts: Options, ty: string, m: Msg, j: Json)
    decreases m, 2
  {
    && ty in env.types && |env.types[ty]| == |m.slots| && j.JObject?
    && var present := PresentAt(opts, m.slots);
       && |j.members| == Count(present, |m.slots|)
       && forall i | 0 <= i < |m.slots| && present(i) ::
            Count(present, i) < |j.members| && ShowsMember(env, opts, env.types[ty][i], m.slots[i], j.members[Count(present, i)])
  }

  ghost predicate ShowsMember(env: Env, opts: Options, slot: Slot, sv: SlotVal, x: Member)
    decreases sv, 2
  {
    Called(opts, NameFor(slot, sv), x.name) && ShowsSlot(env, opts, slot, sv, x.value)
  }

  ghost predicate ShowsSlot(env: Env, opts: Options, slot: Slot, sv: SlotVal, j: Json)
    decreases sv, 1
  {
    match slot
    case Oneof(_, alts) => sv.Chosen? && sv.alt < |alts| && ShowsVal(env, opts, alts[sv.alt].k, sv.v, j)
    case Plain(_, shape) =>
      match sv
      case One(v) => ShowsVal(env, opts, shape.k, v, j)
      case NilList => j == JArray([])
      case List(vs) => j.JArray? && |j.items| == |vs| && forall i | 0 <= i < |vs| :: ShowsVal(env, opts, shape.k, vs[i], j.items[i])
      case NilMap => j == JObject([])
      case Entries(entries) =>
        && j.JObject? && |j.members| == |SortedKeys(entries.Keys)|
        && forall i | 0 <= i < |j.members| :: ShowsEntry(env, opts, shape.k, sv, SortedKeys(entries.Keys)[i], j.members[i])
      case _ => false
  }

  ghost predicate ShowsEntry(env: Env, opts: Options, k: Kind, sv: SlotVal, key: Key, x: Member)
    decreases sv, 0
  {
    sv.Entries? && key in sv.entries && ShowsKey(key, x.name) && ShowsVal(env, opts, k, sv.entries[key], x.value)
  }

  // ---------------------------------------------------------------------------
  // What marshalling writes shows the message

  lemma PresentIs(opts: Options, sv: SlotVal)
    ensures Present(opts, sv) <==> !Omitted(opts, sv)
  {
  }

  ghost function MemberAt(env: Env, opts: Options, slots: seq<Slot>, vals: seq<SlotVal>): nat -> Member
    requires |slots| == |vals|
  {
    (i: nat) => if i < |vals| then Member(SlotName(opts, slots[i], vals[i]), MarshalSlot(env, opts, slots[i], vals[i])) else Member("", JNull)
  }

  lemma MembersNext(env: Env, opts: Options, slots: seq<Slot>, vals: seq<SlotVal>, m: nat)
    requires m < |slots| == |vals|
    ensures var before := Members(env, opts, slots, vals, m);
            Members(env, opts, slots, vals, m + 1) ==
            if PresentAt(opts, vals)(m) then before + [MemberAt(env, opts, slots, vals)(m)] else before
  {
    PresentIs(opts, vals[m]);
    assert PresentAt(opts, vals)(m) == Present(opts, vals[m]);
    assert MemberAt(env, opts, slots, vals)(m) == Member(SlotName(opts, slots[m], vals[m]), MarshalSlot(env, opts, slots[m], vals[m]));
  }

  lemma {:induction false} MembersPick(env: Env, opts: Options, slots: seq<Slot>, vals: seq<SlotVal>, n: nat)
    requires n <= |slots| == |vals|
    ensures Picks(MemberAt(env, opts, slots, vals), PresentAt(opts, vals), n, Members(env, opts, slots, vals, n))
  {
    var at, keep := MemberAt(env, opts, slots, vals), PresentAt(opts, vals);
    if n == 0 {
      PicksNone(at, keep);
    } else {
      MembersPick(env, opts, slots, vals, n - 1);
      MembersNext(env, opts, slots, vals, n - 1);
      PicksNext(at, keep, n - 1, Members(env, opts, slots, vals, n - 1));
    }
  }

  lemma {:induction false} ValShown(env: Env, opts: Options, k: Kind, v: Val)
    requires TypedVal(env, k, v)
    ensures ShowsVal(env, opts, k, v, MarshalVal(env, opts, k, v))
    decreases v, 0
  {
    if v.VMsg? {
      MessageShown(env, opts, k.msg, v.m);
    }
  }

  lemma {:induction false} ListShown(env: Env, opts: Options, k: Kind, vs: seq<Val>, r: seq<Json>)
    requires r == MarshalList(env, opts, k, vs, |vs|) && forall i | 0 <= i < |vs| :: TypedVal(env, k, vs[i])
    ensures forall i | 0 <= i < |vs| :: ShowsVal(env, opts, k, vs[i], r[i])
    decreases vs, 0
  {
    forall i | 0 <= i < |vs| ensures ShowsVal(env, opts, k, vs[i], r[i]) {
      ListAt(env, opts, k, vs, |vs|, i);
      ValShown(env, opts, k, vs[i]);
    }
  }

  lemma {:induction false} EntriesShown(env: Env, opts: Options, k: Kind, sv: SlotVal, keys: seq<Key>, r: seq<Member>)
    requires sv.Entries? && (forall i | 0 <= i < |keys| :: keys[i] in sv.entries) && r == MarshalEntries(env, opts, k, sv, keys, |keys|)
    requires forall x | x in sv.entries :: TypedVal(env, k, sv.entries[x])
    ensures forall i | 0 <= i < |keys| :: ShowsEntry(env, opts, k, sv, keys[i], r[i])
    decreases sv, 0
  {
    forall i | 0 <= i < |keys| ensures ShowsEntry(env, opts, k, sv, keys[i], r[i]) {
      EntriesAt(env, opts, k, sv, keys, |keys|, i);
      ValShown(env, opts, k, sv.entries[keys[i]]);
    }
  }

  lemma {:induction false} SlotShown(env: Env, opts: Options, slot: Slot, sv: SlotVal)
    requires TypedSlot(env, slot, sv) && Present(opts, sv)
    ensures ShowsSlot(env, opts, slot, sv, MarshalSlot(env, opts, slot, sv))
    decreases sv, 1
  {
    match sv
    case One(v) => ValShown(env, opts, slot.shape.k, v);
    case List(vs) => ListShown(env, opts, slot.shape.k, vs, MarshalList(env, opts, slot.shape.k, vs, |vs|));
    case Entries(entries) =>
      var keys := SortedKeys(entries.Keys);
      EntriesShown(env, opts, slot.shape.k, sv, keys, MarshalEntries(env, opts, slot.shape.k, sv, keys, |keys|));
    case Chosen(alt, v) => ValShown(env, opts, slot.alts[alt].k, v);
    case _ =>
  }

  /** Every typed message shows in what is written for it, under all options. */
  lemma {:induction false} MessageShown(env: Env, opts: Options, ty: string, m: Msg)
    requires TypedMsg(env, ty, m)
    ensures ShowsMsg(env, opts, ty, m, MarshalMsg(env, opts, ty, m))
    decreases m, 1
  {
    var slots, vals := env.types[ty], m.slots;
    MembersPick(env, opts, slots, vals, |vals|);
    forall i | 0 <= i < |vals| && Present(opts, vals[i])
      ensures ShowsMember(env, opts, slots[i], vals[i], MemberAt(env, opts, slots, vals)(i))
    {
      SlotShown(env, opts, slots[i], vals[i]);
    }
  }

  // ---------------------------------------------------------------------------
  // And nothing else shows it

  lemma {:induction false} ValOnly(env: Env, opts: Options, k: Kind, v: Val, j: Json)
    requires TypedVal(env, k, v) && ShowsVal(env, opts, k, v, j)
    ensures j == MarshalVal(env, opts, k, v)
    decreases v, 0
  {
    if v.VMsg? {
      MessageOnly(env, opts, k.msg, v.m, j);
    }
  }

  lemma {:induction false} ListOnly(env: Env, opts: Options, k: Kind, vs: seq<Val>, r: seq<Json>)
    requires |r| == |vs| && forall i | 0 <= i < |vs| :: TypedVal(env, k, vs[i]) && ShowsVal(env, opts, k, vs[i], r[i])
    ensures r == MarshalList(env, opts, k, vs, |vs|)
    decreases vs, 0
  {
    var items := MarshalList(env, opts, k, vs, |vs|);
    forall i | 0 <= i < |vs| ensures r[i] == items[i] {
      ListAt(env, opts, k, vs, |vs|, i);
      ValOnly(env, opts, k, vs[i], r[i]);
    }
  }

  lemma {:induction false} EntriesOnly(env: Env, opts: Options, k: Kind, sv: SlotVal, keys: seq<Key>, r: seq<Member>)
    requires sv.Entries? && |r| == |keys| && (forall x | x in sv.entries :: TypedVal(env, k, sv.entries[x]))
    requires forall i | 0 <= i < |keys| :: ShowsEntry(env, opts, k, sv, keys[i], r[i])
    ensures (forall i | 0 <= i < |keys| :: keys[i] in sv.entries) && r == MarshalEntries(env, opts, k, sv, keys, |keys|)
    decreases sv, 0
  {
    assert forall i | 0 <= i < |keys| :: ShowsEntry(env, opts, k, sv, keys[i], r[i]) && keys[i] in sv.entries;
    var members := MarshalEntries(env, opts, k, sv, keys, |keys|);
    forall i | 0 <= i < |keys| ensures r[i] == members[i] {
      EntriesAt(env, opts, k, sv, keys, |keys|, i);
      ValOnly(env, opts, k, sv.entries[keys[i]], r[i].value);
    }
  }

  lemma {:induction false} SlotOnly(env: Env, opts: Options, slot: Slot, sv: SlotVal, j: Json)
    requires TypedSlot(env, slot, sv) && ShowsSlot(env, opts, slot, sv, j)
    ensures j == MarshalSlot(env, opts, slot, sv)
    decreases sv, 1
  {
    match sv
    case One(v) => ValOnly(env, opts, slot.shape.k, v, j);
    case List(vs) => ListOnly(env, opts, slot.shape.k, vs, j.items);
    case Entries(entries) => EntriesOnly(env, opts, slot.shape.k, sv, SortedKeys(entries.Keys), j.members);
    case Chosen(alt, v) => ValOnly(env, opts, slot.alts[alt].k, v, j);
    case _ =>
  }

  lemma {:induction false} MessageOnly(env: Env, opts: Options, ty: string, m: Msg, j: Json)
    requires TypedMsg(env, ty, m) && ShowsMsg(env, opts, ty, m, j)
    ensures j == MarshalMsg(env, opts, ty, m)
    decreases m, 1
  {
    var slots, vals := env.types[ty], m.slots;
    var at, present := MemberAt(env, opts, slots, vals), PresentAt(opts, vals);
    forall i | 0 <= i < |vals| && present(i) ensures j.members[Count(present, i)] == at(i) {
      var x := j.members[Count(present, i)];
      assert ShowsMember(env, opts, slots[i], vals[i], x);
      SlotOnly(env, opts, slots[i], vals[i], x.value);
    }
    MembersPick(env, opts, slots, vals, |vals|);
    PicksOne(at, present, |vals|, j.members, Members(env, opts, slots, vals, |vals|));
  }

  /** A tree shows a typed message if and only if it is what is written for it. */
  lemma ShownExactly(env: Env, opts: Options, ty: string, m: Msg, j: Json)
    requires TypedMsg(env, ty, m)
    ensures ShowsMsg(env, opts, ty, m, j) <==> j == MarshalMsg(env, opts, ty, m)
  {
    MessageShown(env, opts, ty, m);
    if ShowsMsg(env, opts, ty, m, j) {
      MessageOnly(env, opts, ty, m, j);
    }
  }

  // ---------------------------------------------------------------------------
  // What can be a number or a string in the tree

  /** `x`, which is neither array nor object, is somewhere in the tree, map keys and member names aside. */
  predicate Occurs(j: Json, x: Json) {
    match j
    case JArray(items) => exists i :: 0 <= i < |items| && Occurs(items[i], x)
    case JObject(members) => exists i :: 0 <= i < |members| && Occurs(members[i].value, x)
    case _ => j == x
  }

  /** The scalar `w` of kind `l` is somewhere in the value. */
  predicate InsideVal(env: Env, k: Kind, v: Val, l: Kind, w: Val)
    decreases v, 0
  {
    if v.VMsg? then k.KMsg? && InsideMsg(env, k.msg, v.m, l, w) else (k, v) == (l, w)
  }

  predicate InsideMsg(env: Env, ty: string, m: Msg, l: Kind, w: Val)
    decreases m, 1
  {
    ty in env.types && |env.types[ty]| == |m.slots| && exists i :: 0 <= i < |m.slots| && InsideSlot(env, env.types[ty][i], m.slots[i], l, w)
  }

  predicate InsideSlot(env: Env, slot: Slot, sv: SlotVal, l: Kind, w: Val)
    decreases sv, 1
  {
    match sv
    case One(v) => slot.Plain? && InsideVal(env, slot.shape.k, v, l, w)
    case List(vs) => slot.Plain? && exists i :: 0 <= i < |vs| && InsideVal(env, slot.shape.k, vs[i], l, w)
    case Entries(entries) => slot.Plain? && exists x :: x in entries && InsideVal(env, slot.shape.k, entries[x], l, w)
    case Chosen(alt, v) => slot.Oneof? && alt < |slot.alts| && InsideVal(env, slot.alts[alt].k, v, l, w)
    case _ => false
  }

  /** What the leaf of the tree shows. */
  ghost predicate Leaf(env: Env, opts: Options, l: Kind, w: Val, x: Json) {
    !w.VMsg? && TypedVal(env, l, w) && ShowsVal(env, opts, l, w, x)
  }

  lemma {:induction false} ValLeaf(env: Env, opts: Options, k: Kind, v: Val, x: Json) returns (l: Kind, w: Val)
    requires TypedVal(env, k, v) && Occurs(MarshalVal(env, opts, k, v), x)
    ensures InsideVal(env, k, v, l, w) && Leaf(env, opts, l, w, x)
    decreases v, 0
  {
    if v.VMsg? {
      l, w := MessageLeaf(env, opts, k.msg, v.m, x);
    } else {
      l, w := k, v;
      ValShown(env, opts, k, v);
    }
  }

  lemma {:induction false} ListLeaf(env: Env, opts: Options, k: Kind, vs: seq<Val>, r: seq<Json>, x: Json) returns (i: nat, l: Kind, w: Val)
    requires r == MarshalList(env, opts, k, vs, |vs|) && (forall i | 0 <= i < |vs| :: TypedVal(env, k, vs[i])) && Occurs(JArray(r), x)
    ensures i < |vs| && InsideVal(env, k, vs[i], l, w) && Leaf(env, opts, l, w, x)
    decreases vs, 0
  {
    i :| 0 <= i < |r| && Occurs(r[i], x);
    ListAt(env, opts, k, vs, |vs|, i);
    l, w := ValLeaf(env, opts, k, vs[i], x);
  }

  lemma {:induction false} EntryLeaf(env: Env, opts: Options, k: Kind, sv: SlotVal, keys: seq<Key>, r: seq<Member>, x: Json)
    returns (key: Key, l: Kind, w: Val)
    requires sv.Entries? && (forall i | 0 <= i < |keys| :: keys[i] in sv.entries) && r == MarshalEntries(env, opts, k, sv, keys, |keys|)
    requires (forall y | y in sv.entries :: TypedVal(env, k, sv.entries[y])) && Occurs(JObject(r), x)
    ensures key in sv.entries && InsideVal(env, k, sv.entries[key], l, w) && Leaf(env, opts, l, w, x)
    decreases sv, 0
  {
    var i :| 0 <= i < |r| && Occurs(r[i].value, x);
    key := keys[i];
    EntriesAt(env, opts, k, sv, keys, |keys|, i);
    l, w := ValLeaf(env, opts, k, sv.entries[key], x);
  }

  lemma {:induction false} SlotLeaf(env: Env, opts: Options, slot: Slot, sv: SlotVal, x: Json) returns (l: Kind, w: Val)
    requires TypedSlot(env, slot, sv) && !sv.Unset? && Occurs(MarshalSlot(env, opts, slot, sv), x)
    ensures InsideSlot(env, slot, sv, l, w) && Leaf(env, opts, l, w, x)
    decreases sv, 1
  {
    match sv
    case One(v) =>
      l, w := ValLeaf(env, opts, slot.shape.k, v, x);
    case List(vs) =>
      var i;
      i, l, w := ListLeaf(env, opts, slot.shape.k, vs, MarshalList(env, opts, slot.shape.k, vs, |vs|), x);
    case Entries(entries) =>
      var keys := SortedKeys(entries.Keys);
      var key;
      key, l, w := EntryLeaf(env, opts, slot.shape.k, sv, keys, MarshalEntries(env, opts, slot.shape.k, sv, keys, |keys|), x);
    case Chosen(alt, v) =>
      l, w := ValLeaf(env, opts, slot.alts[alt].k, v, x);
    case _ =>
      assert false;
  }

  /** Every member comes from a slot. */
  lemma {:induction false} MemberFrom(env: Env, opts: Options, slots: seq<Slot>, vals: seq<SlotVal>, n: nat, k: nat) returns (i: nat)
    requires n <= |slots| == |vals| && k < |Members(env, opts, slots, vals, n)|
    ensures i < n && !Omitted(opts, vals[i])
    ensures Members(env, opts, slots, vals, n)[k].value == MarshalSlot(env, opts, slots[i], vals[i])
  {
    if k < |Members(env, opts, slots, vals, n - 1)| {
      i := MemberFrom(env, opts, slots, vals, n - 1, k);
    } else {
      i := n - 1;
    }
  }

  /** Every number and string in the tree shows a scalar of the message. */
  lemma {:induction false} MessageLeaf(env: Env, opts: Options, ty: string, m: Msg, x: Json) returns (l: Kind, w: Val)
    requires TypedMsg(env, ty, m) && Occurs(MarshalMsg(env, opts, ty, m), x)
    ensures InsideMsg(env, ty, m, l, w) && Leaf(env, opts, l, w, x)
    decreases m, 1
  {
    var slots, vals := env.types[ty], m.slots;
    var members := Members(env, opts, slots, vals, |vals|);
    var k :| 0 <= k < |members| && Occurs(members[k].value, x);
    var i := MemberFrom(env, opts, slots, vals, |vals|, k);
    l, w := SlotLeaf(env, opts, slots[i], vals[i], x);
  }

  /** Unless integers of 64 bits are asked for without quotes, a number is a floating point number or an integer of 32 bits, signed or not. */
  lemma NoWideNumbers(env: Env, opts: Options, ty: string, m: Msg, t: string)
    requires TypedMsg(env, ty, m) && !opts.emitUint64Unquoted && Occurs(MarshalMsg(env, opts, ty, m), JNum(t))
    ensures (exists k, f :: t == env.floatText(k, f)) || (exists n :: -0x8000_0000 <= n < 0x1_0000_0000 && t == IntText(n))
  {
    var l, w := MessageLeaf(env, opts, ty, m, JNum(t));
    if w.VFloat? {
      assert t == env.floatText(l, w.f);
    } else {
      assert w.VInt? && t == IntText(w.n);
    }
  }

  /**
   What stands in quotes is a string, bytes, a number that is not finite, an enumeration
   unless numbers are asked for, or an integer of 64 bits unless those are asked for
   without.
   */
  lemma WhatIsQuoted(env: Env, opts: Options, ty: string, m: Msg, s: string) returns (l: Kind, w: Val)
    requires TypedMsg(env, ty, m) && Occurs(MarshalMsg(env, opts, ty, m), JString(s))
    ensures InsideMsg(env, ty, m, l, w) && Leaf(env, opts, l, w, JString(s))
    ensures w.VInt? ==> (l.KEnum? && !opts.enumsAsInts) || ((l.KInt64? || l.KUint64?) && !opts.emitUint64Unquoted)
    ensures w.VFloat? ==> w.f in {NaN, PosInf, NegInf}
    ensures w.VInt? || w.VFloat? || w.VString? || w.VBytes?
  {
    l, w := MessageLeaf(env, opts, ty, m, JString(s));
  }

  /** When defaults are asked for, every field has a member. */
  lemma EveryFieldShown(env: Env, opts: Options, ty: string, m: Msg, i: nat) returns (k: nat)
    requires TypedMsg(env, ty, m) && opts.emitDefaults && i < |m.slots| && env.types[ty][i].Plain?
    ensures var members := MarshalMsg(env, opts, ty, m).members;
            k < |members| && Called(opts, env.types[ty][i].name, members[k].name)
  {
    MessageShown(env, opts, ty, m);
    k := Count(PresentAt(opts, m.slots), i);
    assert TypedSlot(env, env.types[ty][i], m.slots[i]);
    assert ShowsMember(env, opts, env.types[ty][i], m.slots[i], MarshalMsg(env, opts, ty, m).members[k]);
  }

  // ---------------------------------------------------------------------------
  // The order of map keys

  /** The first difference, or the end of the first text, decides. */
  ghost predicate Comes(a: string, b: string) {
    exists k :: 0 <= k <= |a| && k < |b| && a[..k] == b[..k] && (k < |a| ==> a[k] < b[k])
  }

  lemma ComesAt(a: string, b: string, k: nat)
    requires k <= |a| && k < |b| && a[..k] == b[..k] && (k < |a| ==> a[k] < b[k])
    ensures Comes(a, b)
  {
  }

  lemma {:induction false} StringLessIs(a: string, b: string)
    ensures StringLess(a, b) <==> Comes(a, b)
    decreases |a|
  {
    if StringLess(a, b) {
      var k := FirstDifference(a, b);
      ComesAt(a, b, k);
    }
    if Comes(a, b) {
      var k :| 0 <= k <= |a| && k < |b| && a[..k] == b[..k] && (k < |a| ==> a[k] < b[k]);
      DifferenceDecides(a, b, k);
    }
  }

  lemma {:induction false} FirstDifference(a: string, b: string) returns (k: nat)
    requires StringLess(a, b)
    ensures k <= |a| && k < |b| && a[..k] == b[..k] && (k < |a| ==> a[k] < b[k])
    decreases |a|
  {
    k := 0;
    if a != "" && a[0] == b[0] {
      k := FirstDifference(a[1..], b[1..]);
      assert a[..k + 1] == [a[0]] + a[1..][..k] && b[..k + 1] == [b[0]] + b[1..][..k];
      k := k + 1;
    }
  }

  lemma {:induction false} DifferenceDecides(a: string, b: string, k: nat)
    requires k <= |a| && k < |b| && a[..k] == b[..k] && (k < |a| ==> a[k] < b[k])
    ensures StringLess(a, b)
    decreases k
  {
    if k > 0 {
      assert a[0] == a[..k][0] == b[..k][0] == b[0];
      assert a[1..][..k - 1] == a[..k][1..] == b[..k][1..] == b[1..][..k - 1];
      DifferenceDecides(a[1..], b[1..], k - 1);
    }
  }

  /** Numbers come in numeric order, texts in that of their characters, and false before true. */
  ghost predicate KeyComes(a: Key, b: Key) {
    match (a, b)
    case (KeyInt(m), KeyInt(n)) => m < n
    case (KeyString(s), KeyString(t)) => Comes(s, t)
    case (KeyBool(p), KeyBool(q)) => !p && q
    case _ => true
  }

  /** The members of a map are written in that order. */
  lemma KeysInOrder(entries: map<Key, Val>, i: nat, j: nat)
    requires i < j < |SortedKeys(entries.Keys)|
    ensures KeyComes(SortedKeys(entries.Keys)[i], SortedKeys(entries.Keys)[j])
  {
    SortedKeysSorted(entries.Keys);
    var a, b := SortedKeys(entries.Keys)[i], SortedKeys(entries.Keys)[j];
    assert KeyLess(a, b);
    if a.KeyString? && b.KeyString? {
      StringLessIs(a.s, b.s);
    }
  }
}
