/**
 Protocol buffer messages as JSON, and back (jsonpb.go).  JSON is a tree here: the text
 of strings, of floating point numbers and of base64 is left to the library.
 */
module JsonPb {
  import opened Common
  import opened DecimalText

  // ---------------------------------------------------------------------------
  // Schemas

  datatype Kind =
    | KBool | KInt32 | KInt64 | KUint32 | KUint64 | KFloat32 | KFloat64 | KString | KBytes
    | KEnum(enum: string)
    | KMsg(msg: string)

  datatype Shape = Single(k: Kind) | Repeated(k: Kind) | MapOf(key: Kind, k: Kind)

  /** The name in the .proto file and the one in JSON; the latter may be missing. */
  datatype Name = Name(orig: string, json: string)

  datatype Alternative = Alternative(name: Name, k: Kind)

  /** A field of the generated struct: a field of the message, or a whole oneof. */
  datatype Slot = Plain(name: Name, shape: Shape) | Oneof(oneof: string, alts: seq<Alternative>)

  datatype EnumTable = EnumTable(names: map<int, string>, values: map<string, int>)

  /** Message types and enumerations by name, and what the library does with floating point numbers and bytes. */
  datatype Env = Env(
    types: map<string, seq<Slot>>,
    enums: map<string, EnumTable>,
    floatText: (Kind, Float) -> string,
    parseFloat: (Kind, string) -> Option<Float>,
    base64: seq<byte> -> string,
    unbase64: string -> Option<seq<byte>>)

  datatype Options = Options(emitDefaults: bool, origName: bool, enumsAsInts: bool, emitUint64Unquoted: bool)

  // ---------------------------------------------------------------------------
  // Values

  datatype Float = NaN | PosInf | NegInf | NegZero | Fin(x: real)

  datatype Key = KeyBool(b: bool) | KeyInt(n: int) | KeyString(s: string)

  datatype Val =
    | VBool(b: bool) | VInt(n: int) | VFloat(f: Float) | VString(s: string)
    | VBytes(bytes: Option<seq<byte>>)
    | VNilMsg | VMsg(m: Msg)

  /** A slot's value; nil slices and maps differ from empty ones. */
  datatype SlotVal =
    | One(v: Val)
    | NilList | List(vs: seq<Val>)
    | NilMap | Entries(entries: map<Key, Val>)
    | Unset | Chosen(alt: nat, v: Val)

  datatype Msg = Msg(slots: seq<SlotVal>)

  datatype Json =
    | JNull | JBool(b: bool) | JNum(text: string) | JString(s: string)
    | JArray(items: seq<Json>) | JObject(members: seq<Member>)

  datatype Member = Member(name: string, value: Json)

  // ---------------------------------------------------------------------------
  // Types

  predicate InRange(k: Kind, n: int) {
    match k
    case KInt32 => -0x8000_0000 <= n < 0x8000_0000
    case KEnum(_) => -0x8000_0000 <= n < 0x8000_0000
    case KInt64 => -0x8000_0000_0000_0000 <= n < 0x8000_0000_0000_0000
    case KUint32 => 0 <= n < 0x1_0000_0000
    case KUint64 => 0 <= n < 0x1_0000_0000_0000_0000
    case _ => false
  }

  predicate Finite(f: Float) {
    f.NegZero? || f.Fin?
  }

  predicate IsFloat(k: Kind) {
    k.KFloat32? || k.KFloat64?
  }

  predicate TypedKey(k: Kind, key: Key) {
    match key
    case KeyBool(_) => k.KBool?
    case KeyInt(n) => InRange(k, n) && !k.KEnum?
    case KeyString(_) => k.KString?
  }

  /** A finite number of a kind is one the library writes and reads back. */
  predicate TypedVal(env: Env, k: Kind, v: Val)
    decreases v, 0
  {
    match v
    case VBool(_) => k.KBool?
    case VInt(n) => InRange(k, n)
    case VFloat(f) => IsFloat(k) && (Finite(f) ==> env.parseFloat(k, env.floatText(k, f)) == Some(f))
    case VString(_) => k.KString?
    case VBytes(b) => k.KBytes? && (b.Some? ==> env.unbase64(env.base64(b.value)) == Some(b.value))
    case VNilMsg => k.KMsg?
    case VMsg(m) => k.KMsg? && TypedMsg(env, k.msg, m)
  }

  predicate TypedMsg(env: Env, ty: string, m: Msg)
    decreases m, 1
  {
    && ty in env.types && |env.types[ty]| == |m.slots|
    && forall i | 0 <= i < |m.slots| :: TypedSlot(env, env.types[ty][i], m.slots[i])
  }

  predicate TypedSlot(env: Env, slot: Slot, sv: SlotVal)
    decreases sv, 0
  {
    match slot
    case Oneof(_, alts) => sv.Unset? || (sv.Chosen? && sv.alt < |alts| && TypedVal(env, alts[sv.alt].k, sv.v))
    case Plain(_, Single(k)) => sv.One? && TypedVal(env, k, sv.v)
    case Plain(_, Repeated(k)) => sv.NilList? || (sv.List? && forall i | 0 <= i < |sv.vs| :: TypedVal(env, k, sv.vs[i]))
    case Plain(_, MapOf(key, k)) =>
      || sv.NilMap?
      || (sv.Entries? && forall x | x in sv.entries :: TypedKey(key, x) && TypedVal(env, k, sv.entries[x]))
  }

  // ---------------------------------------------------------------------------
  // Marshal

  function JsonName(opts: Options, n: Name): string {
    if opts.origName || n.json == "" then n.orig else n.json
  }

  predicate IsDefault(v: Val) {
    match v
    case VBool(b) => !b
    case VInt(n) => n == 0
    case VFloat(f) => f == Fin(0.0) || f.NegZero?
    case VString(s) => s == ""
    case VBytes(b) => b.None?
    case VNilMsg => true
    case VMsg(_) => false
  }

  /** Slots that leave no member behind. */
  predicate Omitted(opts: Options, sv: SlotVal) {
    match sv
    case Unset => true
    case One(v) => !opts.emitDefaults && IsDefault(v)
    case NilList => !opts.emitDefaults
    case NilMap => !opts.emitDefaults
    case _ => false
  }

  function MarshalInt(env: Env, opts: Options, k: Kind, n: int): Json {
    if k.KEnum? && !opts.enumsAsInts && k.enum in env.enums && n in env.enums[k.enum].names
    then JString(env.enums[k.enum].names[n])
    else if (k.KInt64? || k.KUint64?) && !opts.emitUint64Unquoted then JString(IntText(n))
      else JNum(IntText(n))
  }

  ghost function MarshalVal(env: Env, opts: Options, k: Kind, v: Val): Json
    decreases v, 0
  {
    match v
    case VBool(b) => JBool(b)
    case VInt(n) => MarshalInt(env, opts, k, n)
    case VFloat(NaN) => JString("NaN")
    case VFloat(PosInf) => JString("Infinity")
    case VFloat(NegInf) => JString("-Infinity")
    case VFloat(f) => JNum(env.floatText(k, f))
    case VString(s) => JString(s)
    case VBytes(b) => if b.None? then JNull else JString(env.base64(b.value))
    case VNilMsg => JNull
    case VMsg(m) => if k.KMsg? then MarshalMsg(env, opts, k.msg, m) else JNull
  }

  ghost function MarshalMsg(env: Env, opts: Options, ty: string, m: Msg): Json
    decreases m, 1
  {
    if ty in env.types && |env.types[ty]| == |m.slots|
    then JObject(Members(env, opts, env.types[ty], m.slots, |m.slots|))
    else JNull
  }

  function SlotName(opts: Options, slot: Slot, sv: SlotVal): string {
    match slot
    case Plain(name, _) => JsonName(opts, name)
    case Oneof(oneof, alts) => if sv.Chosen? && sv.alt < |alts| then JsonName(opts, alts[sv.alt].name) else oneof
  }

  /** The members the first `n` slots leave behind. */
  ghost function Members(env: Env, opts: Options, slots: seq<Slot>, vals: seq<SlotVal>, n: nat): seq<Member>
    requires n <= |slots| == |vals|
    decreases vals, n
  {
    if n == 0 then []
    else if Omitted(opts, vals[n - 1]) then Members(env, opts, slots, vals, n - 1)
    else
      Members(env, opts, slots, vals, n - 1) +
      [Member(SlotName(opts, slots[n - 1], vals[n - 1]), MarshalSlot(env, opts, slots[n - 1], vals[n - 1]))]
  }

  ghost function MarshalSlot(env: Env, opts: Options, slot: Slot, sv: SlotVal): Json
    decreases sv, 1
  {
    match sv
    case One(v) => MarshalVal(env, opts, if slot.Plain? then slot.shape.k else KBool, v)
    case Chosen(alt, v) => if slot.Oneof? && alt < |slot.alts| then MarshalVal(env, opts, slot.alts[alt].k, v) else JNull
    case NilList => JArray([])
    case List(vs) => JArray(MarshalList(env, opts, if slot.Plain? then slot.shape.k else KBool, vs, |vs|))
    case NilMap => JObject([])
    case Entries(entries) =>
      var keys := SortedKeys(entries.Keys);
      JObject(MarshalEntries(env, opts, if slot.Plain? then slot.shape.k else KBool, sv, keys, |keys|))
    case Unset => JNull
  }

  ghost function MarshalList(env: Env, opts: Options, k: Kind, vs: seq<Val>, n: nat): (r: seq<Json>)
    requires n <= |vs|
    ensures |r| == n
    decreases vs, n
  {
    if n == 0 then [] else MarshalList(env, opts, k, vs, n - 1) + [MarshalVal(env, opts, k, vs[n - 1])]
  }

  function KeyText(key: Key): string {
    match key
    case KeyBool(b) => if b then "true" else "false"
    case KeyInt(n) => IntText(n)
    case KeyString(s) => s
  }

  ghost function MarshalEntries(env: Env, opts: Options, k: Kind, sv: SlotVal, keys: seq<Key>, n: nat): (r: seq<Member>)
    requires sv.Entries? && n <= |keys| && forall i | 0 <= i < |keys| :: keys[i] in sv.entries
    ensures |r| == n
    decreases sv, 0, n
  {
    if n == 0 then []
    else
      MarshalEntries(env, opts, k, sv, keys, n - 1) +
      [Member(KeyText(keys[n - 1]), MarshalVal(env, opts, k, sv.entries[keys[n - 1]]))]
  }

  lemma {:induction false} ListAt(env: Env, opts: Options, k: Kind, vs: seq<Val>, n: nat, i: nat)
    requires i < n <= |vs|
    ensures MarshalList(env, opts, k, vs, n)[i] == MarshalVal(env, opts, k, vs[i])
  {
    if i < n - 1 {
      ListAt(env, opts, k, vs, n - 1, i);
    }
  }

  lemma {:induction false} EntriesAt(env: Env, opts: Options, k: Kind, sv: SlotVal, keys: seq<Key>, n: nat, i: nat)
    requires sv.Entries? && i < n <= |keys| && forall j | 0 <= j < |keys| :: keys[j] in sv.entries
    ensures MarshalEntries(env, opts, k, sv, keys, n)[i] == Member(KeyText(keys[i]), MarshalVal(env, opts, k, sv.entries[keys[i]]))
  {
    if i < n - 1 {
      EntriesAt(env, opts, k, sv, keys, n - 1, i);
    }
  }

  // ---------------------------------------------------------------------------
  // The order of map keys

  predicate StringLess(a: string, b: string) {
    b != "" && (a == "" || a[0] < b[0] || (a[0] == b[0] && StringLess(a[1..], b[1..])))
  }

  predicate KeyLess(a: Key, b: Key) {
    match (a, b)
    case (KeyInt(m), KeyInt(n)) => m < n
    case (KeyString(s), KeyString(t)) => StringLess(s, t)
    case (KeyBool(p), KeyBool(q)) => !p && q
    case (KeyBool(_), _) => true
    case (KeyInt(_), KeyString(_)) => true
    case _ => false
  }

  lemma {:induction false} StringOrder(a: string, b: string, c: string)
    ensures !StringLess(a, a)
    ensures a == b || StringLess(a, b) || StringLess(b, a)
    ensures StringLess(a, b) && StringLess(b, c) ==> StringLess(a, c)
    decreases |a| + |b| + |c|
  {
    if a != "" {
      StringOrder(a[1..], if b == "" then "" else b[1..], if c == "" then "" else c[1..]);
      if b != "" && a[0] == b[0] && a[1..] == b[1..] {
        assert a == [a[0]] + a[1..] == b;
      }
    }
  }

  lemma KeyOrder(a: Key, b: Key, c: Key)
    ensures !KeyLess(a, a)
    ensures a == b || KeyLess(a, b) || KeyLess(b, a)
    ensures KeyLess(a, b) && KeyLess(b, c) ==> KeyLess(a, c)
  {
    if a.KeyString? {
      StringOrder(a.s, if b.KeyString? then b.s else "", if c.KeyString? then c.s else "");
    }
  }

  predicate IsLeast(s: set<Key>, k: Key) {
    k in s && forall j | j in s :: k == j || KeyLess(k, j)
  }

  lemma {:induction false} LeastExists(s: set<Key>)
    requires s != {}
    ensures exists k :: IsLeast(s, k)
    decreases s
  {
    var x :| x in s;
    if s == {x} {
      assert IsLeast(s, x);
    } else {
      assert s - {x} != {};
      LeastExists(s - {x});
      var k :| IsLeast(s - {x}, k);
      KeyOrder(x, k, k);
      if KeyLess(x, k) {
        forall j | j in s ensures x == j || KeyLess(x, j) {
          KeyOrder(x, k, j);
        }
        assert IsLeast(s, x);
      } else {
        assert IsLeast(s, k);
      }
    }
  }

  /** The keys of a map as they are written: in increasing order. */
  ghost function SortedKeys(s: set<Key>): (r: seq<Key>)
    ensures forall k | k in r :: k in s
    decreases s
  {
    if s == {} then []
    else
      LeastExists(s);
      var k :| IsLeast(s, k);
      [k] + SortedKeys(s - {k})
  }

  predicate Increasing(keys: seq<Key>) {
    forall i, j | 0 <= i < j < |keys| :: KeyLess(keys[i], keys[j])
  }

  lemma {:induction false} SortedKeysSorted(s: set<Key>)
    ensures Increasing(SortedKeys(s)) && forall k | k in s :: k in SortedKeys(s)
    decreases s
  {
    if s != {} {
      var r := SortedKeys(s);
      assert IsLeast(s, r[0]) && r[1..] == SortedKeys(s - {r[0]});
      SortedKeysSorted(s - {r[0]});
      forall i, j | 0 <= i < j < |r| ensures KeyLess(r[i], r[j]) {
        assert r[j] == r[1..][j - 1] && r[j] in r[1..];
        if i > 0 {
          assert r[i] == r[1..][i - 1];
        }
      }
      forall k | k in s ensures k in r {
        assert k == r[0] || k in r[1..];
      }
    }
  }

  /** Whatever order the map is visited in, there is one increasing order of its keys: the output is deterministic. */
  lemma {:induction false} OneOrder(a: seq<Key>, b: seq<Key>)
    requires Increasing(a) && Increasing(b) && forall k :: k in a <==> k in b
    ensures a == b
    decreases |a|
  {
    EmptyTogether(a, b);
    if a != [] {
      assert a[0] in a && a[0] in b;
      assert b[0] in b && b[0] in a;
      var i :| 0 <= i < |a| && a[i] == b[0];
      var j :| 0 <= j < |b| && b[j] == a[0];
      if i > 0 && j > 0 {
        assert KeyLess(a[0], a[i]) && KeyLess(b[0], b[j]);
        KeyOrder(a[0], b[0], a[0]);
      }
      assert a[0] == b[0];
      forall k ensures k in a[1..] <==> k in b[1..] {
        TailHas(a, k);
        TailHas(b, k);
      }
      OneOrder(a[1..], b[1..]);
      assert a == [a[0]] + a[1..] && b == [b[0]] + b[1..];
    }
  }

  lemma EmptyTogether(a: seq<Key>, b: seq<Key>)
    requires forall k :: k in a <==> k in b
    ensures a == [] <==> b == []
  {
    if a != [] {
      assert a[0] in a;
    }
    if b != [] {
      assert b[0] in b;
    }
  }

  lemma TailHas(a: seq<Key>, k: Key)
    requires a != [] && Increasing(a)
    ensures k in a[1..] <==> k in a && k != a[0]
  {
    if k in a[1..] {
      var i :| 0 <= i < |a| - 1 && a[1..][i] == k;
      assert KeyLess(a[0], a[i + 1]);
      KeyOrder(a[0], a[0], a[0]);
    }
  }

  // ---------------------------------------------------------------------------
  // Unmarshal

  function ZeroVal(k: Kind): Val {
    match k
    case KBool => VBool(false)
    case KFloat32 => VFloat(Fin(0.0))
    case KFloat64 => VFloat(Fin(0.0))
    case KString => VString("")
    case KBytes => VBytes(None)
    case KMsg(_) => VNilMsg
    case _ => VInt(0)
  }

  function ZeroSlot(slot: Slot): SlotVal {
    match slot
    case Oneof(_, _) => Unset
    case Plain(_, Single(k)) => One(ZeroVal(k))
    case Plain(_, Repeated(_)) => NilList
    case Plain(_, MapOf(_, _)) => NilMap
  }

  function ZeroSlots(slots: seq<Slot>): seq<SlotVal> {
    seq(|slots|, i requires 0 <= i < |slots| => ZeroSlot(slots[i]))
  }

  /** encoding/json takes no number with a leading zero, and no sign for an unsigned one. */
  function ParseIntOf(k: Kind, text: string): Option<int> {
    if text == "null" then Some(0)
    else
      var n := ParseInt(text);
      var signed := text != "" && text[0] == '-';
      if n.Some? && InRange(k, n.value) && !LeadingZero(text) && !(signed && (k.KUint32? || k.KUint64?)) then n else None
  }

  /** Integers may stand in quotes. */
  function UnmarshalInt(env: Env, k: Kind, j: Json): Option<Val> {
    match j
    case JString(s) =>
      if k.KEnum? then
        if k.enum in env.enums && s in env.enums[k.enum].values then Some(VInt(env.enums[k.enum].values[s])) else None
      else
        var n := ParseIntOf(k, s);
        if n.Some? then Some(VInt(n.value)) else None
    case JNum(t) =>
      var n := ParseIntOf(k, t);
      if n.Some? then Some(VInt(n.value)) else None
    case JNull => Some(VInt(0))
    case _ => None
  }

  function UnmarshalFloat(env: Env, k: Kind, j: Json): Option<Val> {
    match j
    case JString("NaN") => Some(VFloat(NaN))
    case JString("Infinity") => Some(VFloat(PosInf))
    case JString("-Infinity") => Some(VFloat(NegInf))
    case JString("null") => Some(VFloat(Fin(0.0)))
    case JString(s) =>
      var f := env.parseFloat(k, s);
      if f.Some? then Some(VFloat(f.value)) else None
    case JNum(t) =>
      var f := env.parseFloat(k, t);
      if f.Some? then Some(VFloat(f.value)) else None
    case JNull => Some(VFloat(Fin(0.0)))
    case _ => None
  }

  function UnmarshalVal(env: Env, lenient: bool, k: Kind, j: Json): Option<Val>
    decreases j, 1
  {
    match k
    case KMsg(ty) =>
      if j.JNull? then Some(VNilMsg)
      else
        var m := UnmarshalMsg(env, lenient, ty, j);
        if m.Some? then Some(VMsg(m.value)) else None
    case KBool => if j.JBool? then Some(VBool(j.b)) else if j.JNull? then Some(VBool(false)) else None
    case KString => if j.JString? then Some(VString(j.s)) else if j.JNull? then Some(VString("")) else None
    case KBytes =>
      if j.JNull? then Some(VBytes(None))
      else if j.JString? && env.unbase64(j.s).Some? then Some(VBytes(env.unbase64(j.s))) else None
    case KFloat32 => UnmarshalFloat(env, k, j)
    case KFloat64 => UnmarshalFloat(env, k, j)
    case _ => UnmarshalInt(env, k, j)
  }

  /** Where each name is last among the first `n` members: encoding/json keeps the last of equal names. */
  function Index(members: seq<Member>, n: nat): (r: map<string, nat>)
    requires n <= |members|
    ensures forall x | x in r :: r[x] < n
  {
    if n == 0 then map[] else Index(members, n - 1)[members[n - 1].name := n - 1]
  }

  function CamelName(n: Name): string {
    if n.json == "" then n.orig else n.json
  }

  /** Both names are accepted; when both are there the JSON name wins, and both are used up. */
  function Find(n: Name, left: map<string, nat>): Option<nat> {
    if CamelName(n) in left then Some(left[CamelName(n)])
    else if n.orig in left then Some(left[n.orig]) else None
  }

  function Accepted(n: Name): set<string> {
    {n.orig, CamelName(n)}
  }

  /** The values of the slots so far, and the members not used yet. */
  datatype Scan = Scan(vals: seq<SlotVal>, left: map<string, nat>)

  predicate Within(left: map<string, nat>, n: nat) {
    forall x | x in left :: left[x] < n
  }

  /** `lenient` is AllowUnknownFields. */
  function UnmarshalMsg(env: Env, lenient: bool, ty: string, j: Json): Option<Msg>
    decreases j, 0
  {
    if ty !in env.types then None
    else if j.JNull? then Some(Msg(ZeroSlots(env.types[ty])))
    else if !j.JObject? then None
    else
      var slots, left := env.types[ty], Index(j.members, |j.members|);
      var p := PlainPass(env, lenient, slots, j.members, left, |slots|);
      if p.None? then None
      else
        var q := OneofPass(env, lenient, slots, j.members, p.value, |slots|);
        if q.None? || (!lenient && q.value.left != map[]) then None else Some(Msg(q.value.vals))
  }

  /** One field of the struct takes its member, if it has one; a oneof is looked up under its own name, where only null can be stored. */
  function TakeField(env: Env, lenient: bool, slot: Slot, members: seq<Member>, left: map<string, nat>): (r: Option<Choice>)
    requires Within(left, |members|)
    ensures r.Some? ==> Within(r.value.left, |members|)
    decreases members, 0, 0
  {
    match slot
    case Plain(name, shape) =>
      var at := Find(name, left);
      if at.None? then Some(Choice(ZeroSlot(slot), left))
      else
        var sv := UnmarshalSlot(env, lenient, shape, members[at.value].value);
        if sv.None? then None else Some(Choice(sv.value, left - Accepted(name)))
    case Oneof(oneof, _) =>
      if oneof !in left then Some(Choice(Unset, left))
      else if members[left[oneof]].value.JNull? then Some(Choice(Unset, left - {oneof}))
      else None
  }

  /** The first pass, over the struct's fields. */
  function PlainPass(env: Env, lenient: bool, slots: seq<Slot>, members: seq<Member>, left: map<string, nat>, n: nat): (r: Option<Scan>)
    requires n <= |slots| && Within(left, |members|)
    ensures r.Some? ==> |r.value.vals| == n && Within(r.value.left, |members|)
    decreases members, 0, n
  {
    if n == 0 then Some(Scan([], left))
    else
      var p := PlainPass(env, lenient, slots, members, left, n - 1);
      if p.None? then None
      else
        var c := TakeField(env, lenient, slots[n - 1], members, p.value.left);
        if c.None? then None else Some(Scan(p.value.vals + [c.value.sv], c.value.left))
  }

  /** The second pass, over the alternatives of the oneofs. */
  function OneofPass(env: Env, lenient: bool, slots: seq<Slot>, members: seq<Member>, scan: Scan, n: nat): (r: Option<Scan>)
    requires n <= |slots| == |scan.vals| && Within(scan.left, |members|)
    ensures r.Some? ==> |r.value.vals| == |slots| && Within(r.value.left, |members|)
    decreases members, 1, n
  {
    if n == 0 then Some(scan)
    else
      var p := OneofPass(env, lenient, slots, members, scan, n - 1);
      if p.None? || slots[n - 1].Plain? then p
      else
        var c := AltPass(env, lenient, slots[n - 1].alts, members, Choice(p.value.vals[n - 1], p.value.left), |slots[n - 1].alts|);
        if c.None? then None else Some(Scan(p.value.vals[n - 1 := c.value.sv], c.value.left))
  }

  datatype Choice = Choice(sv: SlotVal, left: map<string, nat>)

  function AltPass(env: Env, lenient: bool, alts: seq<Alternative>, members: seq<Member>, c: Choice, n: nat): (r: Option<Choice>)
    requires n <= |alts| && Within(c.left, |members|)
    ensures r.Some? ==> Within(r.value.left, |members|)
    decreases members, 0, n
  {
    if n == 0 then Some(c)
    else
      var p := AltPass(env, lenient, alts, members, c, n - 1);
      if p.None? then None
      else
        var at := Find(alts[n - 1].name, p.value.left);
        if at.None? then p
        else
          var v := UnmarshalVal(env, lenient, alts[n - 1].k, members[at.value].value);
          if v.None? then None else Some(Choice(Chosen(n - 1, v.value), p.value.left - Accepted(alts[n - 1].name)))
  }

  function UnmarshalSlot(env: Env, lenient: bool, shape: Shape, j: Json): Option<SlotVal>
    decreases j, 2
  {
    match shape
    case Single(k) =>
      var v := UnmarshalVal(env, lenient, k, j);
      if v.Some? then Some(One(v.value)) else None
    case Repeated(k) =>
      if j.JNull? then Some(NilList)
      else if !j.JArray? then None
      else
        var vs := UnmarshalList(env, lenient, k, j.items, |j.items|);
        if vs.Some? then Some(List(vs.value)) else None
    case MapOf(key, k) =>
      if j.JNull? then Some(NilMap)
      else if !j.JObject? then None
      else
        var m := UnmarshalEntries(env, lenient, key, k, j.members, |j.members|);
        if m.Some? then Some(Entries(m.value)) else None
  }

  function UnmarshalList(env: Env, lenient: bool, k: Kind, items: seq<Json>, n: nat): Option<seq<Val>>
    requires n <= |items|
    decreases items, n
  {
    if n == 0 then Some([])
    else
      var vs, v := UnmarshalList(env, lenient, k, items, n - 1), UnmarshalVal(env, lenient, k, items[n - 1]);
      if vs.None? || v.None? then None else Some(vs.value + [v.value])
  }

  function ParseKey(k: Kind, s: string): Option<Key> {
    if k.KString? then Some(KeyString(s))
    else if k.KBool? then
      if s == "true" then Some(KeyBool(true)) else if s == "false" || s == "null" then Some(KeyBool(false)) else None
    else
      var n := ParseIntOf(k, s);
      if n.Some? then Some(KeyInt(n.value)) else None
  }

  datatype Entry = Superseded | Bad | Entry(key: Key, val: Val)

  /** One member of a map; of equal names the last counts. */
  function UnmarshalEntry(env: Env, lenient: bool, key: Kind, k: Kind, members: seq<Member>, i: nat): Entry
    requires i < |members|
    decreases members, 0, 0
  {
    var name, at := members[i].name, Index(members, |members|);
    if name in at && at[name] != i then Superseded
    else
      var x, v := ParseKey(key, name), UnmarshalVal(env, lenient, k, members[i].value);
      if x.None? || v.None? then Bad else Entry(x.value, v.value)
  }

  /** The entries of the first `n` members. */
  function UnmarshalEntries(env: Env, lenient: bool, key: Kind, k: Kind, members: seq<Member>, n: nat): Option<map<Key, Val>>
    requires n <= |members|
    decreases members, 1, n
  {
    if n == 0 then Some(map[])
    else
      var before := UnmarshalEntries(env, lenient, key, k, members, n - 1);
      if before.None? then None
      else
        match UnmarshalEntry(env, lenient, key, k, members, n - 1)
        case Superseded => before
        case Bad => None
        case Entry(x, v) => Some(before.value[x := v])
  }

  // ---------------------------------------------------------------------------
  // The loops that use up the members of an object

  lemma {:induction false} PlainFails(env: Env, lenient: bool, slots: seq<Slot>, members: seq<Member>, left: map<string, nat>, i: nat, n: nat)
    requires i <= n <= |slots| && Within(left, |members|) && PlainPass(env, lenient, slots, members, left, i).None?
    ensures PlainPass(env, lenient, slots, members, left, n).None?
  {
    if i < n {
      PlainFails(env, lenient, slots, members, left, i, n - 1);
    }
  }

  method PlainLoop(env: Env, lenient: bool, slots: seq<Slot>, members: seq<Member>, index: map<string, nat>) returns (r: Option<Scan>)
    requires Within(index, |members|)
    ensures r == PlainPass(env, lenient, slots, members, index, |slots|)
  {
    var vals: seq<SlotVal>, jsonFields := [], index;
    for i := 0 to |slots|
      invariant PlainPass(env, lenient, slots, members, index, i) == Some(Scan(vals, jsonFields))
    {
      var step := PlainStep(env, lenient, slots[i], members, jsonFields);
      if step.None? {
        PlainFails(env, lenient, slots, members, index, i + 1, |slots|);
        return None;
      }
      vals, jsonFields := vals + [step.value.sv], step.value.left;
    }
    r := Some(Scan(vals, jsonFields));
  }

  /** One field of the struct: its member, under either name, is taken out of the map. */
  method PlainStep(env: Env, lenient: bool, slot: Slot, members: seq<Member>, left: map<string, nat>) returns (r: Option<Choice>)
    requires Within(left, |members|)
    ensures r == TakeField(env, lenient, slot, members, left)
  {
    var jsonFields := left;
    match slot {
      case Oneof(oneof, _) =>
        if oneof in jsonFields {
          var raw := members[jsonFields[oneof]].value;
          jsonFields := jsonFields - {oneof};
          if !raw.JNull? {
            return None;
          }
        }
        return Some(Choice(Unset, jsonFields));
      case Plain(name, shape) =>
        var orig, camel := name.orig, CamelName(name);
        if orig !in jsonFields && camel !in jsonFields {
          return Some(Choice(ZeroSlot(slot), jsonFields));
        }
        var raw;
        if orig in left {
          raw := members[left[orig]].value;
          jsonFields := jsonFields - {orig};
        }
        if camel in left {
          raw := members[left[camel]].value;
          jsonFields := jsonFields - {camel};
        }
        assert jsonFields == left - Accepted(name);
        var sv := UnmarshalSlot(env, lenient, shape, raw);
        r := if sv.None? then None else Some(Choice(sv.value, jsonFields));
    }
  }

  lemma {:induction false} AltFails(env: Env, lenient: bool, alts: seq<Alternative>, members: seq<Member>, c: Choice, i: nat, n: nat)
    requires i <= n <= |alts| && Within(c.left, |members|) && AltPass(env, lenient, alts, members, c, i).None?
    ensures AltPass(env, lenient, alts, members, c, n).None?
  {
    if i < n {
      AltFails(env, lenient, alts, members, c, i, n - 1);
    }
  }

  method AltLoop(env: Env, lenient: bool, alts: seq<Alternative>, members: seq<Member>, c: Choice) returns (r: Option<Choice>)
    requires Within(c.left, |members|)
    ensures r == AltPass(env, lenient, alts, members, c, |alts|)
  {
    var sv, jsonFields := c.sv, c.left;
    for i := 0 to |alts|
      invariant AltPass(env, lenient, alts, members, c, i) == Some(Choice(sv, jsonFields))
    {
      var at := Find(alts[i].name, jsonFields);
      if at.Some? {
        var v := UnmarshalVal(env, lenient, alts[i].k, members[at.value].value);
        if v.None? {
          AltFails(env, lenient, alts, members, c, i + 1, |alts|);
          return None;
        }
        sv, jsonFields := Chosen(i, v.value), jsonFields - Accepted(alts[i].name);
      }
    }
    r := Some(Choice(sv, jsonFields));
  }

  lemma {:induction false} OneofFails(env: Env, lenient: bool, slots: seq<Slot>, members: seq<Member>, scan: Scan, i: nat, n: nat)
    requires i <= n <= |slots| == |scan.vals| && Within(scan.left, |members|) && OneofPass(env, lenient, slots, members, scan, i).None?
    ensures OneofPass(env, lenient, slots, members, scan, n).None?
  {
    if i < n {
      OneofFails(env, lenient, slots, members, scan, i, n - 1);
    }
  }

  method OneofLoop(env: Env, lenient: bool, slots: seq<Slot>, members: seq<Member>, scan: Scan) returns (r: Option<Scan>)
    requires |slots| == |scan.vals| && Within(scan.left, |members|)
    ensures r == OneofPass(env, lenient, slots, members, scan, |slots|)
  {
    var vals, jsonFields := scan.vals, scan.left;
    for i := 0 to |slots|
      invariant |vals| == |slots| && OneofPass(env, lenient, slots, members, scan, i) == Some(Scan(vals, jsonFields))
    {
      if slots[i].Oneof? {
        var c := AltLoop(env, lenient, slots[i].alts, members, Choice(vals[i], jsonFields));
        if c.None? {
          OneofFails(env, lenient, slots, members, scan, i + 1, |slots|);
          return None;
        }
        vals, jsonFields := vals[i := c.value.sv], c.value.left;
      }
    }
    r := Some(Scan(vals, jsonFields));
  }

  /** unmarshalValue on a struct: the members are used up field by field, then oneof by oneof, and none may be left. */
  method UnmarshalObject(env: Env, lenient: bool, ty: string, j: Json) returns (r: Option<Msg>)
    ensures r == UnmarshalMsg(env, lenient, ty, j)
  {
    if ty !in env.types || !(j.JNull? || j.JObject?) {
      return None;
    }
    var slots := env.types[ty];
    if j.JNull? {
      return Some(Msg(ZeroSlots(slots)));
    }
    var p := PlainLoop(env, lenient, slots, j.members, Index(j.members, |j.members|));
    if p.None? {
      return None;
    }
    var q := OneofLoop(env, lenient, slots, j.members, p.value);
    if q.None? || (!lenient && |q.value.left| > 0) {
      return None;
    }
    r := Some(Msg(q.value.vals));
  }
}
