/**
 When field names can be told apart (jsonpb.go): a message type whose names are not
 distinct has a message that does not come back, so that distinct names are exactly what
 the round trip needs.
 */
module JsonPbNames {
  import opened Common
  import opened JsonPb
  import opened JsonPbRoundTrip

  // ---------------------------------------------------------------------------
  // A message with one field set

  /** The library gives back zero and the empty byte string. */
  predicate LibraryOk(env: Env) {
    && env.parseFloat(KFloat32, env.floatText(KFloat32, Fin(0.0))) == Some(Fin(0.0))
    && env.parseFloat(KFloat64, env.floatText(KFloat64, Fin(0.0))) == Some(Fin(0.0))
    && env.unbase64(env.base64([])) == Some([])
  }

  predicate Declared(env: Env, k: Kind) {
    k.KMsg? ==> k.msg in env.types
  }

  predicate SlotDeclared(env: Env, slot: Slot) {
    match slot
    case Plain(_, shape) => Declared(env, shape.k)
    case Oneof(_, alts) => forall a | 0 <= a < |alts| :: Declared(env, alts[a].k)
  }

  /** Message types only refer to message types that are there. */
  predicate Closed(env: Env) {
    forall ty | ty in env.types :: forall i | 0 <= i < |env.types[ty]| :: SlotDeclared(env, env.types[ty][i])
  }

  lemma ZeroTyped(env: Env, slot: Slot)
    requires LibraryOk(env)
    ensures TypedSlot(env, slot, ZeroSlot(slot))
  {
    if slot.Plain? && slot.shape.Single? {
      var k := slot.shape.k;
      assert TypedVal(env, k, ZeroVal(k));
    }
  }

  /** A value of a kind that is not its default. */
  function SetVal(env: Env, k: Kind): Val {
    match k
    case KBool => VBool(true)
    case KFloat32 => VFloat(NaN)
    case KFloat64 => VFloat(NaN)
    case KString => VString("a")
    case KBytes => VBytes(Some([]))
    case KMsg(ty) => if ty in env.types then VMsg(Msg(ZeroSlots(env.types[ty]))) else VNilMsg
    case _ => VInt(1)
  }

  lemma SetValTyped(env: Env, k: Kind)
    requires LibraryOk(env) && Declared(env, k)
    ensures TypedVal(env, k, SetVal(env, k)) && !IsDefault(SetVal(env, k))
  {
    if k.KMsg? {
      var slots := env.types[k.msg];
      var m := Msg(ZeroSlots(slots));
      forall i | 0 <= i < |m.slots| ensures TypedSlot(env, slots[i], m.slots[i]) {
        ZeroTyped(env, slots[i]);
      }
      assert TypedMsg(env, k.msg, m);
    }
  }

  function SetField(env: Env, shape: Shape): SlotVal {
    match shape
    case Single(k) => One(SetVal(env, k))
    case Repeated(_) => List([])
    case MapOf(_, _) => Entries(map[])
  }

  lemma SetFieldTyped(env: Env, name: Name, shape: Shape, opts: Options)
    requires LibraryOk(env) && Declared(env, shape.k) && !opts.emitDefaults
    ensures var sv := SetField(env, shape);
            TypedSlot(env, Plain(name, shape), sv) && !Omitted(opts, sv) && CanonSlot(opts, sv) != ZeroSlot(Plain(name, shape))
  {
    if shape.Single? {
      SetValTyped(env, shape.k);
    }
  }

  /** Every field at its default but slot `j`. */
  function Lone(slots: seq<Slot>, j: nat, sv: SlotVal): Msg
    requires j < |slots|
  {
    Msg(ZeroSlots(slots)[j := sv])
  }

  lemma LoneTyped(env: Env, ty: string, j: nat, sv: SlotVal)
    requires LibraryOk(env) && ty in env.types && j < |env.types[ty]| && TypedSlot(env, env.types[ty][j], sv)
    ensures TypedMsg(env, ty, Lone(env.types[ty], j, sv))
  {
    var slots := env.types[ty];
    var m := Lone(slots, j, sv);
    forall i | 0 <= i < |m.slots| ensures TypedSlot(env, slots[i], m.slots[i]) {
      ZeroTyped(env, slots[i]);
    }
  }

  lemma ZeroOmitted(opts: Options, slot: Slot)
    requires !opts.emitDefaults
    ensures Omitted(opts, ZeroSlot(slot))
  {
  }

  /** Such a message leaves one member behind. */
  lemma {:induction false} LoneMembers(env: Env, opts: Options, slots: seq<Slot>, j: nat, sv: SlotVal, n: nat)
    requires !opts.emitDefaults && j < |slots| && n <= |slots| && !Omitted(opts, sv)
    ensures Members(env, opts, slots, Lone(slots, j, sv).slots, n) ==
            if j < n then [Member(SlotName(opts, slots[j], sv), MarshalSlot(env, opts, slots[j], sv))] else []
  {
    if n > 0 {
      LoneMembers(env, opts, slots, j, sv, n - 1);
      ZeroOmitted(opts, slots[n - 1]);
    }
  }

  // ---------------------------------------------------------------------------
  // Who takes the only member

  /** One member, called `x`, and where it is. */
  predicate Only(members: seq<Member>, left: map<string, nat>, x: string) {
    |members| == 1 && left == map[x := 0]
  }

  /** A field takes the member exactly when it accepts its name; otherwise it is zero. */
  lemma TakeOnly(env: Env, lenient: bool, slot: Slot, members: seq<Member>, left: map<string, nat>, x: string)
    requires Only(members, left, x)
    ensures var r := TakeField(env, lenient, slot, members, left);
            && (x !in FirstNames(slot) ==> r == Some(Choice(ZeroSlot(slot), left)))
            && (x in FirstNames(slot) && r.Some? ==> r.value.left == map[])
  {
    if x in FirstNames(slot) {
      assert left - FirstNames(slot) == map[];
    }
  }

  lemma TakeNone(env: Env, lenient: bool, slot: Slot, members: seq<Member>)
    ensures TakeField(env, lenient, slot, members, map[]) == Some(Choice(ZeroSlot(slot), map[]))
  {
  }

  /** Once the name has been looked up, the member is gone, and every field after that is zero. */
  predicate LoneScan(slots: seq<Slot>, x: string, left: map<string, nat>, n: nat, scan: Scan) {
    && n <= |slots| && |scan.vals| == n
    && scan.left == (if x in UsedFirst(slots, n) then map[] else left)
    && forall k | 0 <= k < n && (x in UsedFirst(slots, k) || x !in FirstNames(slots[k])) :: scan.vals[k] == ZeroSlot(slots[k])
  }

  lemma LoneScanStep(slots: seq<Slot>, x: string, left: map<string, nat>, k: nat, scan: Scan, c: Choice)
    requires k < |slots| && LoneScan(slots, x, left, k, scan)
    requires x in UsedFirst(slots, k) ==> c == Choice(ZeroSlot(slots[k]), map[])
    requires x !in UsedFirst(slots, k) && x !in FirstNames(slots[k]) ==> c == Choice(ZeroSlot(slots[k]), left)
    requires x !in UsedFirst(slots, k) && x in FirstNames(slots[k]) ==> c.left == map[]
    ensures LoneScan(slots, x, left, k + 1, Scan(scan.vals + [c.sv], c.left))
  {
  }

  lemma {:induction false} FirstLone(env: Env, lenient: bool, slots: seq<Slot>, members: seq<Member>, left: map<string, nat>, x: string, n: nat)
    requires Only(members, left, x) && n <= |slots|
    ensures var p := PlainPass(env, lenient, slots, members, left, n); p.Some? ==> LoneScan(slots, x, left, n, p.value)
  {
    if n > 0 {
      var k := n - 1;
      FirstLone(env, lenient, slots, members, left, x, k);
      var p := PlainPass(env, lenient, slots, members, left, k);
      if p.Some? {
        TakeOnly(env, lenient, slots[k], members, left, x);
        TakeNone(env, lenient, slots[k], members);
        var c := TakeField(env, lenient, slots[k], members, p.value.left);
        if c.Some? {
          LoneScanStep(slots, x, left, k, p.value, c.value);
        }
      }
    }
  }

  lemma {:induction false} AltIdle(env: Env, lenient: bool, alts: seq<Alternative>, members: seq<Member>, sv: SlotVal, n: nat)
    requires n <= |alts|
    ensures AltPass(env, lenient, alts, members, Choice(sv, map[]), n) == Some(Choice(sv, map[]))
  {
    if n > 0 {
      AltIdle(env, lenient, alts, members, sv, n - 1);
    }
  }

  /** With no member left the second pass changes nothing. */
  lemma {:induction false} OneofIdle(env: Env, lenient: bool, slots: seq<Slot>, members: seq<Member>, vals: seq<SlotVal>, n: nat)
    requires n <= |slots| == |vals|
    ensures OneofPass(env, lenient, slots, members, Scan(vals, map[]), n) == Some(Scan(vals, map[]))
  {
    if n > 0 {
      OneofIdle(env, lenient, slots, members, vals, n - 1);
      if slots[n - 1].Oneof? {
        AltIdle(env, lenient, slots[n - 1].alts, members, vals[n - 1], |slots[n - 1].alts|);
        assert vals[n - 1 := vals[n - 1]] == vals;
      }
    }
  }

  /** The first alternative that accepts the name takes the member. */
  lemma {:induction false} AltLone(env: Env, lenient: bool, alts: seq<Alternative>, members: seq<Member>, left: map<string, nat>, x: string, n: nat)
    requires Only(members, left, x) && n <= |alts|
    ensures var r := AltPass(env, lenient, alts, members, Choice(Unset, left), n);
            r.Some? ==>
              if x in AltNames(alts, n) then r.value.left == map[] && r.value.sv.Chosen? && r.value.sv.alt < n && x !in AltNames(alts, r.value.sv.alt)
              else r.value == Choice(Unset, left)
  {
    if n > 0 {
      AltLone(env, lenient, alts, members, left, x, n - 1);
      var names := Accepted(alts[n - 1].name);
      if x in names {
        assert left - names == map[];
      }
    }
  }

  /** What a oneof can be: unset if an earlier one took the member, else set to the first alternative that accepts the name. */
  predicate LoneAlt(slots: seq<Slot>, x: string, k: nat, sv: SlotVal)
    requires k < |slots| && slots[k].Oneof?
  {
    if x in UsedSecond(slots, k) then sv == Unset
    else sv.Chosen? ==> sv.alt < |slots[k].alts| && x !in AltNames(slots[k].alts, sv.alt)
  }

  /** The oneofs before the one that accepts the name stay unset, and those after it too. */
  predicate LoneOneofs(slots: seq<Slot>, x: string, vals: seq<SlotVal>, left: map<string, nat>, n: nat, scan: Scan) {
    && n <= |slots| == |vals| == |scan.vals|
    && scan.left == (if x in UsedSecond(slots, n) then map[] else left)
    && (forall k | n <= k < |slots| :: scan.vals[k] == vals[k])
    && (forall k | 0 <= k < n && slots[k].Oneof? :: LoneAlt(slots, x, k, scan.vals[k]))
  }

  lemma LoneOneofsStep(slots: seq<Slot>, x: string, vals: seq<SlotVal>, left: map<string, nat>, k: nat, scan: Scan, c: Choice)
    requires k < |slots| && slots[k].Oneof? && LoneOneofs(slots, x, vals, left, k, scan)
    requires x in UsedSecond(slots, k) ==> c == Choice(Unset, map[])
    requires x !in UsedSecond(slots, k) ==> c.left == (if x in SecondNames(slots[k]) then map[] else left) && LoneAlt(slots, x, k, c.sv)
    ensures LoneOneofs(slots, x, vals, left, k + 1, Scan(scan.vals[k := c.sv], c.left))
  {
  }

  lemma {:induction false} SecondLone(env: Env, lenient: bool, slots: seq<Slot>, members: seq<Member>, vals: seq<SlotVal>, left: map<string, nat>, x: string, n: nat)
    requires Only(members, left, x) && n <= |slots| == |vals| && forall k | 0 <= k < |slots| && slots[k].Oneof? :: vals[k] == Unset
    ensures var q := OneofPass(env, lenient, slots, members, Scan(vals, left), n); q.Some? ==> LoneOneofs(slots, x, vals, left, n, q.value)
  {
    if n > 0 {
      var k := n - 1;
      SecondLone(env, lenient, slots, members, vals, left, x, k);
      var q := OneofPass(env, lenient, slots, members, Scan(vals, left), k);
      if q.Some? && slots[k].Oneof? {
        var alts := slots[k].alts;
        AltLone(env, lenient, alts, members, left, x, |alts|);
        AltIdle(env, lenient, alts, members, Unset, |alts|);
        var c := AltPass(env, lenient, alts, members, Choice(q.value.vals[k], q.value.left), |alts|);
        if c.Some? {
          LoneOneofsStep(slots, x, vals, left, k, q.value, c.value);
        }
      }
    }
  }

  // ---------------------------------------------------------------------------
  // A shared name loses a value

  ghost predicate RoundTrips(env: Env, opts: Options, lenient: bool, ty: string, m: Msg) {
    UnmarshalMsg(env, lenient, ty, MarshalMsg(env, opts, ty, m)) == Some(CanonMsg(opts, m))
  }

  /** Without defaults, and with the spelling that makes a field's member be called `x`. */
  function Spelling(name: Name, x: string): (opts: Options)
    ensures x in Accepted(name) ==> JsonName(opts, name) == x
  {
    Options(false, x == name.orig, false, false)
  }

  lemma LoneObject(env: Env, opts: Options, ty: string, j: nat, sv: SlotVal, x: string) returns (members: seq<Member>)
    requires ty in env.types && j < |env.types[ty]| && !opts.emitDefaults && !Omitted(opts, sv) && SlotName(opts, env.types[ty][j], sv) == x
    ensures MarshalMsg(env, opts, ty, Lone(env.types[ty], j, sv)) == JObject(members)
    ensures Only(members, Index(members, |members|), x)
  {
    var slots := env.types[ty];
    LoneMembers(env, opts, slots, j, sv, |slots|);
    members := [Member(x, MarshalSlot(env, opts, slots[j], sv))];
    assert Index(members, 0) == map[];
    assert Index(members, 1) == map[][x := 0];
  }

  /** A field whose name an earlier one accepts. */
  lemma FieldTaken(env: Env, lenient: bool, ty: string, j: nat, members: seq<Member>, x: string)
    requires ty in env.types && j < |env.types[ty]| && env.types[ty][j].Plain?
    requires Only(members, Index(members, |members|), x) && x in UsedFirst(env.types[ty], j)
    ensures var m := UnmarshalMsg(env, lenient, ty, JObject(members));
            m.Some? ==> j < |m.value.slots| && m.value.slots[j] == ZeroSlot(env.types[ty][j])
  {
    var slots, left := env.types[ty], Index(members, |members|);
    FirstLone(env, lenient, slots, members, left, x, |slots|);
    UsedMore(slots, j, |slots|, x);
    var p := PlainPass(env, lenient, slots, members, left, |slots|);
    if p.Some? {
      OneofIdle(env, lenient, slots, members, p.value.vals, |slots|);
    }
  }

  lemma {:induction false} UsedMore(slots: seq<Slot>, k: nat, n: nat, x: string)
    requires k <= n <= |slots| && x in UsedFirst(slots, k)
    ensures x in UsedFirst(slots, n)
    decreases n
  {
    if k < n {
      UsedMore(slots, k, n - 1, x);
    }
  }

  /** An alternative whose name a field, an earlier oneof or an earlier alternative accepts. */
  lemma AlternativeTaken(env: Env, lenient: bool, ty: string, j: nat, b: nat, members: seq<Member>, x: string)
    requires ty in env.types && j < |env.types[ty]| && env.types[ty][j].Oneof? && b < |env.types[ty][j].alts|
    requires Only(members, Index(members, |members|), x)
    requires var slots := env.types[ty];
             x in UsedFirst(slots, |slots|) || x in UsedSecond(slots, j) || x in AltNames(slots[j].alts, b)
    ensures var m := UnmarshalMsg(env, lenient, ty, JObject(members));
            m.Some? ==> j < |m.value.slots| && !(m.value.slots[j].Chosen? && m.value.slots[j].alt == b)
  {
    var slots, left := env.types[ty], Index(members, |members|);
    FirstLone(env, lenient, slots, members, left, x, |slots|);
    var p := PlainPass(env, lenient, slots, members, left, |slots|);
    if p.Some? {
      OneofsUnset(env, lenient, slots, members, left, |slots|);
      if x in UsedFirst(slots, |slots|) {
        OneofIdle(env, lenient, slots, members, p.value.vals, |slots|);
      } else {
        SecondLone(env, lenient, slots, members, p.value.vals, left, x, |slots|);
      }
    }
  }

  lemma {:induction false} OneofsUnset(env: Env, lenient: bool, slots: seq<Slot>, members: seq<Member>, left: map<string, nat>, n: nat)
    requires Within(left, |members|) && n <= |slots|
    ensures var p := PlainPass(env, lenient, slots, members, left, n);
            p.Some? ==> forall k | 0 <= k < n && slots[k].Oneof? :: p.value.vals[k] == Unset
  {
    if n > 0 {
      OneofsUnset(env, lenient, slots, members, left, n - 1);
    }
  }

  /** A field with a shared name: set on its own, it does not come back. */
  lemma FieldLost(env: Env, lenient: bool, ty: string, j: nat, x: string) returns (opts: Options, m: Msg)
    requires LibraryOk(env) && Closed(env) && ty in env.types && j < |env.types[ty]| && env.types[ty][j].Plain?
    requires x in FirstNames(env.types[ty][j]) && x in UsedFirst(env.types[ty], j)
    ensures TypedMsg(env, ty, m) && !RoundTrips(env, opts, lenient, ty, m)
  {
    var slots := env.types[ty];
    var name, shape := slots[j].name, slots[j].shape;
    opts := Spelling(name, x);
    var sv := SetField(env, shape);
    assert SlotDeclared(env, slots[j]);
    SetFieldTyped(env, name, shape, opts);
    LoneTyped(env, ty, j, sv);
    m := Lone(slots, j, sv);
    var members := LoneObject(env, opts, ty, j, sv, x);
    FieldTaken(env, lenient, ty, j, members, x);
    assert CanonMsg(opts, m).slots[j] == CanonSlot(opts, sv);
  }

  lemma AlternativeLost(env: Env, lenient: bool, ty: string, j: nat, b: nat, x: string) returns (opts: Options, m: Msg)
    requires LibraryOk(env) && Closed(env) && ty in env.types && j < |env.types[ty]| && env.types[ty][j].Oneof? && b < |env.types[ty][j].alts|
    requires x in Accepted(env.types[ty][j].alts[b].name)
    requires var slots := env.types[ty];
             x in UsedFirst(slots, |slots|) || x in UsedSecond(slots, j) || x in AltNames(slots[j].alts, b)
    ensures TypedMsg(env, ty, m) && !RoundTrips(env, opts, lenient, ty, m)
  {
    var slots := env.types[ty];
    var alt := slots[j].alts[b];
    opts := Spelling(alt.name, x);
    var sv := Chosen(b, SetVal(env, alt.k));
    assert SlotDeclared(env, slots[j]);
    SetValTyped(env, alt.k);
    LoneTyped(env, ty, j, sv);
    m := Lone(slots, j, sv);
    var members := LoneObject(env, opts, ty, j, sv, x);
    AlternativeTaken(env, lenient, ty, j, b, members, x);
    assert CanonMsg(opts, m).slots[j] == CanonSlot(opts, sv);
  }

  /** A name that is looked up before the field, or the alternative, that is written under it. */
  datatype Shared = InField(j: nat, x: string) | InAlternative(j: nat, b: nat, x: string)

  predicate IsShared(slots: seq<Slot>, s: Shared) {
    s.j < |slots| &&
    match s
    case InField(j, x) => slots[j].Plain? && x in FirstNames(slots[j]) && x in UsedFirst(slots, j)
    case InAlternative(j, b, x) =>
      && slots[j].Oneof? && b < |slots[j].alts| && x in Accepted(slots[j].alts[b].name)
      && (x in UsedFirst(slots, |slots|) || x in UsedSecond(slots, j) || x in AltNames(slots[j].alts, b))
  }

  lemma SharedFirst(slots: seq<Slot>, i: nat, j: nat) returns (s: Shared)
    requires i < j < |slots| && slots[j].Plain? && !Apart(FirstNames(slots[i]), FirstNames(slots[j]))
    ensures IsShared(slots, s)
  {
    var x :| x in FirstNames(slots[i]) && x in FirstNames(slots[j]);
    UsedHas(slots, i, j);
    s := InField(j, x);
  }

  lemma SharedMixed(slots: seq<Slot>, i: nat, j: nat) returns (s: Shared)
    requires i < |slots| && j < |slots| && !Apart(FirstNames(slots[i]), SecondNames(slots[j]))
    ensures IsShared(slots, s)
  {
    var x :| x in FirstNames(slots[i]) && x in SecondNames(slots[j]);
    UsedHas(slots, i, |slots|);
    var b := AltNamesFrom(slots[j].alts, |slots[j].alts|, x);
    s := InAlternative(j, b, x);
  }

  lemma SharedSecond(slots: seq<Slot>, i: nat, j: nat) returns (s: Shared)
    requires i < j < |slots| && !Apart(SecondNames(slots[i]), SecondNames(slots[j]))
    ensures IsShared(slots, s)
  {
    var x :| x in SecondNames(slots[i]) && x in SecondNames(slots[j]);
    UsedHas(slots, i, j);
    var b := AltNamesFrom(slots[j].alts, |slots[j].alts|, x);
    s := InAlternative(j, b, x);
  }

  lemma SharedWithin(slots: seq<Slot>, j: nat) returns (s: Shared)
    requires j < |slots| && slots[j].Oneof? && !DistinctAlts(slots[j].alts)
    ensures IsShared(slots, s)
  {
    var alts := slots[j].alts;
    var a, b :| 0 <= a < b < |alts| && !Apart(Accepted(alts[a].name), Accepted(alts[b].name));
    var x :| x in Accepted(alts[a].name) && x in Accepted(alts[b].name);
    AltNamesHas(alts, a, b);
    s := InAlternative(j, b, x);
  }

  lemma FindShared(slots: seq<Slot>) returns (s: Shared)
    requires !DistinctNames(slots)
    ensures IsShared(slots, s)
  {
    if i, j :| 0 <= i < j < |slots| && slots[j].Plain? && !Apart(FirstNames(slots[i]), FirstNames(slots[j])) {
      s := SharedFirst(slots, i, j);
    } else if i, j :| 0 <= i < |slots| && 0 <= j < |slots| && !Apart(FirstNames(slots[i]), SecondNames(slots[j])) {
      s := SharedMixed(slots, i, j);
    } else if i, j :| 0 <= i < j < |slots| && !Apart(SecondNames(slots[i]), SecondNames(slots[j])) {
      s := SharedSecond(slots, i, j);
    } else {
      var j :| 0 <= j < |slots| && slots[j].Oneof? && !DistinctAlts(slots[j].alts);
      s := SharedWithin(slots, j);
    }
  }

  /** A type whose names are not distinct has a message that does not come back. */
  lemma SharedNameLoses(env: Env, lenient: bool, ty: string) returns (opts: Options, m: Msg)
    requires LibraryOk(env) && Closed(env) && ty in env.types && !DistinctNames(env.types[ty])
    ensures TypedMsg(env, ty, m) && !RoundTrips(env, opts, lenient, ty, m)
  {
    var s := FindShared(env.types[ty]);
    match s
    case InField(j, x) => opts, m := FieldLost(env, lenient, ty, j, x);
    case InAlternative(j, b, x) => opts, m := AlternativeLost(env, lenient, ty, j, b, x);
  }

  /** Every message of every type comes back, under all options, if and only if every type's names are distinct. */
  lemma NamesExact(env: Env, lenient: bool)
    requires EnumsOk(env) && LibraryOk(env) && Closed(env)
    ensures (forall ty | ty in env.types :: DistinctNames(env.types[ty])) <==>
            (forall opts, ty, m | TypedMsg(env, ty, m) :: RoundTrips(env, opts, lenient, ty, m))
  {
    if forall ty | ty in env.types :: DistinctNames(env.types[ty]) {
      forall opts, ty, m | TypedMsg(env, ty, m) ensures RoundTrips(env, opts, lenient, ty, m) {
        MessageRoundTrip(env, opts, lenient, ty, m);
      }
    } else {
      var ty :| ty in env.types && !DistinctNames(env.types[ty]);
      var opts, m := SharedNameLoses(env, lenient, ty);
    }
  }
}
