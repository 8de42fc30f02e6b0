/**
 What unmarshalling reads, said without the unmarshaller (jsonpb.go): the spellings it
 accepts, which member a field is read from, and members that no field accepts.
 */
module JsonPbReads {
  import opened Common
  import opened DecimalText
  import opened JsonPb
  import opened JsonPbRoundTrip

  // ---------------------------------------------------------------------------
  // Scalars

  predicate IsInteger(k: Kind) {
    k in {KInt32, KInt64, KUint32, KUint64}
  }

  predicate Holds(k: Kind, n: int) {
    match k
    case KInt32 => -2_147_483_648 <= n <= 2_147_483_647
    case KUint32 => 0 <= n <= 4_294_967_295
    case KInt64 => -9_223_372_036_854_775_808 <= n <= 9_223_372_036_854_775_807
    case KUint64 => 0 <= n <= 18_446_744_073_709_551_615
    case _ => false
  }

  lemma TextRead(k: Kind, n: int)
    ensures ParseIntOf(k, IntText(n)) == if InRange(k, n) then Some(n) else None
  {
    IntReadBack(n);
    IntNoLeadingZero(n);
    assert "null"[0] == 'n' && IntText(n)[0] != 'n';
  }

  /** An integer is read from its text, quoted or not, if and only if the field can hold it. */
  lemma IntegerRead(env: Env, lenient: bool, k: Kind, n: int)
    requires IsInteger(k)
    ensures var r := if Holds(k, n) then Some(VInt(n)) else None;
            UnmarshalVal(env, lenient, k, JNum(IntText(n))) == r && UnmarshalVal(env, lenient, k, JString(IntText(n))) == r
  {
    TextRead(k, n);
    assert Holds(k, n) <==> InRange(k, n);
  }

  /** A number with a leading zero, or signed where there is no sign, is not read. */
  lemma NotRead(env: Env, lenient: bool, k: Kind, t: string)
    requires IsInteger(k) && (LeadingZero(t) || (t != "" && t[0] == '-' && (k.KUint32? || k.KUint64?)))
    ensures UnmarshalVal(env, lenient, k, JNum(t)).None? && UnmarshalVal(env, lenient, k, JString(t)).None?
  {
    assert "null"[0] == 'n';
  }

  /** An enumeration is read from a name in its table, or from any number of 32 bits. */
  lemma EnumRead(env: Env, lenient: bool, e: string, n: int, s: string)
    ensures UnmarshalVal(env, lenient, KEnum(e), JNum(IntText(n))) == if -2_147_483_648 <= n <= 2_147_483_647 then Some(VInt(n)) else None
    ensures UnmarshalVal(env, lenient, KEnum(e), JString(s)).Some? <==> e in env.enums && s in env.enums[e].values
    ensures e in env.enums && s in env.enums[e].values ==> UnmarshalVal(env, lenient, KEnum(e), JString(s)) == Some(VInt(env.enums[e].values[s]))
  {
    TextRead(KEnum(e), n);
  }

  /** The zero value of a kind. */
  predicate IsZero(k: Kind, v: Val) {
    match k
    case KBool => v == VBool(false)
    case KString => v == VString("")
    case KBytes => v == VBytes(None)
    case KMsg(_) => v == VNilMsg
    case KFloat32 => v == VFloat(Fin(0.0))
    case KFloat64 => v == VFloat(Fin(0.0))
    case _ => v == VInt(0)
  }

  predicate IsZeroSlot(shape: Shape, sv: SlotVal) {
    match shape
    case Single(k) => sv.One? && IsZero(k, sv.v)
    case Repeated(_) => sv.NilList?
    case MapOf(_, _) => sv.NilMap?
  }

  /** Null is read as the zero value, by fields of every kind and shape. */
  lemma NullRead(env: Env, lenient: bool, shape: Shape)
    ensures var r := UnmarshalSlot(env, lenient, shape, JNull); r.Some? && IsZeroSlot(shape, r.value)
  {
  }

  /** Booleans, strings and bytes are read from nothing but what stands for them. */
  lemma OnlyTheirOwn(env: Env, lenient: bool, j: Json)
    ensures UnmarshalVal(env, lenient, KBool, j).Some? <==> j in {JNull, JBool(true), JBool(false)}
    ensures j.JBool? ==> UnmarshalVal(env, lenient, KBool, j) == Some(VBool(j.b))
    ensures UnmarshalVal(env, lenient, KString, j).Some? <==> j.JNull? || j.JString?
    ensures j.JString? ==> UnmarshalVal(env, lenient, KString, j) == Some(VString(j.s))
    ensures UnmarshalVal(env, lenient, KBytes, j).Some? <==> j.JNull? || (j.JString? && env.unbase64(j.s).Some?)
  {
  }

  // ---------------------------------------------------------------------------
  // Which member a field is read from

  /** Member `i` is the last one called `x`. */
  predicate LastCalled(members: seq<Member>, n: nat, i: int, x: string)
    requires n <= |members|
  {
    0 <= i < n && members[i].name == x && forall j | i < j < n :: members[j].name != x
  }

  lemma {:induction false} IndexIs(members: seq<Member>, n: nat, x: string)
    requires n <= |members|
    ensures (forall i | 0 <= i < n && members[i].name == x :: x in Index(members, n))
    ensures x in Index(members, n) ==> LastCalled(members, n, Index(members, n)[x], x)
  {
    if n > 0 {
      IndexIs(members, n - 1, x);
    }
  }

  /** The names that the first `n` slots use up in the first pass. */
  ghost predicate UsedUp(slots: seq<Slot>, n: nat, x: string)
    requires n <= |slots|
  {
    exists j :: 0 <= j < n && x in FirstNames(slots[j])
  }

  /** The first pass leaves the names that no field so far accepts. */
  lemma {:induction false} PassLeaves(env: Env, lenient: bool, slots: seq<Slot>, members: seq<Member>, left: map<string, nat>, n: nat, x: string)
    requires n <= |slots| && Within(left, |members|) && PlainPass(env, lenient, slots, members, left, n).Some? && !UsedUp(slots, n, x)
    ensures var now := PlainPass(env, lenient, slots, members, left, n).value.left;
            (x in now <==> x in left) && (x in left ==> now[x] == left[x])
  {
    if n > 0 {
      assert !UsedUp(slots, n - 1, x) by {
        assert forall j | 0 <= j < n :: x !in FirstNames(slots[j]);
      }
      PassLeaves(env, lenient, slots, members, left, n - 1, x);
      assert x !in FirstNames(slots[n - 1]);
    }
  }

  /** What a slot is given in the first pass stays. */
  lemma {:induction false} PassKeeps(env: Env, lenient: bool, slots: seq<Slot>, members: seq<Member>, left: map<string, nat>, i: nat, n: nat)
    requires i < n <= |slots| && Within(left, |members|) && PlainPass(env, lenient, slots, members, left, n).Some?
    ensures var p := PlainPass(env, lenient, slots, members, left, i);
            && p.Some? && TakeField(env, lenient, slots[i], members, p.value.left).Some?
            && PlainPass(env, lenient, slots, members, left, n).value.vals[i] == TakeField(env, lenient, slots[i], members, p.value.left).value.sv
    decreases n
  {
    if i < n - 1 {
      PassKeeps(env, lenient, slots, members, left, i, n - 1);
    }
  }

  /** The second pass is about oneofs. */
  lemma {:induction false} SecondKeeps(env: Env, lenient: bool, slots: seq<Slot>, members: seq<Member>, scan: Scan, i: nat, n: nat)
    requires i < |slots| && n <= |slots| == |scan.vals| && Within(scan.left, |members|) && slots[i].Plain?
    requires OneofPass(env, lenient, slots, members, scan, n).Some?
    ensures OneofPass(env, lenient, slots, members, scan, n).value.vals[i] == scan.vals[i]
  {
    if n > 0 {
      SecondKeeps(env, lenient, slots, members, scan, i, n - 1);
    }
  }

  /**
   Where a field is read from: the last member called by its JSON name, or else by its
   name in the .proto file, or else nowhere.
   */
  ghost predicate ReadFrom(members: seq<Member>, name: Name, at: int) {
    if exists i :: LastCalled(members, |members|, i, CamelName(name)) then LastCalled(members, |members|, at, CamelName(name))
    else LastCalled(members, |members|, at, name.orig)
  }

  ghost predicate NotThere(members: seq<Member>, name: Name) {
    forall i | 0 <= i < |members| :: members[i].name != name.orig && members[i].name != CamelName(name)
  }

  /** A field whose names no earlier field accepts has the value of the member it is read from, or the zero value when there is none. */
  lemma FieldRead(env: Env, lenient: bool, ty: string, members: seq<Member>, i: nat) returns (at: int)
    requires UnmarshalMsg(env, lenient, ty, JObject(members)).Some? && i < |env.types[ty]| && env.types[ty][i].Plain?
    requires forall j | 0 <= j < i :: Apart(FirstNames(env.types[ty][j]), FirstNames(env.types[ty][i]))
    ensures var slot, m := env.types[ty][i], UnmarshalMsg(env, lenient, ty, JObject(members)).value;
            && |m.slots| == |env.types[ty]|
            && if NotThere(members, slot.name) then IsZeroSlot(slot.shape, m.slots[i])
               else
                 && ReadFrom(members, slot.name, at) && 0 <= at < |members|
                 && UnmarshalSlot(env, lenient, slot.shape, members[at].value) == Some(m.slots[i])
  {
    var slots, left := env.types[ty], Index(members, |members|);
    var name := slots[i].name;
    var p := PlainPass(env, lenient, slots, members, left, |slots|).value;
    PassKeeps(env, lenient, slots, members, left, i, |slots|);
    SecondKeeps(env, lenient, slots, members, p, i, |slots|);
    forall x | x in FirstNames(slots[i]) ensures !UsedUp(slots, i, x) {
      assert forall j | 0 <= j < i :: Apart(FirstNames(slots[j]), FirstNames(slots[i]));
    }
    PassLeaves(env, lenient, slots, members, left, i, name.orig);
    PassLeaves(env, lenient, slots, members, left, i, CamelName(name));
    IndexIs(members, |members|, name.orig);
    IndexIs(members, |members|, CamelName(name));
    at := if CamelName(name) in left then left[CamelName(name)] else if name.orig in left then left[name.orig] else -1;
  }

  // ---------------------------------------------------------------------------
  // Members that no field accepts

  ghost predicate Known(slots: seq<Slot>, x: string) {
    exists j :: 0 <= j < |slots| && (x in FirstNames(slots[j]) || x in SecondNames(slots[j]))
  }

  /** The values under the names that some field accepts are the same in both. */
  ghost predicate SameKnown(slots: seq<Slot>, a: seq<Member>, la: map<string, nat>, b: seq<Member>, lb: map<string, nat>)
    requires Within(la, |a|) && Within(lb, |b|)
  {
    forall x | Known(slots, x) :: (x in la <==> x in lb) && (x in la ==> a[la[x]].value == b[lb[x]].value)
  }

  lemma KnownFirst(slots: seq<Slot>, j: nat, x: string)
    requires j < |slots| && (x in FirstNames(slots[j]) || x in SecondNames(slots[j]))
    ensures Known(slots, x)
  {
  }

  /** One field takes the same from both. */
  lemma FieldSame(env: Env, lenient: bool, slots: seq<Slot>, i: nat, a: seq<Member>, la: map<string, nat>, b: seq<Member>, lb: map<string, nat>)
    requires i < |slots| && Within(la, |a|) && Within(lb, |b|) && SameKnown(slots, a, la, b, lb)
    ensures SameChoice(slots, a, TakeField(env, lenient, slots[i], a, la), b, TakeField(env, lenient, slots[i], b, lb))
  {
    match slots[i]
    case Plain(name, shape) =>
      KnownFirst(slots, i, name.orig);
      KnownFirst(slots, i, CamelName(name));
      FindSame(slots, name, a, la, b, lb);
    case Oneof(oneof, _) =>
      KnownFirst(slots, i, oneof);
  }

  ghost predicate SameScan(slots: seq<Slot>, a: seq<Member>, p: Option<Scan>, b: seq<Member>, q: Option<Scan>) {
    && (p.Some? <==> q.Some?)
    && (p.Some? ==>
          && Within(p.value.left, |a|) && Within(q.value.left, |b|)
          && p.value.vals == q.value.vals && SameKnown(slots, a, p.value.left, b, q.value.left))
  }

  /** The same, folded. */
  ghost predicate Alike(slots: seq<Slot>, a: seq<Member>, p: Option<Scan>, b: seq<Member>, q: Option<Scan>) {
    forall now :: AlikeHere(slots, a, p, b, q, now)
  }

  ghost predicate AlikeHere(slots: seq<Slot>, a: seq<Member>, p: Option<Scan>, b: seq<Member>, q: Option<Scan>, now: bool) {
    now ==> SameScan(slots, a, p, b, q)
  }

  lemma SlotSame(env: Env, lenient: bool, slots: seq<Slot>, a: seq<Member>, la: map<string, nat>, b: seq<Member>, lb: map<string, nat>, i: nat, n: nat)
    requires i < |slots| && n == i + 1 && Within(la, |a|) && Within(lb, |b|)
    requires Alike(slots, a, PlainPass(env, lenient, slots, a, la, i), b, PlainPass(env, lenient, slots, b, lb, i))
    ensures Alike(slots, a, PlainPass(env, lenient, slots, a, la, n), b, PlainPass(env, lenient, slots, b, lb, n))
  {
    var p, q := PlainPass(env, lenient, slots, a, la, i), PlainPass(env, lenient, slots, b, lb, i);
    assert AlikeHere(slots, a, p, b, q, true);
    var r, t := PlainPass(env, lenient, slots, a, la, n), PlainPass(env, lenient, slots, b, lb, n);
    if p.Some? {
      FieldSame(env, lenient, slots, i, a, p.value.left, b, q.value.left);
      var c, d := TakeField(env, lenient, slots[i], a, p.value.left), TakeField(env, lenient, slots[i], b, q.value.left);
      JoinSame(slots, a, p.value, c, b, q.value, d);
      assert r == Joined(p.value, c) && t == Joined(q.value, d);
    }
    assert forall now :: AlikeHere(slots, a, r, b, t, now);
  }

  lemma {:induction false} FirstSame(env: Env, lenient: bool, slots: seq<Slot>, a: seq<Member>, la: map<string, nat>, b: seq<Member>, lb: map<string, nat>, n: nat)
    requires n <= |slots| && Within(la, |a|) && Within(lb, |b|) && SameKnown(slots, a, la, b, lb)
    ensures Alike(slots, a, PlainPass(env, lenient, slots, a, la, n), b, PlainPass(env, lenient, slots, b, lb, n))
  {
    if n > 0 {
      FirstSame(env, lenient, slots, a, la, b, lb, n - 1);
      SlotSame(env, lenient, slots, a, la, b, lb, n - 1, n);
    } else {
      var p, q := PlainPass(env, lenient, slots, a, la, 0), PlainPass(env, lenient, slots, b, lb, 0);
      assert forall now :: AlikeHere(slots, a, p, b, q, now);
    }
  }

  /** A scan with one more slot. */
  function Joined(p: Scan, c: Option<Choice>): Option<Scan> {
    if c.None? then None else Some(Scan(p.vals + [c.value.sv], c.value.left))
  }

  lemma JoinSame(slots: seq<Slot>, a: seq<Member>, p: Scan, c: Option<Choice>, b: seq<Member>, q: Scan, d: Option<Choice>)
    requires p.vals == q.vals && SameChoice(slots, a, c, b, d)
    ensures SameScan(slots, a, Joined(p, c), b, Joined(q, d))
  {
  }

  ghost predicate SameChoice(slots: seq<Slot>, a: seq<Member>, p: Option<Choice>, b: seq<Member>, q: Option<Choice>) {
    && (p.Some? <==> q.Some?)
    && (p.Some? ==>
          && Within(p.value.left, |a|) && Within(q.value.left, |b|)
          && p.value.sv == q.value.sv && SameKnown(slots, a, p.value.left, b, q.value.left))
  }

  lemma {:induction false} AltsSame(env: Env, lenient: bool, slots: seq<Slot>, i: nat, a: seq<Member>, c: Choice, b: seq<Member>, d: Choice, n: nat)
    requires i < |slots| && slots[i].Oneof? && n <= |slots[i].alts| && SameChoice(slots, a, Some(c), b, Some(d))
    ensures SameChoice(slots, a, AltPass(env, lenient, slots[i].alts, a, c, n), b, AltPass(env, lenient, slots[i].alts, b, d, n))
  {
    if n > 0 {
      AltsSame(env, lenient, slots, i, a, c, b, d, n - 1);
      var p, q := AltPass(env, lenient, slots[i].alts, a, c, n - 1), AltPass(env, lenient, slots[i].alts, b, d, n - 1);
      if p.Some? {
        var name := slots[i].alts[n - 1].name;
        AltNamesHas(slots[i].alts, n - 1, |slots[i].alts|);
        KnownFirst(slots, i, name.orig);
        KnownFirst(slots, i, CamelName(name));
        FindSame(slots, name, a, p.value.left, b, q.value.left);
      }
    }
  }

  lemma FindSame(slots: seq<Slot>, name: Name, a: seq<Member>, la: map<string, nat>, b: seq<Member>, lb: map<string, nat>)
    requires Within(la, |a|) && Within(lb, |b|) && SameKnown(slots, a, la, b, lb) && Known(slots, name.orig) && Known(slots, CamelName(name))
    ensures var f, g := Find(name, la), Find(name, lb);
            && (f.Some? <==> g.Some?)
            && (f.Some? ==> f.value < |a| && g.value < |b| && a[f.value].value == b[g.value].value)
    ensures SameKnown(slots, a, la - Accepted(name), b, lb - Accepted(name))
  {
  }

  lemma {:induction false} SecondSame(env: Env, lenient: bool, slots: seq<Slot>, a: seq<Member>, s: Scan, b: seq<Member>, t: Scan, n: nat)
    requires n <= |slots| == |s.vals| && SameScan(slots, a, Some(s), b, Some(t))
    ensures SameScan(slots, a, OneofPass(env, lenient, slots, a, s, n), b, OneofPass(env, lenient, slots, b, t, n))
  {
    if n > 0 {
      SecondSame(env, lenient, slots, a, s, b, t, n - 1);
      var p, q := OneofPass(env, lenient, slots, a, s, n - 1), OneofPass(env, lenient, slots, b, t, n - 1);
      if p.Some? && slots[n - 1].Oneof? {
        AltsSame(env, lenient, slots, n - 1, a, Choice(p.value.vals[n - 1], p.value.left), b, Choice(q.value.vals[n - 1], q.value.left), |slots[n - 1].alts|);
      }
    }
  }

  /** The members among the first `n` that some field accepts. */
  ghost function KnownOnly(slots: seq<Slot>, members: seq<Member>, n: nat): seq<Member>
    requires n <= |members|
  {
    if n == 0 then []
    else if Known(slots, members[n - 1].name) then KnownOnly(slots, members, n - 1) + [members[n - 1]]
    else KnownOnly(slots, members, n - 1)
  }

  lemma {:induction false} KnownIndexed(slots: seq<Slot>, members: seq<Member>, n: nat, x: string)
    requires n <= |members| && Known(slots, x)
    ensures var kept := KnownOnly(slots, members, n);
            var la, lb := Index(members, n), Index(kept, |kept|);
            (x in la <==> x in lb) && (x in la ==> members[la[x]].value == kept[lb[x]].value)
  {
    if n > 0 {
      KnownIndexed(slots, members, n - 1, x);
      var kept := KnownOnly(slots, members, n - 1);
      if Known(slots, members[n - 1].name) {
        IndexSnoc(kept, members[n - 1]);
        NextIndexed(members, n - 1, Index(members, n - 1), kept, Index(kept, |kept|), x);
      }
    }
  }

  lemma NextIndexed(members: seq<Member>, i: nat, la: map<string, nat>, kept: seq<Member>, lb: map<string, nat>, x: string)
    requires i < |members| && Within(la, i) && Within(lb, |kept|) && (x in la <==> x in lb) && (x in la ==> members[la[x]].value == kept[lb[x]].value)
    ensures var la', lb', more := la[members[i].name := i], lb[members[i].name := |kept|], kept + [members[i]];
            (x in la' <==> x in lb') && (x in la' ==> members[la'[x]].value == more[lb'[x]].value)
  {
  }

  lemma IndexSnoc(kept: seq<Member>, m: Member)
    ensures Index(kept + [m], |kept| + 1) == Index(kept, |kept|)[m.name := |kept|]
  {
    var more := kept + [m];
    assert more[..|kept|] == kept == kept[..|kept|];
    IndexPrefix(more, kept, |kept|);
  }

  /** With leniency, members that no field accepts make no difference. */
  lemma StrayIgnored(env: Env, ty: string, members: seq<Member>)
    requires ty in env.types
    ensures UnmarshalMsg(env, true, ty, JObject(members)) == UnmarshalMsg(env, true, ty, JObject(KnownOnly(env.types[ty], members, |members|)))
  {
    var slots, kept := env.types[ty], KnownOnly(env.types[ty], members, |members|);
    var la, lb := Index(members, |members|), Index(kept, |kept|);
    forall x | Known(slots, x) ensures (x in la <==> x in lb) && (x in la ==> members[la[x]].value == kept[lb[x]].value) {
      KnownIndexed(slots, members, |members|, x);
    }
    FirstSame(env, true, slots, members, la, kept, lb, |slots|);
    var p, q := PlainPass(env, true, slots, members, la, |slots|), PlainPass(env, true, slots, kept, lb, |slots|);
    assert AlikeHere(slots, members, p, kept, q, true);
    if p.Some? {
      SecondSame(env, true, slots, members, p.value, kept, q.value, |slots|);
    }
  }

  lemma {:induction false} AltsLeave(env: Env, lenient: bool, alts: seq<Alternative>, members: seq<Member>, c: Choice, n: nat, x: string)
    requires n <= |alts| && Within(c.left, |members|) && x in c.left && x !in AltNames(alts, |alts|)
    requires AltPass(env, lenient, alts, members, c, n).Some?
    ensures x in AltPass(env, lenient, alts, members, c, n).value.left
  {
    if n > 0 {
      AltsLeave(env, lenient, alts, members, c, n - 1, x);
      AltNamesHas(alts, n - 1, |alts|);
    }
  }

  lemma {:induction false} SecondLeaves(env: Env, lenient: bool, slots: seq<Slot>, members: seq<Member>, scan: Scan, n: nat, x: string)
    requires n <= |slots| == |scan.vals| && Within(scan.left, |members|) && x in scan.left && !Known(slots, x)
    requires OneofPass(env, lenient, slots, members, scan, n).Some?
    ensures x in OneofPass(env, lenient, slots, members, scan, n).value.left
  {
    if n > 0 {
      SecondLeaves(env, lenient, slots, members, scan, n - 1, x);
      var p := OneofPass(env, lenient, slots, members, scan, n - 1);
      if slots[n - 1].Oneof? {
        assert x !in SecondNames(slots[n - 1]);
        AltsLeave(env, lenient, slots[n - 1].alts, members, Choice(p.value.vals[n - 1], p.value.left), |slots[n - 1].alts|, x);
      }
    }
  }

  /** Without leniency, an object with a member that no field accepts is refused. */
  lemma StrayRefused(env: Env, ty: string, members: seq<Member>, k: nat)
    requires ty in env.types && k < |members| && !Known(env.types[ty], members[k].name)
    ensures UnmarshalMsg(env, false, ty, JObject(members)).None?
  {
    var slots, left, x := env.types[ty], Index(members, |members|), members[k].name;
    IndexIs(members, |members|, x);
    var p := PlainPass(env, false, slots, members, left, |slots|);
    if p.Some? {
      assert !UsedUp(slots, |slots|, x);
      PassLeaves(env, false, slots, members, left, |slots|, x);
      if OneofPass(env, false, slots, members, p.value, |slots|).Some? {
        SecondLeaves(env, false, slots, members, p.value, |slots|, x);
      }
    }
  }
}
