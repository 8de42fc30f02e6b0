/**
 What unmarshalling gives back after marshalling, for every message and every choice of
 options (jsonpb.go).
 */
module JsonPbRoundTrip {
  import opened Common
  import opened DecimalText
  import opened JsonPb

  // ---------------------------------------------------------------------------
  // What survives

  /** Nil slices and maps become empty ones when defaults are emitted; a negative zero is dropped when they are not. */
  function CanonVal(opts: Options, v: Val): Val
    decreases v, 0
  {
    if v.VMsg? then VMsg(CanonMsg(opts, v.m)) else v
  }

  function CanonMsg(opts: Options, m: Msg): Msg
    decreases m, 1
  {
    Msg(seq(|m.slots|, i requires 0 <= i < |m.slots| => CanonSlot(opts, m.slots[i])))
  }

  function CanonSlot(opts: Options, sv: SlotVal): SlotVal
    decreases sv, 1
  {
    match sv
    case One(v) => One(if Omitted(opts, sv) && v == VFloat(NegZero) then VFloat(Fin(0.0)) else CanonVal(opts, v))
    case NilList => if opts.emitDefaults then List([]) else NilList
    case List(vs) => List(seq(|vs|, i requires 0 <= i < |vs| => CanonVal(opts, vs[i])))
    case NilMap => if opts.emitDefaults then Entries(map[]) else NilMap
    case Entries(entries) => Entries(map x | x in entries :: CanonVal(opts, entries[x]))
    case Unset => Unset
    case Chosen(alt, v) => Chosen(alt, CanonVal(opts, v))
  }

  /** Nothing in the message is of the kinds that do not survive. */
  predicate Survives(opts: Options, m: Msg)
    decreases m, 1
  {
    forall i | 0 <= i < |m.slots| :: SlotSurvives(opts, m.slots[i])
  }

  predicate SlotSurvives(opts: Options, sv: SlotVal)
    decreases sv, 1
  {
    match sv
    case One(v) => (v == VFloat(NegZero) ==> opts.emitDefaults) && ValSurvives(opts, v)
    case NilList => !opts.emitDefaults
    case NilMap => !opts.emitDefaults
    case List(vs) => forall i | 0 <= i < |vs| :: ValSurvives(opts, vs[i])
    case Entries(entries) => forall x | x in entries :: ValSurvives(opts, entries[x])
    case Unset => true
    case Chosen(_, v) => ValSurvives(opts, v)
  }

  predicate ValSurvives(opts: Options, v: Val)
    decreases v, 0
  {
    v.VMsg? ==> Survives(opts, v.m)
  }

  lemma {:induction false} ValSurvivesExactly(opts: Options, v: Val)
    ensures CanonVal(opts, v) == v <==> ValSurvives(opts, v)
    decreases v, 0
  {
    if v.VMsg? {
      SurvivesExactly(opts, v.m);
    }
  }

  lemma {:induction false} SlotSurvivesExactly(opts: Options, sv: SlotVal)
    ensures CanonSlot(opts, sv) == sv <==> SlotSurvives(opts, sv)
    decreases sv, 1
  {
    match sv
    case One(v) =>
      ValSurvivesExactly(opts, v);
    case List(vs) =>
      forall i | 0 <= i < |vs| ensures CanonVal(opts, vs[i]) == vs[i] <==> ValSurvives(opts, vs[i]) {
        ValSurvivesExactly(opts, vs[i]);
      }
      var c := CanonSlot(opts, sv).vs;
      assert c == vs <==> forall i | 0 <= i < |vs| :: c[i] == vs[i];
    case Entries(entries) =>
      forall x | x in entries ensures CanonVal(opts, entries[x]) == entries[x] <==> ValSurvives(opts, entries[x]) {
        ValSurvivesExactly(opts, entries[x]);
      }
      var c := CanonSlot(opts, sv).entries;
      assert c.Keys == entries.Keys;
      assert c == entries <==> forall x | x in entries :: c[x] == entries[x];
    case Chosen(_, v) =>
      ValSurvivesExactly(opts, v);
    case _ =>
  }

  lemma {:induction false} SurvivesExactly(opts: Options, m: Msg)
    ensures CanonMsg(opts, m) == m <==> Survives(opts, m)
    decreases m, 1
  {
    forall i | 0 <= i < |m.slots| ensures CanonSlot(opts, m.slots[i]) == m.slots[i] <==> SlotSurvives(opts, m.slots[i]) {
      SlotSurvivesExactly(opts, m.slots[i]);
    }
    var c := CanonMsg(opts, m).slots;
    assert c == m.slots <==> forall i | 0 <= i < |c| :: c[i] == m.slots[i];
  }

  // ---------------------------------------------------------------------------
  // Names

  function AltNames(alts: seq<Alternative>, n: nat): set<string>
    requires n <= |alts|
  {
    if n == 0 then {} else AltNames(alts, n - 1) + Accepted(alts[n - 1].name)
  }

  /** The names the first pass uses up for a slot. */
  function FirstNames(slot: Slot): set<string> {
    match slot
    case Plain(name, _) => Accepted(name)
    case Oneof(oneof, _) => {oneof}
  }

  function SecondNames(slot: Slot): set<string> {
    match slot
    case Plain(_, _) => {}
    case Oneof(_, alts) => AltNames(alts, |alts|)
  }

  /** The names a slot's own member can be written under. */
  function Names(slot: Slot): set<string> {
    if slot.Plain? then FirstNames(slot) else SecondNames(slot)
  }

  predicate Apart(a: set<string>, b: set<string>) {
    a !! b
  }

  /**
   No name, in either spelling, is looked up before the field comes to be read that it
   is written for: by an earlier field or oneof, or, for an alternative, by any field or
   oneof and any earlier alternative.
   */
  predicate DistinctNames(slots: seq<Slot>) {
    && (forall i, j | 0 <= i < j < |slots| && slots[j].Plain? :: Apart(FirstNames(slots[i]), FirstNames(slots[j])))
    && (forall i, j | 0 <= i < |slots| && 0 <= j < |slots| :: Apart(FirstNames(slots[i]), SecondNames(slots[j])))
    && (forall i, j | 0 <= i < j < |slots| :: Apart(SecondNames(slots[i]), SecondNames(slots[j])))
    && (forall i | 0 <= i < |slots| && slots[i].Oneof? :: DistinctAlts(slots[i].alts))
  }

  predicate DistinctAlts(alts: seq<Alternative>) {
    forall a, b | 0 <= a < b < |alts| :: Apart(Accepted(alts[a].name), Accepted(alts[b].name))
  }

  /** Every name in an enumeration's table stands for the number it was looked up for. */
  predicate EnumOk(t: EnumTable) {
    forall n | n in t.names :: t.names[n] in t.values && t.values[t.names[n]] == n
  }

  predicate EnumsOk(env: Env) {
    forall e | e in env.enums :: EnumOk(env.enums[e])
  }

  predicate EnvOk(env: Env) {
    (forall ty | ty in env.types :: DistinctNames(env.types[ty])) && EnumsOk(env)
  }

  lemma {:induction false} AltNamesHas(alts: seq<Alternative>, a: nat, n: nat)
    requires a < n <= |alts|
    ensures Accepted(alts[a].name) <= AltNames(alts, n)
  {
    if a < n - 1 {
      AltNamesHas(alts, a, n - 1);
    }
  }

  lemma {:induction false} AltNamesFrom(alts: seq<Alternative>, n: nat, x: string) returns (a: nat)
    requires n <= |alts| && x in AltNames(alts, n)
    ensures a < n && x in Accepted(alts[a].name)
  {
    if x in Accepted(alts[n - 1].name) {
      a := n - 1;
    } else {
      a := AltNamesFrom(alts, n - 1, x);
    }
  }

  // ---------------------------------------------------------------------------
  // The members of one message

  /** A message being marshalled: its slots and their values. */
  datatype Ctx = Ctx(env: Env, opts: Options, slots: seq<Slot>, vals: seq<SlotVal>)

  predicate Fits(slot: Slot, sv: SlotVal) {
    match slot
    case Plain(_, _) => !sv.Unset? && !sv.Chosen?
    case Oneof(_, alts) => sv.Unset? || (sv.Chosen? && sv.alt < |alts|)
  }

  predicate Ready(c: Ctx) {
    |c.slots| == |c.vals| && DistinctNames(c.slots) && forall i | 0 <= i < |c.slots| :: Fits(c.slots[i], c.vals[i])
  }

  ghost function Mem(c: Ctx, n: nat): seq<Member>
    requires n <= |c.slots| == |c.vals|
  {
    Members(c.env, c.opts, c.slots, c.vals, n)
  }

  predicate Out(c: Ctx, i: nat)
    requires i < |c.slots| == |c.vals|
  {
    !Omitted(c.opts, c.vals[i])
  }

  function OutName(c: Ctx, i: nat): string
    requires i < |c.slots| == |c.vals|
  {
    SlotName(c.opts, c.slots[i], c.vals[i])
  }

  lemma OutNameOwn(c: Ctx, i: nat)
    requires Ready(c) && i < |c.slots| && Out(c, i)
    ensures OutName(c, i) in Names(c.slots[i])
    ensures c.slots[i].Plain? ==> OutName(c, i) in Accepted(c.slots[i].name)
    ensures c.slots[i].Oneof? ==> c.vals[i].Chosen? && OutName(c, i) in Accepted(c.slots[i].alts[c.vals[i].alt].name)
  {
    if c.slots[i].Oneof? {
      AltNamesHas(c.slots[i].alts, c.vals[i].alt, |c.slots[i].alts|);
    }
  }

  lemma {:induction false} MemPrefix(c: Ctx, i: nat, n: nat)
    requires i <= n <= |c.slots| == |c.vals|
    ensures Mem(c, i) <= Mem(c, n)
    decreases n
  {
    if i < n {
      MemPrefix(c, i, n - 1);
    }
  }

  lemma {:induction false} IndexPrefix(a: seq<Member>, b: seq<Member>, n: nat)
    requires n <= |a| && n <= |b| && a[..n] == b[..n]
    ensures Index(a, n) == Index(b, n)
  {
    if n > 0 {
      assert a[..n - 1] == a[..n][..n - 1] == b[..n][..n - 1] == b[..n - 1];
      assert a[n - 1] == a[..n][n - 1] == b[..n][n - 1] == b[n - 1];
      IndexPrefix(a, b, n - 1);
    }
  }

  ghost function Idx(c: Ctx, n: nat): map<string, nat>
    requires n <= |c.slots| == |c.vals|
  {
    Index(Mem(c, n), |Mem(c, n)|)
  }

  lemma IdxStep(c: Ctx, n: nat)
    requires n < |c.slots| == |c.vals|
    ensures Idx(c, n + 1) == if Out(c, n) then Idx(c, n)[OutName(c, n) := |Mem(c, n)|] else Idx(c, n)
  {
    var a, b := Mem(c, n), Mem(c, n + 1);
    if Out(c, n) {
      assert b[..|a|] == a == a[..|a|];
      IndexPrefix(b, a, |a|);
    }
  }

  /** A name that is there was put there by a slot. */
  lemma {:induction false} Origin(c: Ctx, n: nat, x: string) returns (i: nat)
    requires n <= |c.slots| == |c.vals| && x in Idx(c, n)
    ensures i < n && Out(c, i) && OutName(c, i) == x && Idx(c, n)[x] == |Mem(c, i)|
  {
    IdxStep(c, n - 1);
    if Out(c, n - 1) && x == OutName(c, n - 1) {
      i := n - 1;
    } else {
      i := Origin(c, n - 1, x);
    }
  }

  lemma {:induction false} IsThere(c: Ctx, i: nat, n: nat)
    requires i < n <= |c.slots| == |c.vals| && Out(c, i)
    ensures OutName(c, i) in Idx(c, n)
  {
    IdxStep(c, n - 1);
    if i < n - 1 {
      IsThere(c, i, n - 1);
    }
  }

  lemma SlotsApart(c: Ctx, i: nat, j: nat, x: string)
    requires Ready(c) && i < |c.slots| && j < |c.slots| && i != j && x in Names(c.slots[i])
    ensures x !in Names(c.slots[j])
  {
    if c.slots[i].Plain? && c.slots[j].Plain? {
      assert i < j ==> Apart(FirstNames(c.slots[i]), FirstNames(c.slots[j]));
      assert j < i ==> Apart(FirstNames(c.slots[j]), FirstNames(c.slots[i]));
    } else if c.slots[i].Plain? {
      assert Apart(FirstNames(c.slots[i]), SecondNames(c.slots[j]));
    } else if c.slots[j].Plain? {
      assert Apart(FirstNames(c.slots[j]), SecondNames(c.slots[i]));
    } else {
      assert i < j ==> Apart(SecondNames(c.slots[i]), SecondNames(c.slots[j]));
      assert j < i ==> Apart(SecondNames(c.slots[j]), SecondNames(c.slots[i]));
    }
  }

  /** Under the names of a slot there is what the slot put there, or nothing. */
  lemma OnlyOwn(c: Ctx, i: nat, x: string)
    requires Ready(c) && i < |c.slots| && x in Names(c.slots[i])
    ensures var f := Idx(c, |c.slots|); x in f ==> Out(c, i) && OutName(c, i) == x && f[x] == |Mem(c, i)|
  {
    if x in Idx(c, |c.slots|) {
      var j := Origin(c, |c.slots|, x);
      OutNameOwn(c, j);
      if i != j {
        SlotsApart(c, i, j, x);
      }
    }
  }

  lemma FindPlain(c: Ctx, i: nat, used: set<string>)
    requires Ready(c) && i < |c.slots| && c.slots[i].Plain? && Apart(used, FirstNames(c.slots[i]))
    ensures Find(c.slots[i].name, Idx(c, |c.slots|) - used) == if Out(c, i) then Some(|Mem(c, i)|) else None
  {
    var name := c.slots[i].name;
    OnlyOwn(c, i, name.orig);
    OnlyOwn(c, i, CamelName(name));
    if Out(c, i) {
      OutNameOwn(c, i);
      IsThere(c, i, |c.slots|);
    }
  }

  lemma FindAlt(c: Ctx, i: nat, a: nat, used: set<string>)
    requires Ready(c) && i < |c.slots| && c.slots[i].Oneof? && a < |c.slots[i].alts|
    requires Apart(used, Accepted(c.slots[i].alts[a].name))
    ensures Find(c.slots[i].alts[a].name, Idx(c, |c.slots|) - used) ==
            if Out(c, i) && c.vals[i].Chosen? && c.vals[i].alt == a then Some(|Mem(c, i)|) else None
  {
    var alts := c.slots[i].alts;
    var name := alts[a].name;
    AltNamesHas(alts, a, |alts|);
    OnlyOwn(c, i, name.orig);
    OnlyOwn(c, i, CamelName(name));
    if Out(c, i) {
      OutNameOwn(c, i);
      var b := c.vals[i].alt;
      if b == a {
        IsThere(c, i, |c.slots|);
      } else {
        assert DistinctAlts(alts);
        assert a < b ==> Apart(Accepted(alts[a].name), Accepted(alts[b].name));
        assert b < a ==> Apart(Accepted(alts[b].name), Accepted(alts[a].name));
      }
    }
  }

  /** When the first pass comes to a oneof, no member goes by its name: an earlier field may have used one up. */
  lemma NoOneofName(c: Ctx, i: nat)
    requires Ready(c) && i < |c.slots| && c.slots[i].Oneof?
    ensures c.slots[i].oneof !in Idx(c, |c.slots|) - UsedFirst(c.slots, i)
  {
    var x := c.slots[i].oneof;
    if x in Idx(c, |c.slots|) {
      var j := Origin(c, |c.slots|, x);
      OutNameOwn(c, j);
      assert Apart(FirstNames(c.slots[i]), SecondNames(c.slots[j]));
      if c.slots[j].Plain? {
        assert i < j ==> Apart(FirstNames(c.slots[i]), FirstNames(c.slots[j]));
        if j < i {
          UsedHas(c.slots, j, i);
        }
      }
    }
  }

  // ---------------------------------------------------------------------------
  // The two passes

  /** What the slot put into its member comes back. */
  ghost predicate ComesBack(c: Ctx, lenient: bool, i: nat)
    requires i < |c.slots| == |c.vals|
  {
    var j := MarshalSlot(c.env, c.opts, c.slots[i], c.vals[i]);
    match c.slots[i]
    case Plain(_, shape) => UnmarshalSlot(c.env, lenient, shape, j) == Some(CanonSlot(c.opts, c.vals[i]))
    case Oneof(_, alts) =>
      && c.vals[i].Chosen? && c.vals[i].alt < |alts|
      && UnmarshalVal(c.env, lenient, alts[c.vals[i].alt].k, j) == Some(CanonVal(c.opts, c.vals[i].v))
  }

  /** A slot that left nothing behind is zero afterwards, which is what is left of its value. */
  predicate StaysZero(c: Ctx, i: nat)
    requires i < |c.slots| == |c.vals|
  {
    ZeroSlot(c.slots[i]) == CanonSlot(c.opts, c.vals[i])
  }

  ghost predicate SlotBack(c: Ctx, lenient: bool, i: nat)
    requires i < |c.slots| == |c.vals|
  {
    if Out(c, i) then ComesBack(c, lenient, i) else StaysZero(c, i)
  }

  ghost predicate AllBack(c: Ctx, lenient: bool)
    requires |c.slots| == |c.vals|
  {
    forall i | 0 <= i < |c.slots| :: SlotBack(c, lenient, i)
  }

  lemma MemberAt(c: Ctx, i: nat)
    requires i < |c.slots| == |c.vals| && Out(c, i)
    ensures var all := Mem(c, |c.slots|);
            |Mem(c, i)| < |all| && all[|Mem(c, i)|].value == MarshalSlot(c.env, c.opts, c.slots[i], c.vals[i])
  {
    MemPrefix(c, i + 1, |c.slots|);
    assert Mem(c, i + 1)[|Mem(c, i)|].value == MarshalSlot(c.env, c.opts, c.slots[i], c.vals[i]);
  }

  function UsedFirst(slots: seq<Slot>, n: nat): set<string>
    requires n <= |slots|
  {
    if n == 0 then {} else UsedFirst(slots, n - 1) + FirstNames(slots[n - 1])
  }

  function UsedSecond(slots: seq<Slot>, n: nat): set<string>
    requires n <= |slots|
  {
    if n == 0 then {} else UsedSecond(slots, n - 1) + SecondNames(slots[n - 1])
  }

  lemma {:induction false} UsedFirstFrom(slots: seq<Slot>, n: nat, x: string) returns (i: nat)
    requires n <= |slots| && x in UsedFirst(slots, n)
    ensures i < n && x in FirstNames(slots[i])
  {
    if x in FirstNames(slots[n - 1]) {
      i := n - 1;
    } else {
      i := UsedFirstFrom(slots, n - 1, x);
    }
  }

  lemma {:induction false} UsedSecondFrom(slots: seq<Slot>, n: nat, x: string) returns (i: nat)
    requires n <= |slots| && x in UsedSecond(slots, n)
    ensures i < n && x in SecondNames(slots[i])
  {
    if x in SecondNames(slots[n - 1]) {
      i := n - 1;
    } else {
      i := UsedSecondFrom(slots, n - 1, x);
    }
  }

  lemma {:induction false} UsedHas(slots: seq<Slot>, i: nat, n: nat)
    requires i < n <= |slots|
    ensures FirstNames(slots[i]) <= UsedFirst(slots, n) && SecondNames(slots[i]) <= UsedSecond(slots, n)
  {
    if i < n - 1 {
      UsedHas(slots, i, n - 1);
    }
  }

  /** The first pass over earlier slots has not used the names of this field. */
  lemma FirstApart(c: Ctx, i: nat)
    requires Ready(c) && i < |c.slots| && c.slots[i].Plain?
    ensures Apart(UsedFirst(c.slots, i), FirstNames(c.slots[i]))
  {
    forall x | x in UsedFirst(c.slots, i) ensures x !in FirstNames(c.slots[i]) {
      var j := UsedFirstFrom(c.slots, i, x);
      assert Apart(FirstNames(c.slots[j]), FirstNames(c.slots[i]));
    }
  }

  /** When the second pass comes to a slot, its alternatives' names have not been used. */
  lemma SecondApart(c: Ctx, i: nat)
    requires Ready(c) && i < |c.slots|
    ensures Apart(UsedFirst(c.slots, |c.slots|) + UsedSecond(c.slots, i), SecondNames(c.slots[i]))
  {
    forall x | x in UsedFirst(c.slots, |c.slots|) ensures x !in SecondNames(c.slots[i]) {
      var j := UsedFirstFrom(c.slots, |c.slots|, x);
      assert Apart(FirstNames(c.slots[j]), SecondNames(c.slots[i]));
    }
    forall x | x in UsedSecond(c.slots, i) ensures x !in SecondNames(c.slots[i]) {
      var j := UsedSecondFrom(c.slots, i, x);
      assert Apart(SecondNames(c.slots[j]), SecondNames(c.slots[i]));
    }
  }

  /** The value of a slot after the first pass. */
  function FirstVal(c: Ctx, i: nat): SlotVal
    requires i < |c.slots| == |c.vals|
  {
    if c.slots[i].Plain? then CanonSlot(c.opts, c.vals[i]) else Unset
  }

  function FirstVals(c: Ctx, n: nat): seq<SlotVal>
    requires n <= |c.slots| == |c.vals|
  {
    seq(n, i requires 0 <= i < n => FirstVal(c, i))
  }

  lemma FirstValOut(c: Ctx, lenient: bool, i: nat)
    requires Ready(c) && AllBack(c, lenient) && i < |c.slots| && c.slots[i].Plain? && Out(c, i)
    ensures |Mem(c, i)| < |Mem(c, |c.slots|)|
    ensures UnmarshalSlot(c.env, lenient, c.slots[i].shape, Mem(c, |c.slots|)[|Mem(c, i)|].value) == Some(FirstVal(c, i))
  {
    MemberAt(c, i);
    assert SlotBack(c, lenient, i);
  }

  lemma FirstValZero(c: Ctx, lenient: bool, i: nat)
    requires Ready(c) && AllBack(c, lenient) && i < |c.slots| && c.slots[i].Plain? && !Out(c, i)
    ensures ZeroSlot(c.slots[i]) == FirstVal(c, i)
  {
    assert SlotBack(c, lenient, i);
  }

  /** After `n` slots the first pass has these values and has used these names. */
  ghost predicate FirstIs(c: Ctx, lenient: bool, n: nat, vals: seq<SlotVal>, used: set<string>) {
    forall now :: FirstIsHere(c, lenient, n, vals, used, now)
  }

  ghost predicate FirstIsHere(c: Ctx, lenient: bool, n: nat, vals: seq<SlotVal>, used: set<string>, now: bool) {
    now ==> n <= |c.slots| == |c.vals| &&
            PlainPass(c.env, lenient, c.slots, Mem(c, |c.slots|), Idx(c, |c.slots|), n) == Some(Scan(vals, Idx(c, |c.slots|) - used))
  }

  lemma FirstStart(c: Ctx, lenient: bool)
    requires Ready(c)
    ensures FirstIs(c, lenient, 0, [], {})
  {
    assert Idx(c, |c.slots|) - {} == Idx(c, |c.slots|);
    assert forall now :: FirstIsHere(c, lenient, 0, [], {}, now);
  }

  /** What slot `i` takes when the names `used` are gone: its value, and the names gone then. */
  ghost predicate Takes(c: Ctx, lenient: bool, i: nat, used: set<string>, sv: SlotVal, used': set<string>) {
    forall now :: TakesHere(c, lenient, i, used, sv, used', now)
  }

  ghost predicate TakesHere(c: Ctx, lenient: bool, i: nat, used: set<string>, sv: SlotVal, used': set<string>, now: bool) {
    now ==> i < |c.slots| == |c.vals| &&
            TakeField(c.env, lenient, c.slots[i], Mem(c, |c.slots|), Idx(c, |c.slots|) - used) == Some(Choice(sv, Idx(c, |c.slots|) - used'))
  }

  lemma FirstStep(c: Ctx, lenient: bool, i: nat, vals: seq<SlotVal>, used: set<string>, sv: SlotVal, used': set<string>)
    requires i < |c.slots| == |c.vals| && FirstIs(c, lenient, i, vals, used) && Takes(c, lenient, i, used, sv, used')
    ensures FirstIs(c, lenient, i + 1, vals + [sv], used')
  {
    assert FirstIsHere(c, lenient, i, vals, used, true) && TakesHere(c, lenient, i, used, sv, used', true);
    var n, vals' := i + 1, vals + [sv];
    assert forall now :: FirstIsHere(c, lenient, n, vals', used', now);
  }

  lemma PlainTakes(c: Ctx, lenient: bool, i: nat, used: set<string>)
    requires Ready(c) && AllBack(c, lenient) && i < |c.slots| && c.slots[i].Plain? && Apart(used, FirstNames(c.slots[i]))
    ensures Takes(c, lenient, i, used, FirstVal(c, i), used + FirstNames(c.slots[i]))
  {
    var left, names := Idx(c, |c.slots|) - used, FirstNames(c.slots[i]);
    assert left - names == Idx(c, |c.slots|) - (used + names);
    FindPlain(c, i, used);
    if Out(c, i) {
      FirstValOut(c, lenient, i);
    } else {
      FirstValZero(c, lenient, i);
      assert left - names == left;
    }
    var sv, used' := FirstVal(c, i), used + names;
    assert forall now :: TakesHere(c, lenient, i, used, sv, used', now);
  }

  lemma OneofTakes(c: Ctx, lenient: bool, i: nat, used: set<string>)
    requires Ready(c) && i < |c.slots| && c.slots[i].Oneof? && used == UsedFirst(c.slots, i)
    ensures Takes(c, lenient, i, used, FirstVal(c, i), used + FirstNames(c.slots[i]))
  {
    NoOneofName(c, i);
    assert Idx(c, |c.slots|) - used == Idx(c, |c.slots|) - (used + FirstNames(c.slots[i]));
    var sv, used' := FirstVal(c, i), used + FirstNames(c.slots[i]);
    assert forall now :: TakesHere(c, lenient, i, used, sv, used', now);
  }

  lemma FirstValsStep(c: Ctx, i: nat)
    requires i < |c.slots| == |c.vals|
    ensures FirstVals(c, 0) == [] && FirstVals(c, i + 1) == FirstVals(c, i) + [FirstVal(c, i)]
  {
  }

  lemma {:induction false} FirstPass(c: Ctx, lenient: bool, n: nat)
    requires Ready(c) && AllBack(c, lenient) && n <= |c.slots|
    ensures FirstIs(c, lenient, n, FirstVals(c, n), UsedFirst(c.slots, n))
  {
    if n == 0 {
      FirstStart(c, lenient);
      assert FirstVals(c, 0) == [];
    } else {
      var i := n - 1;
      FirstPass(c, lenient, i);
      FirstValsStep(c, i);
      if c.slots[i].Plain? {
        FirstApart(c, i);
        PlainTakes(c, lenient, i, UsedFirst(c.slots, i));
      } else {
        OneofTakes(c, lenient, i, UsedFirst(c.slots, i));
      }
      FirstStep(c, lenient, i, FirstVals(c, i), UsedFirst(c.slots, i), FirstVal(c, i), UsedFirst(c.slots, n));
    }
  }

  /** The state of one oneof after its first `n` alternatives. */
  function Chose(c: Ctx, i: nat, n: nat): SlotVal
    requires i < |c.slots| == |c.vals|
  {
    if c.vals[i].Chosen? && c.vals[i].alt < n then CanonSlot(c.opts, c.vals[i]) else Unset
  }

  /** With `used` names gone, the first `n` alternatives of slot `i` make it `sv` and leave `gone` used. */
  ghost predicate AltIs(c: Ctx, lenient: bool, i: nat, used: set<string>, n: nat, sv: SlotVal, gone: set<string>) {
    forall now :: AltIsHere(c, lenient, i, used, n, sv, gone, now)
  }

  ghost predicate AltIsHere(c: Ctx, lenient: bool, i: nat, used: set<string>, n: nat, sv: SlotVal, gone: set<string>, now: bool) {
    now ==> i < |c.slots| == |c.vals| && c.slots[i].Oneof? && n <= |c.slots[i].alts| &&
            AltPass(c.env, lenient, c.slots[i].alts, Mem(c, |c.slots|), Choice(Unset, Idx(c, |c.slots|) - used), n) ==
            Some(Choice(sv, Idx(c, |c.slots|) - gone))
  }

  lemma ChosenOut(c: Ctx, lenient: bool, i: nat)
    requires Ready(c) && AllBack(c, lenient) && i < |c.slots| && c.slots[i].Oneof? && Out(c, i)
    ensures c.vals[i].Chosen? && c.vals[i].alt < |c.slots[i].alts| && |Mem(c, i)| < |Mem(c, |c.slots|)|
    ensures UnmarshalVal(c.env, lenient, c.slots[i].alts[c.vals[i].alt].k, Mem(c, |c.slots|)[|Mem(c, i)|].value) ==
            Some(CanonVal(c.opts, c.vals[i].v))
  {
    MemberAt(c, i);
    assert SlotBack(c, lenient, i);
  }

  /** One alternative, when `gone` names are used: it takes the member if it was the one set. */
  ghost predicate AltTakes(c: Ctx, lenient: bool, i: nat, a: nat, gone: set<string>)
    requires i < |c.slots| == |c.vals| && c.slots[i].Oneof? && a < |c.slots[i].alts|
  {
    var alt, left, members := c.slots[i].alts[a], Idx(c, |c.slots|) - gone, Mem(c, |c.slots|);
    var at := Find(alt.name, left);
    if c.vals[i].Chosen? && c.vals[i].alt == a
    then at.Some? && at.value < |members| && UnmarshalVal(c.env, lenient, alt.k, members[at.value].value) == Some(CanonVal(c.opts, c.vals[i].v))
    else at.None?
  }

  lemma AltFinds(c: Ctx, lenient: bool, i: nat, a: nat, gone: set<string>)
    requires Ready(c) && AllBack(c, lenient) && i < |c.slots| && c.slots[i].Oneof? && a < |c.slots[i].alts|
    requires Apart(gone, Accepted(c.slots[i].alts[a].name))
    ensures AltTakes(c, lenient, i, a, gone)
  {
    FindAlt(c, i, a, gone);
    assert Fits(c.slots[i], c.vals[i]);
    if Out(c, i) {
      ChosenOut(c, lenient, i);
    }
  }

  lemma AltStep(c: Ctx, lenient: bool, i: nat, used: set<string>, a: nat, gone: set<string>)
    requires i < |c.slots| == |c.vals| && c.slots[i].Oneof? && a < |c.slots[i].alts|
    requires AltIs(c, lenient, i, used, a, Chose(c, i, a), gone) && AltTakes(c, lenient, i, a, gone)
    ensures AltIs(c, lenient, i, used, a + 1, Chose(c, i, a + 1), gone + Accepted(c.slots[i].alts[a].name))
  {
    assert AltIsHere(c, lenient, i, used, a, Chose(c, i, a), gone, true);
    var f, names := Idx(c, |c.slots|), Accepted(c.slots[i].alts[a].name);
    assert f - gone - names == f - (gone + names);
    if Find(c.slots[i].alts[a].name, f - gone).None? {
      assert f - gone - names == f - gone;
    }
    var n, gone' := a + 1, gone + names;
    var sv := Chose(c, i, n);
    assert forall now :: AltIsHere(c, lenient, i, used, n, sv, gone', now);
  }

  lemma {:induction false} AltsPass(c: Ctx, lenient: bool, i: nat, used: set<string>, n: nat)
    requires Ready(c) && AllBack(c, lenient) && i < |c.slots| && c.slots[i].Oneof? && n <= |c.slots[i].alts|
    requires Apart(used, SecondNames(c.slots[i]))
    ensures AltIs(c, lenient, i, used, n, Chose(c, i, n), used + AltNames(c.slots[i].alts, n))
  {
    var alts := c.slots[i].alts;
    if n == 0 {
      assert used + {} == used;
      assert forall now :: AltIsHere(c, lenient, i, used, 0, Unset, used, now);
    } else {
      var a := n - 1;
      AltsPass(c, lenient, i, used, a);
      AltApart(alts, a, used);
      AltFinds(c, lenient, i, a, used + AltNames(alts, a));
      AltStep(c, lenient, i, used, a, used + AltNames(alts, a));
      assert used + AltNames(alts, a) + Accepted(alts[a].name) == used + AltNames(alts, n);
    }
  }

  lemma AltApart(alts: seq<Alternative>, a: nat, used: set<string>)
    requires a < |alts| && DistinctAlts(alts) && Apart(used, AltNames(alts, |alts|))
    ensures Apart(used + AltNames(alts, a), Accepted(alts[a].name))
  {
    AltNamesHas(alts, a, |alts|);
    EarlierApart(alts, a, a);
  }

  lemma {:induction false} EarlierApart(alts: seq<Alternative>, a: nat, n: nat)
    requires n <= a < |alts| && DistinctAlts(alts)
    ensures Apart(AltNames(alts, n), Accepted(alts[a].name))
  {
    if n > 0 {
      EarlierApart(alts, a, n - 1);
      assert Apart(Accepted(alts[n - 1].name), Accepted(alts[a].name));
    }
  }

  function SecondVals(c: Ctx, n: nat): seq<SlotVal>
    requires n <= |c.slots| == |c.vals|
  {
    seq(|c.slots|, i requires 0 <= i < |c.slots| => if i < n then CanonSlot(c.opts, c.vals[i]) else FirstVal(c, i))
  }

  lemma SecondValsStep(c: Ctx, i: nat)
    requires Ready(c) && i < |c.slots|
    ensures c.slots[i].Plain? ==> SecondVals(c, i + 1) == SecondVals(c, i)
    ensures c.slots[i].Oneof? ==> SecondVals(c, i)[i] == Unset &&
                                  SecondVals(c, i + 1) == SecondVals(c, i)[i := Chose(c, i, |c.slots[i].alts|)]
  {
    assert Fits(c.slots[i], c.vals[i]);
  }

  /** From `scan` on, the second pass over `n` slots ends with these values and has used these names. */
  ghost predicate SecondIs(c: Ctx, lenient: bool, scan: Scan, n: nat, vals: seq<SlotVal>, used: set<string>) {
    forall now :: SecondIsHere(c, lenient, scan, n, vals, used, now)
  }

  ghost predicate SecondIsHere(c: Ctx, lenient: bool, scan: Scan, n: nat, vals: seq<SlotVal>, used: set<string>, now: bool) {
    now ==> n <= |c.slots| == |c.vals| == |scan.vals| && Within(scan.left, |Mem(c, |c.slots|)|) &&
            OneofPass(c.env, lenient, c.slots, Mem(c, |c.slots|), scan, n) == Some(Scan(vals, Idx(c, |c.slots|) - used))
  }

  lemma SecondStep(c: Ctx, lenient: bool, scan: Scan, i: nat, vals: seq<SlotVal>, used: set<string>)
    requires Ready(c) && AllBack(c, lenient) && i < |c.slots| == |vals| && SecondIs(c, lenient, scan, i, vals, used)
    requires c.slots[i].Oneof? ==> Apart(used, SecondNames(c.slots[i])) && vals[i] == Unset
    ensures SecondIs(c, lenient, scan, i + 1,
                     if c.slots[i].Plain? then vals else vals[i := Chose(c, i, |c.slots[i].alts|)], used + SecondNames(c.slots[i]))
  {
    assert SecondIsHere(c, lenient, scan, i, vals, used, true);
    var n, used' := i + 1, used + SecondNames(c.slots[i]);
    if c.slots[i].Plain? {
      assert used' == used;
      assert forall now :: SecondIsHere(c, lenient, scan, n, vals, used', now);
    } else {
      var many := |c.slots[i].alts|;
      var sv := Chose(c, i, many);
      AltsPass(c, lenient, i, used, many);
      assert AltIsHere(c, lenient, i, used, many, sv, used', true);
      var vals' := vals[i := sv];
      assert forall now :: SecondIsHere(c, lenient, scan, n, vals', used', now);
    }
  }

  lemma {:induction false} SecondPass(c: Ctx, lenient: bool, scan: Scan, n: nat)
    requires Ready(c) && AllBack(c, lenient) && n <= |c.slots|
    requires SecondIs(c, lenient, scan, 0, FirstVals(c, |c.slots|), UsedFirst(c.slots, |c.slots|))
    ensures SecondIs(c, lenient, scan, n, SecondVals(c, n), UsedFirst(c.slots, |c.slots|) + UsedSecond(c.slots, n))
  {
    var first := UsedFirst(c.slots, |c.slots|);
    if n == 0 {
      assert first + {} == first;
      assert SecondVals(c, 0) == FirstVals(c, |c.slots|);
    } else {
      var i := n - 1;
      SecondPass(c, lenient, scan, i);
      SecondApart(c, i);
      SecondValsStep(c, i);
      SecondStep(c, lenient, scan, i, SecondVals(c, i), first + UsedSecond(c.slots, i));
      assert first + UsedSecond(c.slots, i) + SecondNames(c.slots[i]) == first + UsedSecond(c.slots, n);
    }
  }

  /** Every member has been used by then. */
  lemma NothingLeft(c: Ctx)
    requires Ready(c)
    ensures Idx(c, |c.slots|) - (UsedFirst(c.slots, |c.slots|) + UsedSecond(c.slots, |c.slots|)) == map[]
  {
    var f, used := Idx(c, |c.slots|), UsedFirst(c.slots, |c.slots|) + UsedSecond(c.slots, |c.slots|);
    forall x | x in f ensures x in used {
      var i := Origin(c, |c.slots|, x);
      OutNameOwn(c, i);
      UsedHas(c.slots, i, |c.slots|);
    }
    assert (f - used).Keys == {};
  }

  lemma MembersBack(c: Ctx, lenient: bool, ty: string)
    requires Ready(c) && AllBack(c, lenient) && ty in c.env.types && c.env.types[ty] == c.slots
    ensures UnmarshalMsg(c.env, lenient, ty, JObject(Mem(c, |c.slots|))) == Some(CanonMsg(c.opts, Msg(c.vals)))
  {
    var n := |c.slots|;
    var first, second, vals := UsedFirst(c.slots, n), UsedSecond(c.slots, n), FirstVals(c, n);
    FirstPass(c, lenient, n);
    assert FirstIsHere(c, lenient, n, vals, first, true);
    var scan := Scan(vals, Idx(c, n) - first);
    assert forall now :: SecondIsHere(c, lenient, scan, 0, vals, first, now);
    SecondPass(c, lenient, scan, n);
    assert SecondIsHere(c, lenient, scan, n, SecondVals(c, n), first + second, true);
    NothingLeft(c);
    assert SecondVals(c, n) == CanonMsg(c.opts, Msg(c.vals)).slots;
  }

  // ---------------------------------------------------------------------------
  // Values

  ghost predicate ValBack(env: Env, opts: Options, lenient: bool, k: Kind, v: Val) {
    UnmarshalVal(env, lenient, k, MarshalVal(env, opts, k, v)) == Some(CanonVal(opts, v))
  }

  lemma TextBack(k: Kind, n: int)
    requires InRange(k, n)
    ensures ParseIntOf(k, IntText(n)) == Some(n)
  {
    IntReadBack(n);
    IntNoLeadingZero(n);
    assert IntText(n)[0] != 'n';
  }

  lemma IntBack(env: Env, opts: Options, k: Kind, n: int)
    requires EnvOk(env) && InRange(k, n)
    ensures UnmarshalInt(env, k, MarshalInt(env, opts, k, n)) == Some(VInt(n))
  {
    TextBack(k, n);
    if k.KEnum? && k.enum in env.enums {
      assert EnumOk(env.enums[k.enum]);
    }
  }

  lemma KeyBack(k: Kind, key: Key)
    requires TypedKey(k, key)
    ensures ParseKey(k, KeyText(key)) == Some(key)
  {
    if key.KeyInt? {
      TextBack(k, key.n);
    }
  }

  function CanonList(opts: Options, vs: seq<Val>, n: nat): seq<Val>
    requires n <= |vs|
  {
    seq(n, i requires 0 <= i < n => CanonVal(opts, vs[i]))
  }

  ghost predicate ListIs(env: Env, lenient: bool, k: Kind, items: seq<Json>, n: nat, vs: seq<Val>) {
    forall now :: ListIsHere(env, lenient, k, items, n, vs, now)
  }

  ghost predicate ListIsHere(env: Env, lenient: bool, k: Kind, items: seq<Json>, n: nat, vs: seq<Val>, now: bool) {
    now ==> n <= |items| && UnmarshalList(env, lenient, k, items, n) == Some(vs)
  }

  lemma ListStep(env: Env, lenient: bool, k: Kind, items: seq<Json>, i: nat, vs: seq<Val>, v: Val)
    requires i < |items| && ListIs(env, lenient, k, items, i, vs) && UnmarshalVal(env, lenient, k, items[i]) == Some(v)
    ensures ListIs(env, lenient, k, items, i + 1, vs + [v])
  {
    assert ListIsHere(env, lenient, k, items, i, vs, true);
    var n, vs' := i + 1, vs + [v];
    assert forall now :: ListIsHere(env, lenient, k, items, n, vs', now);
  }

  lemma {:induction false} ListBack(env: Env, opts: Options, lenient: bool, k: Kind, vs: seq<Val>, items: seq<Json>, n: nat)
    requires n <= |vs| == |items| && forall i | 0 <= i < |vs| :: ItemBack(env, opts, lenient, k, vs[i], items[i])
    ensures ListIs(env, lenient, k, items, n, CanonList(opts, vs, n))
  {
    if n > 0 {
      var i := n - 1;
      ListBack(env, opts, lenient, k, vs, items, i);
      assert ItemBack(env, opts, lenient, k, vs[i], items[i]);
      ListStep(env, lenient, k, items, i, CanonList(opts, vs, i), CanonVal(opts, vs[i]));
      assert CanonList(opts, vs, n) == CanonList(opts, vs, i) + [CanonVal(opts, vs[i])];
    } else {
      assert CanonList(opts, vs, 0) == [];
      assert forall now :: ListIsHere(env, lenient, k, items, 0, [], now);
    }
  }

  ghost predicate ItemBack(env: Env, opts: Options, lenient: bool, k: Kind, v: Val, j: Json) {
    UnmarshalVal(env, lenient, k, j) == Some(CanonVal(opts, v))
  }

  lemma ListsBack(env: Env, opts: Options, lenient: bool, k: Kind, vs: seq<Val>)
    requires forall i | 0 <= i < |vs| :: ValBack(env, opts, lenient, k, vs[i])
    ensures UnmarshalList(env, lenient, k, MarshalList(env, opts, k, vs, |vs|), |vs|) == Some(CanonList(opts, vs, |vs|))
  {
    var items := MarshalList(env, opts, k, vs, |vs|);
    forall i | 0 <= i < |vs| ensures ItemBack(env, opts, lenient, k, vs[i], items[i]) {
      ListAt(env, opts, k, vs, |vs|, i);
      assert ValBack(env, opts, lenient, k, vs[i]);
    }
    ListBack(env, opts, lenient, k, vs, items, |vs|);
    assert ListIsHere(env, lenient, k, items, |vs|, CanonList(opts, vs, |vs|), true);
  }

  /** The keys of a map and the members they are written as. */
  ghost predicate Keyed(env: Env, opts: Options, key: Kind, k: Kind, sv: SlotVal, keys: seq<Key>, members: seq<Member>) {
    && sv.Entries? && |members| == |keys| && Increasing(keys)
    && (forall i | 0 <= i < |keys| :: KeyedAt(env, opts, key, k, sv, keys, members, i))
  }

  ghost predicate KeyedAt(env: Env, opts: Options, key: Kind, k: Kind, sv: SlotVal, keys: seq<Key>, members: seq<Member>, i: nat)
    requires sv.Entries? && i < |keys| == |members|
  {
    && keys[i] in sv.entries && TypedKey(key, keys[i])
    && members[i] == Member(KeyText(keys[i]), MarshalVal(env, opts, k, sv.entries[keys[i]]))
  }

  /** Different keys have different names, so every name is where its key is. */
  lemma {:induction false} IndexKeyed(env: Env, opts: Options, key: Kind, k: Kind, sv: SlotVal, keys: seq<Key>, members: seq<Member>, n: nat, i: nat)
    requires Keyed(env, opts, key, k, sv, keys, members) && i < n <= |keys|
    ensures members[i].name in Index(members, n) && Index(members, n)[members[i].name] == i
  {
    if i < n - 1 {
      IndexKeyed(env, opts, key, k, sv, keys, members, n - 1, i);
      assert KeyedAt(env, opts, key, k, sv, keys, members, i) && KeyedAt(env, opts, key, k, sv, keys, members, n - 1);
      KeyBack(key, keys[i]);
      KeyBack(key, keys[n - 1]);
      KeyOrder(keys[i], keys[n - 1], keys[i]);
    } else {
      assert KeyedAt(env, opts, key, k, sv, keys, members, i);
    }
  }

  predicate Before(keys: seq<Key>, n: nat, x: Key)
    requires n <= |keys|
  {
    exists i :: 0 <= i < n && keys[i] == x
  }

  /** The entries of the first `n` keys. */
  function CanonEntries(opts: Options, sv: SlotVal, keys: seq<Key>, n: nat): map<Key, Val>
    requires sv.Entries? && n <= |keys|
  {
    map x | x in sv.entries && Before(keys, n, x) :: CanonVal(opts, sv.entries[x])
  }

  lemma CanonEntriesStep(opts: Options, sv: SlotVal, keys: seq<Key>, i: nat)
    requires sv.Entries? && i < |keys| && keys[i] in sv.entries
    ensures CanonEntries(opts, sv, keys, i + 1) == CanonEntries(opts, sv, keys, i)[keys[i] := CanonVal(opts, sv.entries[keys[i]])]
  {
    forall x ensures Before(keys, i + 1, x) <==> Before(keys, i, x) || x == keys[i] {
    }
  }

  ghost predicate EntriesAre(env: Env, lenient: bool, key: Kind, k: Kind, members: seq<Member>, n: nat, m: map<Key, Val>) {
    forall now :: EntriesAreHere(env, lenient, key, k, members, n, m, now)
  }

  ghost predicate EntriesAreHere(env: Env, lenient: bool, key: Kind, k: Kind, members: seq<Member>, n: nat, m: map<Key, Val>, now: bool) {
    now ==> n <= |members| && UnmarshalEntries(env, lenient, key, k, members, n) == Some(m)
  }

  lemma EntryStep(env: Env, lenient: bool, key: Kind, k: Kind, members: seq<Member>, i: nat, n: nat, m: map<Key, Val>, m': map<Key, Val>, x: Key, v: Val)
    requires i < |members| && n == i + 1 && m' == m[x := v] && EntriesAre(env, lenient, key, k, members, i, m)
    requires UnmarshalEntry(env, lenient, key, k, members, i) == Entry(x, v)
    ensures EntriesAre(env, lenient, key, k, members, n, m')
  {
    assert EntriesAreHere(env, lenient, key, k, members, i, m, true);
    assert forall now :: EntriesAreHere(env, lenient, key, k, members, n, m', now);
  }

  /** Each key's member gives back the key and its value. */
  lemma EntryBack(env: Env, opts: Options, lenient: bool, key: Kind, k: Kind, sv: SlotVal, keys: seq<Key>, members: seq<Member>, i: nat)
    requires Keyed(env, opts, key, k, sv, keys, members) && i < |keys| && keys[i] in sv.entries
    requires ValBack(env, opts, lenient, k, sv.entries[keys[i]])
    ensures UnmarshalEntry(env, lenient, key, k, members, i) == Entry(keys[i], CanonVal(opts, sv.entries[keys[i]]))
  {
    assert KeyedAt(env, opts, key, k, sv, keys, members, i);
    IndexKeyed(env, opts, key, k, sv, keys, members, |keys|, i);
    KeyBack(key, keys[i]);
  }

  lemma {:induction false} EntriesBack(env: Env, opts: Options, lenient: bool, key: Kind, k: Kind, sv: SlotVal, keys: seq<Key>, members: seq<Member>, n: nat)
    requires Keyed(env, opts, key, k, sv, keys, members) && n <= |keys|
    requires forall x | x in sv.entries :: ValBack(env, opts, lenient, k, sv.entries[x])
    ensures EntriesAre(env, lenient, key, k, members, n, CanonEntries(opts, sv, keys, n))
  {
    if n > 0 {
      var i := n - 1;
      EntriesBack(env, opts, lenient, key, k, sv, keys, members, i);
      assert KeyedAt(env, opts, key, k, sv, keys, members, i);
      assert ValBack(env, opts, lenient, k, sv.entries[keys[i]]);
      EntryBack(env, opts, lenient, key, k, sv, keys, members, i);
      CanonEntriesStep(opts, sv, keys, i);
      EntryStep(env, lenient, key, k, members, i, n, CanonEntries(opts, sv, keys, i), CanonEntries(opts, sv, keys, n), keys[i], CanonVal(opts, sv.entries[keys[i]]));
    } else {
      assert CanonEntries(opts, sv, keys, 0) == map[];
      assert forall now :: EntriesAreHere(env, lenient, key, k, members, 0, map[], now);
    }
  }

  lemma AllEntries(opts: Options, sv: SlotVal)
    requires sv.Entries?
    ensures var keys := SortedKeys(sv.entries.Keys); Entries(CanonEntries(opts, sv, keys, |keys|)) == CanonSlot(opts, sv)
  {
    var keys := SortedKeys(sv.entries.Keys);
    SortedKeysSorted(sv.entries.Keys);
    forall x | x in sv.entries ensures Before(keys, |keys|, x) {
      assert x in keys;
    }
    assert CanonEntries(opts, sv, keys, |keys|) == CanonSlot(opts, sv).entries;
  }

  lemma KeysKeyed(env: Env, opts: Options, key: Kind, k: Kind, sv: SlotVal)
    requires sv.Entries? && forall x | x in sv.entries :: TypedKey(key, x)
    ensures var keys := SortedKeys(sv.entries.Keys);
            Keyed(env, opts, key, k, sv, keys, MarshalEntries(env, opts, k, sv, keys, |keys|))
  {
    var keys := SortedKeys(sv.entries.Keys);
    SortedKeysSorted(sv.entries.Keys);
    var members := MarshalEntries(env, opts, k, sv, keys, |keys|);
    forall i | 0 <= i < |keys| ensures KeyedAt(env, opts, key, k, sv, keys, members, i) {
      EntriesAt(env, opts, k, sv, keys, |keys|, i);
      assert keys[i] in keys;
    }
  }

  lemma MapBack(env: Env, opts: Options, lenient: bool, name: Name, key: Kind, k: Kind, sv: SlotVal)
    requires sv.Entries? && forall x | x in sv.entries :: TypedKey(key, x) && ValBack(env, opts, lenient, k, sv.entries[x])
    ensures UnmarshalSlot(env, lenient, MapOf(key, k), MarshalSlot(env, opts, Plain(name, MapOf(key, k)), sv)) == Some(CanonSlot(opts, sv))
  {
    var keys := SortedKeys(sv.entries.Keys);
    var members := MarshalEntries(env, opts, k, sv, keys, |keys|);
    KeysKeyed(env, opts, key, k, sv);
    EntriesBack(env, opts, lenient, key, k, sv, keys, members, |keys|);
    assert EntriesAreHere(env, lenient, key, k, members, |keys|, CanonEntries(opts, sv, keys, |keys|), true);
    AllEntries(opts, sv);
    assert MarshalSlot(env, opts, Plain(name, MapOf(key, k)), sv) == JObject(members);
  }

  lemma {:induction false} ValueRoundTrip(env: Env, opts: Options, lenient: bool, k: Kind, v: Val)
    requires EnvOk(env) && TypedVal(env, k, v)
    ensures ValBack(env, opts, lenient, k, v)
    decreases v, 0
  {
    match v
    case VInt(n) =>
      IntBack(env, opts, k, n);
    case VMsg(m) =>
      MessageRoundTrip(env, opts, lenient, k.msg, m);
    case _ =>
  }

  /** A plain slot that is not omitted. */
  lemma {:induction false} SlotRoundTrip(env: Env, opts: Options, lenient: bool, slot: Slot, sv: SlotVal)
    requires EnvOk(env) && TypedSlot(env, slot, sv) && slot.Plain? && !Omitted(opts, sv)
    ensures UnmarshalSlot(env, lenient, slot.shape, MarshalSlot(env, opts, slot, sv)) == Some(CanonSlot(opts, sv))
    decreases sv, 1
  {
    match sv
    case One(v) =>
      ValueRoundTrip(env, opts, lenient, slot.shape.k, v);
    case List(vs) =>
      forall i | 0 <= i < |vs| ensures ValBack(env, opts, lenient, slot.shape.k, vs[i]) {
        ValueRoundTrip(env, opts, lenient, slot.shape.k, vs[i]);
      }
      ListsBack(env, opts, lenient, slot.shape.k, vs);
      assert CanonList(opts, vs, |vs|) == CanonSlot(opts, sv).vs;
    case Entries(entries) =>
      forall x | x in sv.entries ensures ValBack(env, opts, lenient, slot.shape.k, sv.entries[x]) {
        ValueRoundTrip(env, opts, lenient, slot.shape.k, sv.entries[x]);
      }
      MapBack(env, opts, lenient, slot.name, slot.shape.key, slot.shape.k, sv);
    case _ =>
  }

  /** An omitted slot. */
  lemma OmittedZero(env: Env, opts: Options, slot: Slot, sv: SlotVal)
    requires TypedSlot(env, slot, sv) && Omitted(opts, sv)
    ensures ZeroSlot(slot) == CanonSlot(opts, sv)
  {
  }

  /**
   Marshal, then unmarshal: for every message of every type, and all options, this
   gives back the message up to what `CanonMsg` changes.
   */
  lemma {:induction false} MessageRoundTrip(env: Env, opts: Options, lenient: bool, ty: string, m: Msg)
    requires EnvOk(env) && TypedMsg(env, ty, m)
    ensures UnmarshalMsg(env, lenient, ty, MarshalMsg(env, opts, ty, m)) == Some(CanonMsg(opts, m))
    decreases m, 1
  {
    var slots := env.types[ty];
    var c := Ctx(env, opts, slots, m.slots);
    forall i | 0 <= i < |slots| ensures Fits(slots[i], m.slots[i]) && SlotBack(c, lenient, i) {
      var slot, sv := slots[i], m.slots[i];
      assert TypedSlot(env, slot, sv);
      if Omitted(opts, sv) {
        OmittedZero(env, opts, slot, sv);
      } else if slot.Plain? {
        SlotRoundTrip(env, opts, lenient, slot, sv);
      } else {
        ValueRoundTrip(env, opts, lenient, slot.alts[sv.alt].k, sv.v);
      }
    }
    MembersBack(c, lenient, ty);
  }

  /** The message itself comes back if and only if it holds nothing of the kinds that do not survive. */
  lemma ExactRoundTrip(env: Env, opts: Options, lenient: bool, ty: string, m: Msg)
    requires EnvOk(env) && TypedMsg(env, ty, m)
    ensures UnmarshalMsg(env, lenient, ty, MarshalMsg(env, opts, ty, m)) == Some(m) <==> Survives(opts, m)
  {
    MessageRoundTrip(env, opts, lenient, ty, m);
    SurvivesExactly(opts, m);
  }
}
