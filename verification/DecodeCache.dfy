/**
 The two caches that several outputs fill at the same time (codec_gpb.go): the decoded
 table of a message, and the names a specification node's children have in the
 generated code.  Both check, lock and check again.
 */
module DecodedTable {
  import opened Common

  /** A row as received: a timestamp and two encoded messages. */
  datatype Row = Row(timestamp: nat, keys: seq<byte>, content: seq<byte>)

  /** Decoded messages are what the library makes of the bytes; a failure leaves what was decoded up to there. */
  datatype Decoded<D> = Decoded(timestamp: nat, keys: Option<D>, content: D)

  /** The types registered for a path; the keys may have none. */
  datatype Mapping<!D> = Mapping(content: seq<byte> -> D, keys: Option<seq<byte> -> D>)

  /** What a message holds that matters here: its table, if any, and the mapping for its path, if any. */
  datatype Input<!D> = Input(rows: Option<seq<Row>>, mapping: Option<Mapping<D>>)

  function DecodeRow<D>(m: Mapping<D>, row: Row): Decoded<D> {
    Decoded(row.timestamp, if m.keys.Some? then Some(m.keys.value(row.keys)) else None, m.content(row.content))
  }

  /** The first `n` rows, decoded one by one. */
  function DecodeRows<D>(m: Mapping<D>, rows: seq<Row>, n: nat): seq<Decoded<D>>
    requires n <= |rows|
  {
    seq(n, i requires 0 <= i < n => DecodeRow(m, rows[i]))
  }

  /** What every caller should get. */
  function Expected<D>(input: Input<D>): Option<seq<Decoded<D>>> {
    if input.rows.Some? && input.mapping.Some?
    then Some(DecodeRows(input.mapping.value, input.rows.value, |input.rows.value|)) else None
  }

  datatype Pc<D> =
    | Begin
    | WantLock
    | Inside
    | Decoding(rows: seq<Decoded<D>>)
    | Unlocking(result: Option<seq<Decoded<D>>>)
    | Returned(result: Option<seq<Decoded<D>>>)

  datatype State<D> = State(cache: Option<seq<Decoded<D>>>, lock: Option<nat>, stores: nat, pcs: seq<Pc<D>>)

  datatype Step = Call | Load(t: nat) | Lock(t: nat) | Recheck(t: nat) | DecodeOne(t: nat) | Store(t: nat) | Unlock(t: nat)

  predicate Enabled<D>(input: Input<D>, s: State<D>, step: Step) {
    match step
    case Call => true
    case Load(t) => t < |s.pcs| && s.pcs[t].Begin?
    case Lock(t) => t < |s.pcs| && s.pcs[t].WantLock? && s.lock.None?
    case Recheck(t) => t < |s.pcs| && s.pcs[t].Inside?
    case DecodeOne(t) => t < |s.pcs| && s.pcs[t].Decoding? && input.rows.Some? && input.mapping.Some? && |s.pcs[t].rows| < |input.rows.value|
    case Store(t) => t < |s.pcs| && s.pcs[t].Decoding? && input.rows.Some? && |s.pcs[t].rows| == |input.rows.value|
    case Unlock(t) => t < |s.pcs| && s.pcs[t].Unlocking?
  }

  function Go<D>(s: State<D>, t: nat, pc: Pc<D>): State<D>
    requires t < |s.pcs|
  {
    s.(pcs := s.pcs[t := pc])
  }

  function Apply<D>(input: Input<D>, s: State<D>, step: Step): State<D>
    requires Enabled(input, s, step)
  {
    match step
    case Call => s.(pcs := s.pcs + [Begin])
    case Load(t) => Go(s, t, if s.cache.Some? then Returned(s.cache) else if input.rows.None? then Returned(None) else WantLock)
    case Lock(t) => Go(s, t, Inside).(lock := Some(t))
    case Recheck(t) => Go(s, t, if s.cache.Some? then Unlocking(s.cache) else if input.mapping.None? then Unlocking(None) else Decoding([]))
    case DecodeOne(t) =>
      var rows := s.pcs[t].rows;
      Go(s, t, Decoding(rows + [DecodeRow(input.mapping.value, input.rows.value[|rows|])]))
    case Store(t) => Go(s, t, Unlocking(Some(s.pcs[t].rows))).(cache := Some(s.pcs[t].rows), stores := s.stores + 1)
    case Unlock(t) => Go(s, t, Returned(s.pcs[t].result)).(lock := None)
  }

  // ---------------------------------------------------------------------------

  predicate Critical<D>(pc: Pc<D>) {
    pc.Inside? || pc.Decoding? || pc.Unlocking?
  }

  ghost predicate ThreadOk<D>(input: Input<D>, s: State<D>, t: nat) {
    t < |s.pcs| ==>
      var pc := s.pcs[t];
      && (Critical(pc) <==> s.lock == Some(t))
      && (pc.WantLock? || Critical(pc) ==> input.rows.Some?)
      && (pc.Decoding? ==>
            && s.cache.None? && input.mapping.Some? && |pc.rows| <= |input.rows.value|
            && pc.rows == DecodeRows(input.mapping.value, input.rows.value, |pc.rows|))
      && (pc.Unlocking? || pc.Returned? ==> pc.result == Expected(input))
  }

  ghost predicate Inv<D>(input: Input<D>, s: State<D>) {
    && (s.cache.Some? ==> s.cache == Expected(input))
    && s.stores == (if s.cache.Some? then 1 else 0)
    && (s.lock.Some? ==> s.lock.value < |s.pcs|)
    && (forall t :: ThreadOk(input, s, t))
  }

  lemma StepKeeps<D>(input: Input<D>, s: State<D>, step: Step)
    requires Inv(input, s) && Enabled(input, s, step)
    ensures Inv(input, Apply(input, s, step))
    ensures s.cache.Some? ==> Apply(input, s, step).cache == s.cache
  {
    var r := Apply(input, s, step);
    if !step.Call? {
      assert ThreadOk(input, s, step.t);
      if step.DecodeOne? {
        var rows := s.pcs[step.t].rows;
        var m, all := input.mapping.value, input.rows.value;
        assert DecodeRows(m, all, |rows| + 1) == DecodeRows(m, all, |rows|) + [DecodeRow(m, all[|rows|])];
      } else if step.Recheck? && r.pcs[step.t].Decoding? {
        assert DecodeRows(input.mapping.value, input.rows.value, 0) == [];
      }
    }
    forall t: nat ensures ThreadOk(input, r, t) {
      assert ThreadOk(input, s, t);
    }
  }

  function RunTo<D>(input: Input<D>, steps: seq<Step>, n: nat): State<D>
    requires n <= |steps|
  {
    if n == 0 then State(None, None, 0, [])
    else
      var s := RunTo(input, steps, n - 1);
      if Enabled(input, s, steps[n - 1]) then Apply(input, s, steps[n - 1]) else s
  }

  lemma {:induction false} RunKeeps<D>(input: Input<D>, steps: seq<Step>, n: nat)
    requires n <= |steps|
    ensures Inv(input, RunTo(input, steps, n))
  {
    if n > 0 {
      RunKeeps(input, steps, n - 1);
      var s := RunTo(input, steps, n - 1);
      if Enabled(input, s, steps[n - 1]) {
        StepKeeps(input, s, steps[n - 1]);
      }
    } else {
      assert forall t :: ThreadOk(input, RunTo(input, steps, 0), t);
    }
  }

  /** The row as decoded: its own timestamp, its keys as keys when there is a type for them, and its content as content. */
  predicate IsDecoded<D(==)>(m: Mapping<D>, row: Row, d: Decoded<D>) {
    && d.timestamp == row.timestamp
    && d.content == m.content(row.content)
    && (d.keys.Some? <==> m.keys.Some?) && (m.keys.Some? ==> d.keys.value == m.keys.value(row.keys))
  }

  /** The table decoded row by row, or nothing when there is no table or no type for its rows. */
  ghost predicate IsTable<D>(input: Input<D>, r: Option<seq<Decoded<D>>>) {
    && (r.Some? <==> input.rows.Some? && input.mapping.Some?)
    && (r.Some? ==>
          && |r.value| == |input.rows.value|
          && forall i | 0 <= i < |r.value| :: IsDecoded(input.mapping.value, input.rows.value[i], r.value[i]))
  }

  /** In every interleaving of callers, each gets the rows decoded one by one, or nil when there is no table or no mapping; the table is stored at most once. */
  lemma EveryCallerGetsTheTable<D>(input: Input<D>, steps: seq<Step>, t: nat)
    ensures var s := RunTo(input, steps, |steps|);
            && s.stores <= 1
            && (t < |s.pcs| && s.pcs[t].Returned? ==> s.pcs[t].result == Expected(input) && IsTable(input, s.pcs[t].result))
  {
    RunKeeps(input, steps, |steps|);
    assert ThreadOk(input, RunTo(input, steps, |steps|), t);
  }

  /** What is stored stays. */
  lemma {:induction false} StoredStays<D>(input: Input<D>, steps: seq<Step>, k: nat, n: nat)
    requires k <= n <= |steps| && RunTo(input, steps, k).cache.Some?
    ensures RunTo(input, steps, n).cache == RunTo(input, steps, k).cache
    decreases n
  {
    if k < n {
      StoredStays(input, steps, k, n - 1);
      RunKeeps(input, steps, n - 1);
      var s := RunTo(input, steps, n - 1);
      if Enabled(input, s, steps[n - 1]) {
        StepKeeps(input, s, steps[n - 1]);
      }
    }
  }
}

module InternalNames {
  import opened Common

  /** A field of the generated struct: its name in the .proto file and its name in Go. */
  datatype GoField = GoField(ext: string, goName: string)

  datatype Pc = Begin | WantLock | Inside | Filling(i: nat) | Unlocking | Reading

  /** One node: the flag, the lock, and the internal names of its children by their external names. */
  datatype State = State(cached: bool, lock: Option<nat>, names: map<string, string>, pcs: seq<Pc>)

  datatype Step = Call | Check(t: nat) | Lock(t: nat) | Recheck(t: nat) | Write(t: nat) | SetFlag(t: nat) | Unlock(t: nat)

  /** The names after the first `n` fields: of fields with the same external name the last counts, and only children of the node have one. */
  function Names(children: set<string>, fields: seq<GoField>, n: nat): map<string, string>
    requires n <= |fields|
  {
    if n == 0 then map[]
    else
      var before := Names(children, fields, n - 1);
      if fields[n - 1].ext in children then before[fields[n - 1].ext := fields[n - 1].goName] else before
  }

  predicate Enabled(fields: seq<GoField>, s: State, step: Step) {
    match step
    case Call => true
    case Check(t) => t < |s.pcs| && s.pcs[t].Begin?
    case Lock(t) => t < |s.pcs| && s.pcs[t].WantLock? && s.lock.None?
    case Recheck(t) => t < |s.pcs| && s.pcs[t].Inside?
    case Write(t) => t < |s.pcs| && s.pcs[t].Filling? && s.pcs[t].i < |fields|
    case SetFlag(t) => t < |s.pcs| && s.pcs[t].Filling? && s.pcs[t].i == |fields|
    case Unlock(t) => t < |s.pcs| && s.pcs[t].Unlocking?
  }

  function Go(s: State, t: nat, pc: Pc): State
    requires t < |s.pcs|
  {
    s.(pcs := s.pcs[t := pc])
  }

  function Apply(children: set<string>, fields: seq<GoField>, s: State, step: Step): State
    requires Enabled(fields, s, step)
  {
    match step
    case Call => s.(pcs := s.pcs + [Begin])
    case Check(t) => Go(s, t, if s.cached then Reading else WantLock)
    case Lock(t) => Go(s, t, Inside).(lock := Some(t))
    case Recheck(t) => Go(s, t, if s.cached then Unlocking else Filling(0))
    case Write(t) =>
      var f := fields[s.pcs[t].i];
      Go(s, t, Filling(s.pcs[t].i + 1)).(names := if f.ext in children then s.names[f.ext := f.goName] else s.names)
    case SetFlag(t) => Go(s, t, Unlocking).(cached := true)
    case Unlock(t) => Go(s, t, Reading).(lock := None)
  }

  // ---------------------------------------------------------------------------

  ghost predicate ThreadOk(children: set<string>, fields: seq<GoField>, s: State, t: nat) {
    t < |s.pcs| ==>
      var pc := s.pcs[t];
      && (pc.Inside? || pc.Filling? || pc.Unlocking? <==> s.lock == Some(t))
      && (pc.Filling? ==> !s.cached && pc.i <= |fields| && s.names == Names(children, fields, pc.i))
      && (pc.Unlocking? || pc.Reading? ==> s.cached)
  }

  ghost predicate Inv(children: set<string>, fields: seq<GoField>, s: State) {
    && (s.cached ==> s.names == Names(children, fields, |fields|))
    && (!s.cached && (s.lock.None? || (s.lock.value < |s.pcs| && s.pcs[s.lock.value].Inside?)) ==> s.names == map[])
    && (s.lock.Some? ==> s.lock.value < |s.pcs|)
    && (forall t :: ThreadOk(children, fields, s, t))
  }

  lemma StepKeeps(children: set<string>, fields: seq<GoField>, s: State, step: Step)
    requires Inv(children, fields, s) && Enabled(fields, s, step)
    ensures Inv(children, fields, Apply(children, fields, s, step))
    ensures s.cached ==> var r := Apply(children, fields, s, step); r.cached && r.names == s.names
  {
    var r := Apply(children, fields, s, step);
    if !step.Call? {
      assert ThreadOk(children, fields, s, step.t);
    }
    forall t: nat ensures ThreadOk(children, fields, r, t) {
      assert ThreadOk(children, fields, s, t);
    }
  }

  function RunTo(children: set<string>, fields: seq<GoField>, steps: seq<Step>, n: nat): State
    requires n <= |steps|
  {
    if n == 0 then State(false, None, map[], [])
    else
      var s := RunTo(children, fields, steps, n - 1);
      if Enabled(fields, s, steps[n - 1]) then Apply(children, fields, s, steps[n - 1]) else s
  }

  lemma {:induction false} RunKeeps(children: set<string>, fields: seq<GoField>, steps: seq<Step>, n: nat)
    requires n <= |steps|
    ensures Inv(children, fields, RunTo(children, fields, steps, n))
  {
    if n > 0 {
      RunKeeps(children, fields, steps, n - 1);
      var s := RunTo(children, fields, steps, n - 1);
      if Enabled(fields, s, steps[n - 1]) {
        StepKeeps(children, fields, s, steps[n - 1]);
      }
    } else {
      assert forall t :: ThreadOk(children, fields, RunTo(children, fields, steps, 0), t);
    }
  }

  /** In every interleaving, a thread that reads names without the lock reads final ones: all of them are there, and none is written any more. */
  lemma ReadersSeeFinalNames(children: set<string>, fields: seq<GoField>, steps: seq<Step>, t: nat, k: nat, n: nat)
    requires k <= n <= |steps|
    requires var s := RunTo(children, fields, steps, k); t < |s.pcs| && s.pcs[t].Reading?
    ensures var names := RunTo(children, fields, steps, n).names;
            names == Names(children, fields, |fields|) && AreNames(children, fields, |fields|, names)
  {
    RunKeeps(children, fields, steps, k);
    assert ThreadOk(children, fields, RunTo(children, fields, steps, k), t);
    CachedStays(children, fields, steps, k, n);
    NamesAre(children, fields, |fields|);
  }

  /** Field `i` is the last of the first `n` with this external name. */
  predicate LastNamed(fields: seq<GoField>, n: nat, i: int, ext: string)
    requires n <= |fields|
  {
    0 <= i < n && fields[i].ext == ext && forall j | i < j < n :: fields[j].ext != ext
  }

  /** The children that are fields of the struct have names, each the Go name of the last field called like it. */
  ghost predicate AreNames(children: set<string>, fields: seq<GoField>, n: nat, names: map<string, string>)
    requires n <= |fields|
  {
    && (forall i | 0 <= i < n && fields[i].ext in children :: fields[i].ext in names)
    && (forall x | x in names :: x in children && exists i :: LastNamed(fields, n, i, x) && names[x] == fields[i].goName)
  }

  lemma {:induction false} NamesAre(children: set<string>, fields: seq<GoField>, n: nat)
    requires n <= |fields|
    ensures AreNames(children, fields, n, Names(children, fields, n))
  {
    if n > 0 {
      NamesAre(children, fields, n - 1);
      var before, names := Names(children, fields, n - 1), Names(children, fields, n);
      forall x | x in names ensures x in children && exists i :: LastNamed(fields, n, i, x) && names[x] == fields[i].goName {
        if x == fields[n - 1].ext {
          assert LastNamed(fields, n, n - 1, x);
        } else {
          var i :| LastNamed(fields, n - 1, i, x) && before[x] == fields[i].goName;
          assert LastNamed(fields, n, i, x);
        }
      }
    }
  }

  lemma {:induction false} CachedStays(children: set<string>, fields: seq<GoField>, steps: seq<Step>, k: nat, n: nat)
    requires k <= n <= |steps| && RunTo(children, fields, steps, k).cached
    ensures var s := RunTo(children, fields, steps, n); s.cached && s.names == Names(children, fields, |fields|)
    decreases n
  {
    RunKeeps(children, fields, steps, n);
    if k < n {
      CachedStays(children, fields, steps, k, n - 1);
      RunKeeps(children, fields, steps, n - 1);
      var s := RunTo(children, fields, steps, n - 1);
      if Enabled(fields, s, steps[n - 1]) {
        StepKeeps(children, fields, s, steps[n - 1]);
      }
    }
  }

  /** At most one thread writes names at a time, and none while another reads them. */
  lemma WritersAlone(children: set<string>, fields: seq<GoField>, steps: seq<Step>, t: nat, u: nat)
    requires var s := RunTo(children, fields, steps, |steps|); t < |s.pcs| && u < |s.pcs| && t != u && s.pcs[t].Filling?
    ensures var s := RunTo(children, fields, steps, |steps|); !s.pcs[u].Filling? && !s.pcs[u].Reading?
  {
    RunKeeps(children, fields, steps, |steps|);
    var s := RunTo(children, fields, steps, |steps|);
    assert ThreadOk(children, fields, s, t) && ThreadOk(children, fields, s, u);
  }
}
