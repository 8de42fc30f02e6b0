/**
 The table of sensor statistics (metrics.go): outputs update records, a timer evicts
 stale ones.  Finding a record and updating it are two critical sections, so that an
 eviction can come between them.
 */
module StatTable {
  const STALE := 300_000

  /** A record; `first` is the timestamp it was made with and `applied` what it was updated with since. */
  datatype Rec = Rec(key: string, first: nat, lastTS: nat, observed: seq<nat>, outOfSeq: nat, applied: seq<nat>)

  /** A call of statRecordUpdate: it has found a record, or there was no space, or it is over. */
  datatype Call = Found(r: nat, ts: nat) | NoSpace | Over

  datatype Evictor = Asleep | Evicting(now: nat, todo: set<string>)

  datatype State = State(recs: seq<Rec>, table: map<string, nat>, calls: seq<Call>, evictor: Evictor)

  datatype Step =
    | FindOrCreate(key: string, ts: nat)
    | Update(c: nat)
    | EvictStart(now: nat)
    | EvictVisit(key: string)
    | EvictEnd

  predicate Stale(r: Rec, now: nat) {
    now > r.lastTS && now - r.lastTS > STALE
  }

  /** What an update does to a record. */
  function Updated(r: Rec, ts: nat): Rec {
    var applied := r.applied + [ts];
    if ts > r.lastTS then r.(observed := r.observed + [ts - r.lastTS], lastTS := ts, applied := applied)
    else if ts < r.lastTS then r.(outOfSeq := r.outOfSeq + 1, applied := applied)
    else r.(applied := applied)
  }

  predicate Enabled(s: State, step: Step) {
    match step
    case FindOrCreate(_, _) => s.evictor.Asleep?
    case Update(c) => c < |s.calls| && s.calls[c].Found? && s.calls[c].r < |s.recs|
    case EvictStart(_) => s.evictor.Asleep?
    case EvictVisit(key) => s.evictor.Evicting? && key in s.evictor.todo && key in s.table && s.table[key] < |s.recs|
    case EvictEnd => s.evictor.Evicting? && s.evictor.todo == {}
  }

  /** `max` is the configured number of sensors. */
  function Apply(max: nat, s: State, step: Step): State
    requires Enabled(s, step)
  {
    match step
    case FindOrCreate(key, ts) =>
      if key in s.table then s.(calls := s.calls + [Found(s.table[key], ts)])
      else if |s.table| >= max then s.(calls := s.calls + [NoSpace])
      else
        s.(recs := s.recs + [Rec(key, ts, ts, [], 0, [])], table := s.table[key := |s.recs|],
        calls := s.calls + [Found(|s.recs|, ts)])
    case Update(c) =>
      var r := s.calls[c].r;
      s.(recs := s.recs[r := Updated(s.recs[r], s.calls[c].ts)], calls := s.calls[c := Over])
    case EvictStart(now) => s.(evictor := Evicting(now, s.table.Keys))
    case EvictVisit(key) =>
      var t := if Stale(s.recs[s.table[key]], s.evictor.now) then s.table - {key} else s.table;
      s.(table := t, evictor := Evicting(s.evictor.now, s.evictor.todo - {key}))
    case EvictEnd => s.(evictor := Asleep)
  }

  // ---------------------------------------------------------------------------
  // What a record says about its updates

  /** The largest timestamp seen. */
  function Latest(first: nat, applied: seq<nat>, n: nat): nat
    requires n <= |applied|
  {
    if n == 0 then first
    else if applied[n - 1] > Latest(first, applied, n - 1) then applied[n - 1]
    else Latest(first, applied, n - 1)
  }

  /** The steps by which it grew. */
  function Advances(first: nat, applied: seq<nat>, n: nat): seq<nat>
    requires n <= |applied|
  {
    if n == 0 then []
    else if applied[n - 1] > Latest(first, applied, n - 1)
    then Advances(first, applied, n - 1) + [applied[n - 1] - Latest(first, applied, n - 1)]
    else Advances(first, applied, n - 1)
  }

  /** How many came too late. */
  function Late(first: nat, applied: seq<nat>, n: nat): nat
    requires n <= |applied|
  {
    if n == 0 then 0
    else Late(first, applied, n - 1) + if applied[n - 1] < Latest(first, applied, n - 1) then 1 else 0
  }

  function Sum(s: seq<nat>): nat {
    if s == [] then 0 else Sum(s[..|s| - 1]) + s[|s| - 1]
  }

  lemma {:induction false} LatestIsMax(first: nat, applied: seq<nat>, n: nat)
    requires n <= |applied|
    ensures first <= Latest(first, applied, n) && forall i | 0 <= i < n :: applied[i] <= Latest(first, applied, n)
    ensures Latest(first, applied, n) == first || exists i :: 0 <= i < n && applied[i] == Latest(first, applied, n)
  {
    if n > 0 {
      LatestIsMax(first, applied, n - 1);
      if Latest(first, applied, n) != first && Latest(first, applied, n) == Latest(first, applied, n - 1) {
        var i :| 0 <= i < n - 1 && applied[i] == Latest(first, applied, n - 1);
        assert applied[i] == Latest(first, applied, n);
      }
    }
  }

  /** The observed differences are positive and add up to the time between the first and the latest timestamp. */
  lemma {:induction false} AdvancesAddUp(first: nat, applied: seq<nat>, n: nat)
    requires n <= |applied|
    ensures Sum(Advances(first, applied, n)) + first == Latest(first, applied, n)
    ensures AllPositive(Advances(first, applied, n))
  {
    if n > 0 {
      AdvancesAddUp(first, applied, n - 1);
      AdvanceAddsUp(first, Latest(first, applied, n - 1), Advances(first, applied, n - 1), applied[n - 1]);
    }
  }

  /** Timestamp `i` is less than one before it. */
  ghost predicate ComesLate(first: nat, applied: seq<nat>, i: nat)
    requires i < |applied|
  {
    applied[i] < first || exists j :: 0 <= j < i && applied[i] < applied[j]
  }

  /** Timestamp `i` is greater than all before it. */
  ghost predicate IsNew(first: nat, applied: seq<nat>, i: nat)
    requires i < |applied|
  {
    first < applied[i] && forall j | 0 <= j < i :: applied[j] < applied[i]
  }

  lemma NextStamp(first: nat, applied: seq<nat>, n: nat)
    requires n < |applied|
    ensures ComesLate(first, applied, n) <==> applied[n] < Latest(first, applied, n)
    ensures IsNew(first, applied, n) <==> applied[n] > Latest(first, applied, n)
  {
    LatestIsMax(first, applied, n);
  }

  /** How many come late: as many as there are timestamps less than one before them. */
  lemma {:induction false} LateCounts(first: nat, applied: seq<nat>, n: nat)
    requires n <= |applied|
    ensures Late(first, applied, n) == |set i | 0 <= i < n && ComesLate(first, applied, i)|
  {
    if n > 0 {
      var m := n - 1;
      LateCounts(first, applied, m);
      NextStamp(first, applied, m);
      var before, now := set i | 0 <= i < m && ComesLate(first, applied, i), set i | 0 <= i < n && ComesLate(first, applied, i);
      assert now == if ComesLate(first, applied, m) then before + {m} else before;
    }
  }

  /** One difference is observed for each timestamp greater than all before it. */
  lemma {:induction false} AdvancesCount(first: nat, applied: seq<nat>, n: nat)
    requires n <= |applied|
    ensures |Advances(first, applied, n)| == |set i | 0 <= i < n && IsNew(first, applied, i)|
  {
    if n > 0 {
      var m := n - 1;
      AdvancesCount(first, applied, m);
      NextStamp(first, applied, m);
      var before, now := set i | 0 <= i < m && IsNew(first, applied, i), set i | 0 <= i < n && IsNew(first, applied, i);
      assert now == if IsNew(first, applied, m) then before + {m} else before;
    }
  }

  predicate AllPositive(s: seq<nat>) {
    forall i | 0 <= i < |s| :: s[i] > 0
  }

  /** One timestamp more. */
  lemma AdvanceAddsUp(first: nat, latest: nat, advances: seq<nat>, ts: nat)
    requires Sum(advances) + first == latest && AllPositive(advances)
    ensures ts > latest ==> Sum(advances + [ts - latest]) + first == ts && AllPositive(advances + [ts - latest])
  {
    if ts > latest {
      SumSnoc(advances, ts - latest);
    }
  }

  lemma SumSnoc(s: seq<nat>, x: nat)
    ensures Sum(s + [x]) == Sum(s) + x
  {
    assert (s + [x])[..|s|] == s;
  }

  lemma {:induction false} FoldSnoc(first: nat, applied: seq<nat>, ts: nat, n: nat)
    requires n <= |applied|
    ensures Latest(first, applied + [ts], n) == Latest(first, applied, n)
    ensures Advances(first, applied + [ts], n) == Advances(first, applied, n)
    ensures Late(first, applied + [ts], n) == Late(first, applied, n)
  {
    if n > 0 {
      FoldSnoc(first, applied, ts, n - 1);
    }
  }

  predicate RecOk(r: Rec) {
    var n := |r.applied|;
    && r.lastTS == Latest(r.first, r.applied, n)
    && r.observed == Advances(r.first, r.applied, n)
    && r.outOfSeq == Late(r.first, r.applied, n)
  }

  lemma UpdatedOk(r: Rec, ts: nat)
    requires RecOk(r)
    ensures RecOk(Updated(r, ts))
  {
    FoldSnoc(r.first, r.applied, ts, |r.applied|);
  }

  // ---------------------------------------------------------------------------
  // Runs

  ghost predicate RecAt(s: State, r: nat) {
    r < |s.recs| ==> RecOk(s.recs[r])
  }

  /** An entry leads to a record of its own key. */
  ghost predicate EntryAt(s: State, key: string) {
    key in s.table ==> s.table[key] < |s.recs| && s.recs[s.table[key]].key == key
  }

  ghost predicate CallAt(s: State, c: nat) {
    c < |s.calls| && s.calls[c].Found? ==> s.calls[c].r < |s.recs|
  }

  /** A key the evictor has been to and left in the table is not stale, and does not become so: its timestamp only grows. */
  ghost predicate FreshAt(s: State, key: string) {
    s.evictor.Evicting? && key in s.table && key !in s.evictor.todo && s.table[key] < |s.recs| ==>
      s.evictor.now <= s.recs[s.table[key]].lastTS + 300_000
  }

  ghost predicate Inv(max: nat, s: State) {
    && |s.table| <= max
    && (s.evictor.Evicting? ==> s.evictor.todo <= s.table.Keys)
    && (forall r :: RecAt(s, r)) && (forall key :: EntryAt(s, key)) && (forall c :: CallAt(s, c)) && (forall key :: FreshAt(s, key))
  }

  lemma FindKeeps(max: nat, s: State, key: string, ts: nat)
    requires Inv(max, s) && Enabled(s, FindOrCreate(key, ts))
    ensures Inv(max, Apply(max, s, FindOrCreate(key, ts)))
  {
    var t := Apply(max, s, FindOrCreate(key, ts));
    assert EntryAt(s, key);
    if t.table != s.table {
      assert t.table.Keys == s.table.Keys + {key};
      assert |s.table.Keys + {key}| == |s.table.Keys| + 1;
    }
    forall r: nat ensures RecAt(t, r) {
      assert RecAt(s, r);
    }
    forall k ensures EntryAt(t, k) && FreshAt(t, k) {
      assert EntryAt(s, k) && FreshAt(s, k);
    }
    forall c: nat ensures CallAt(t, c) {
      assert CallAt(s, c);
    }
  }

  lemma UpdateKeeps(max: nat, s: State, c: nat)
    requires Inv(max, s) && Enabled(s, Update(c))
    ensures Inv(max, Apply(max, s, Update(c)))
  {
    var t := Apply(max, s, Update(c));
    assert RecAt(s, s.calls[c].r);
    UpdatedOk(s.recs[s.calls[c].r], s.calls[c].ts);
    forall r: nat ensures RecAt(t, r) {
      assert RecAt(s, r);
    }
    forall k ensures EntryAt(t, k) && FreshAt(t, k) {
      assert EntryAt(s, k) && FreshAt(s, k);
    }
    forall d: nat ensures CallAt(t, d) {
      assert CallAt(s, d);
    }
  }

  lemma EvictKeeps(max: nat, s: State, step: Step)
    requires Inv(max, s) && Enabled(s, step) && (step.EvictStart? || step.EvictVisit? || step.EvictEnd?)
    ensures Inv(max, Apply(max, s, step))
  {
    var t := Apply(max, s, step);
    if step.EvictVisit? {
      assert (s.table - {step.key}).Keys == s.table.Keys - {step.key};
    }
    forall r: nat ensures RecAt(t, r) {
      assert RecAt(s, r);
    }
    forall k ensures EntryAt(t, k) && FreshAt(t, k) {
      assert EntryAt(s, k) && FreshAt(s, k);
    }
    forall c: nat ensures CallAt(t, c) {
      assert CallAt(s, c);
    }
  }

  lemma StepKeeps(max: nat, s: State, step: Step)
    requires Inv(max, s) && Enabled(s, step)
    ensures Inv(max, Apply(max, s, step))
  {
    match step
    case FindOrCreate(key, ts) => FindKeeps(max, s, key, ts);
    case Update(c) => UpdateKeeps(max, s, c);
    case _ => EvictKeeps(max, s, step);
  }

  function RunTo(max: nat, steps: seq<Step>, n: nat): State
    requires n <= |steps|
  {
    if n == 0 then State([], map[], [], Asleep)
    else
      var s := RunTo(max, steps, n - 1);
      if Enabled(s, steps[n - 1]) then Apply(max, s, steps[n - 1]) else s
  }

  lemma {:induction false} RunKeeps(max: nat, steps: seq<Step>, n: nat)
    requires n <= |steps|
    ensures Inv(max, RunTo(max, steps, n))
  {
    if n > 0 {
      RunKeeps(max, steps, n - 1);
      var s := RunTo(max, steps, n - 1);
      if Enabled(s, steps[n - 1]) {
        StepKeeps(max, s, steps[n - 1]);
      }
    } else {
      var s := RunTo(max, steps, 0);
      assert forall r :: RecAt(s, r);
      assert forall key :: EntryAt(s, key);
      assert forall c :: CallAt(s, c);
      assert forall key :: FreshAt(s, key);
    }
  }

  /**
   In every run the table stays within its size, and every record, in the table or
   evicted from it, has the largest timestamp it was given, has observed positive
   differences that add up to how far that is from its first, and has counted what
   came late.
   */
  lemma RecordsAddUp(max: nat, steps: seq<Step>, r: nat)
    requires r < |RunTo(max, steps, |steps|).recs|
    ensures var s := RunTo(max, steps, |steps|);
            var x := s.recs[r];
            && |s.table| <= max
            && x.first <= x.lastTS && (forall i | 0 <= i < |x.applied| :: x.applied[i] <= x.lastTS)
            && (x.lastTS == x.first || exists i :: 0 <= i < |x.applied| && x.applied[i] == x.lastTS)
            && AllPositive(x.observed) && Sum(x.observed) == x.lastTS - x.first
            && |x.observed| == |set i | 0 <= i < |x.applied| && IsNew(x.first, x.applied, i)|
            && x.outOfSeq == |set i | 0 <= i < |x.applied| && ComesLate(x.first, x.applied, i)|
  {
    RunKeeps(max, steps, |steps|);
    var x := RunTo(max, steps, |steps|).recs[r];
    assert RecAt(RunTo(max, steps, |steps|), r);
    LatestIsMax(x.first, x.applied, |x.applied|);
    AdvancesAddUp(x.first, x.applied, |x.applied|);
    AdvancesCount(x.first, x.applied, |x.applied|);
    LateCounts(x.first, x.applied, |x.applied|);
  }

  // ---------------------------------------------------------------------------
  // Which records are in the table

  predicate InTable(s: State, r: nat) {
    r < |s.recs| && s.recs[r].key in s.table && s.table[s.recs[r].key] == r
  }

  /** Step `i` of the run is a visit of record `r` that finds it more than five minutes behind the pass's clock. */
  ghost predicate Evicts(max: nat, steps: seq<Step>, i: nat, r: nat)
    requires i < |steps|
  {
    var s := RunTo(max, steps, i);
    InTable(s, r) && Enabled(s, steps[i]) && steps[i] == EvictVisit(s.recs[r].key) && s.recs[r].lastTS + 300_000 < s.evictor.now
  }

  /** One step: records keep their keys, a new record is in the table, and one leaves it exactly when it is evicted. */
  lemma StepInTable(max: nat, s: State, step: Step, r: nat)
    requires Inv(max, s) && Enabled(s, step)
    ensures var t := Apply(max, s, step);
            && |s.recs| <= |t.recs| <= |s.recs| + 1
            && (r < |s.recs| ==> t.recs[r].key == s.recs[r].key && s.recs[r].lastTS <= t.recs[r].lastTS)
            && (|s.recs| <= r < |t.recs| ==> InTable(t, r))
            && (r < |s.recs| ==>
                  (InTable(t, r) <==> InTable(s, r) && !(step == EvictVisit(s.recs[r].key) && s.recs[r].lastTS + 300_000 < s.evictor.now)))
  {
    if r < |s.recs| {
      assert EntryAt(s, s.recs[r].key);
    }
    if step.FindOrCreate? {
      assert EntryAt(s, step.key);
    }
  }

  lemma StepRecs(max: nat, s: State, step: Step)
    requires Enabled(s, step)
    ensures |s.recs| <= |Apply(max, s, step).recs|
  {
  }

  lemma {:induction false} RecsGrow(max: nat, steps: seq<Step>, k: nat, n: nat)
    requires k <= n <= |steps|
    ensures |RunTo(max, steps, k).recs| <= |RunTo(max, steps, n).recs|
    decreases n
  {
    if k < n {
      RecsGrow(max, steps, k, n - 1);
      var s := RunTo(max, steps, n - 1);
      if Enabled(s, steps[n - 1]) {
        StepRecs(max, s, steps[n - 1]);
      }
    }
  }

  ghost predicate NeverEvicted(max: nat, steps: seq<Step>, k: nat, n: nat, r: nat)
    requires n <= |steps|
  {
    forall i | k <= i < n :: !Evicts(max, steps, i, r)
  }

  /** In every run the records in the table are exactly those that were never evicted. */
  lemma {:induction false} InTableExactly(max: nat, steps: seq<Step>, n: nat, r: nat)
    requires n <= |steps| && r < |RunTo(max, steps, n).recs|
    ensures InTable(RunTo(max, steps, n), r) <==> NeverEvicted(max, steps, 0, n, r)
  {
    var m := n - 1;
    RunKeeps(max, steps, m);
    var s := RunTo(max, steps, m);
    if r < |s.recs| {
      InTableExactly(max, steps, m, r);
      if Enabled(s, steps[m]) {
        StepInTable(max, s, steps[m], r);
      }
      assert NeverEvicted(max, steps, 0, n, r) <==> NeverEvicted(max, steps, 0, m, r) && !Evicts(max, steps, m, r);
    } else {
      StepInTable(max, s, steps[m], r);
      forall i | 0 <= i < n ensures !Evicts(max, steps, i, r) {
        RecsGrow(max, steps, i, m);
      }
    }
  }

  /** A record in the table after `k` steps is still the table's record after `n` if and only if no step in between evicts it. */
  lemma StaysInTable(max: nat, steps: seq<Step>, k: nat, n: nat, r: nat)
    requires k <= n <= |steps| && InTable(RunTo(max, steps, k), r)
    ensures InTable(RunTo(max, steps, n), r) <==> NeverEvicted(max, steps, k, n, r)
  {
    RecsGrow(max, steps, k, n);
    InTableExactly(max, steps, k, r);
    InTableExactly(max, steps, n, r);
    assert NeverEvicted(max, steps, 0, n, r) <==> NeverEvicted(max, steps, 0, k, r) && NeverEvicted(max, steps, k, n, r);
  }

  /** Calls are numbered in order, and one that is over stays over. */
  lemma StepCalls(max: nat, s: State, step: Step, c: nat)
    requires Enabled(s, step) && c < |s.calls|
    ensures var t := Apply(max, s, step); c < |t.calls| && (t.calls[c] == s.calls[c] || t.calls[c].Over?)
  {
  }

  lemma {:induction false} CallStays(max: nat, steps: seq<Step>, k: nat, n: nat, c: nat)
    requires k <= n <= |steps| && c < |RunTo(max, steps, k).calls|
    ensures var s, t := RunTo(max, steps, k), RunTo(max, steps, n);
            c < |t.calls| && (t.calls[c] == s.calls[c] || t.calls[c].Over?)
    decreases n
  {
    if k < n {
      CallStays(max, steps, k, n - 1, c);
      var s := RunTo(max, steps, n - 1);
      if Enabled(s, steps[n - 1]) {
        StepCalls(max, s, steps[n - 1], c);
      }
    }
  }

  /**
   An update reaches the record the table has for its key if and only if the record was
   not evicted since the same call found it.
   */
  lemma UpdateReachesTable(max: nat, steps: seq<Step>, k: nat, n: nat, c: nat)
    requires k < n < |steps| && steps[k].FindOrCreate? && Enabled(RunTo(max, steps, k), steps[k]) && c == |RunTo(max, steps, k).calls|
    requires steps[n] == Update(c) && Enabled(RunTo(max, steps, n), steps[n])
    ensures var s, j := RunTo(max, steps, n), k + 1;
            && s.calls[c].ts == steps[k].ts && s.recs[s.calls[c].r].key == steps[k].key
            && (InTable(s, s.calls[c].r) <==> NeverEvicted(max, steps, j, n, s.calls[c].r))
            && Given(s.recs, RunTo(max, steps, n + 1).recs, s.calls[c].r, steps[k].ts)
  {
    FoundAt(max, steps, k);
    FoundLater(max, steps, k + 1, n, c, steps[k].key, steps[k].ts);
  }

  /** Record `r` is given the timestamp `ts`, what it has observed stays, and nothing else changes about the records. */
  ghost predicate Given(before: seq<Rec>, after: seq<Rec>, r: nat, ts: nat) {
    && r < |before| == |after|
    && (forall q | 0 <= q < |before| && q != r :: after[q] == before[q])
    && after[r].key == before[r].key && after[r].first == before[r].first && after[r].applied == before[r].applied + [ts]
    && before[r].observed <= after[r].observed
  }

  /** Call `c` has found the table's record of `key`, or has found none. */
  ghost predicate FoundOf(s: State, c: nat, key: string, ts: nat) {
    c < |s.calls| &&
    match s.calls[c]
    case Found(r, t) => t == ts && InTable(s, r) && s.recs[r].key == key
    case NoSpace => true
    case Over => false
  }

  lemma FoundAt(max: nat, steps: seq<Step>, k: nat)
    requires k < |steps| && steps[k].FindOrCreate? && Enabled(RunTo(max, steps, k), steps[k])
    ensures FoundOf(RunTo(max, steps, k + 1), |RunTo(max, steps, k).calls|, steps[k].key, steps[k].ts)
  {
    RunKeeps(max, steps, k);
    FoundInTable(max, RunTo(max, steps, k), steps[k]);
  }

  lemma FoundLater(max: nat, steps: seq<Step>, j: nat, n: nat, c: nat, key: string, ts: nat)
    requires j <= n <= |steps| && FoundOf(RunTo(max, steps, j), c, key, ts)
    requires c < |RunTo(max, steps, n).calls| && RunTo(max, steps, n).calls[c].Found?
    ensures var s := RunTo(max, steps, n);
            var r := s.calls[c].r;
            && s.calls[c].ts == ts && r < |s.recs| && s.recs[r].key == key
            && (InTable(s, r) <==> NeverEvicted(max, steps, j, n, r))
  {
    CallStays(max, steps, j, n, c);
    var r := RunTo(max, steps, j).calls[c].r;
    StaysInTable(max, steps, j, n, r);
    RecStays(max, steps, j, n, r);
    assert FollowsHere(RunTo(max, steps, j), RunTo(max, steps, n), r, true);
  }

  /** What a call finds is the table's record of its key. */
  lemma FoundInTable(max: nat, s: State, step: Step)
    requires Inv(max, s) && step.FindOrCreate? && Enabled(s, step)
    ensures FoundOf(Apply(max, s, step), |s.calls|, step.key, step.ts)
  {
    assert EntryAt(s, step.key);
  }

  /** Record `r` is the same one later on: its key stays and its timestamp does not go back. */
  ghost predicate Follows(s: State, t: State, r: nat) {
    forall now :: FollowsHere(s, t, r, now)
  }

  ghost predicate FollowsHere(s: State, t: State, r: nat, now: bool) {
    now && r < |s.recs| ==> r < |t.recs| && t.recs[r].key == s.recs[r].key && s.recs[r].lastTS <= t.recs[r].lastTS
  }

  lemma FollowsStep(max: nat, s: State, t: State, step: Step, r: nat)
    requires Follows(s, t, r) && Enabled(t, step)
    ensures Follows(s, Apply(max, t, step), r)
  {
    assert FollowsHere(s, t, r, true);
    var u := Apply(max, t, step);
    assert forall now :: FollowsHere(s, u, r, now);
  }

  lemma {:induction false} RecStays(max: nat, steps: seq<Step>, k: nat, n: nat, r: nat)
    requires k <= n <= |steps|
    ensures Follows(RunTo(max, steps, k), RunTo(max, steps, n), r)
    decreases n
  {
    if k < n {
      RecStays(max, steps, k, n - 1, r);
      var t := RunTo(max, steps, n - 1);
      if Enabled(t, steps[n - 1]) {
        FollowsStep(max, RunTo(max, steps, k), t, steps[n - 1], r);
      }
    } else {
      var s := RunTo(max, steps, k);
      assert forall now :: FollowsHere(s, s, r, now);
    }
  }

  /** The failing case: evicted between being found and being updated, a record takes an update that the table no longer knows of. */
  lemma UpdateAfterEviction(max: nat, key: string, ts: nat, later: nat)
    requires max > 0 && later > ts + 300_000
    ensures var steps := [FindOrCreate(key, ts), FindOrCreate(key, later), EvictStart(later), EvictVisit(key), Update(1)];
            var s := RunTo(max, steps, 5);
            |s.recs| == 1 && s.table == map[] && s.recs[0].lastTS == later && s.recs[0].observed == [later - ts]
  {
    var steps := [FindOrCreate(key, ts), FindOrCreate(key, later), EvictStart(later), EvictVisit(key), Update(1)];
    var a, table, empty: map<string, nat> := Rec(key, ts, ts, [], 0, []), map[key := 0], map[];
    var calls := [] + [Found(0, ts)] + [Found(0, later)];
    assert RunTo(max, steps, 0) == State([], empty, [], Asleep);
    assert RunTo(max, steps, 1) == State([] + [a], empty[key := 0], [] + [Found(0, ts)], Asleep);
    assert RunTo(max, steps, 2) == State([] + [a], table, calls, Asleep);
    assert table.Keys == {key} && table - {key} == empty;
    assert RunTo(max, steps, 3) == State([] + [a], table, calls, Evicting(later, {key}));
    assert RunTo(max, steps, 4) == State([] + [a], empty, calls, Evicting(later, {key} - {key}));
    assert Updated(a, later).observed == [] + [later - ts] == [later - ts];
  }

  // ---------------------------------------------------------------------------
  // An eviction pass

  /** From step `k`, an eviction starts, and it is still going on after `n` steps. */
  ghost predicate InPass(max: nat, steps: seq<Step>, k: nat, n: nat) {
    && k < n <= |steps| && steps[k].EvictStart? && Enabled(RunTo(max, steps, k), steps[k])
    && forall j | k < j <= n :: RunTo(max, steps, j).evictor.Evicting?
  }

  /** Step `i` is the visit of `key` in the pass. */
  ghost predicate Visits(max: nat, steps: seq<Step>, i: nat, key: string, r: nat)
    requires i < |steps|
  {
    var s := RunTo(max, steps, i);
    Enabled(s, steps[i]) && steps[i] == EvictVisit(key) && s.table[key] == r
  }

  /** One step of a pass, for a key: it is still to be visited, or visited and gone, or visited and kept. */
  ghost predicate PassAt(max: nat, steps: seq<Step>, k: nat, n: nat, key: string, r: nat, i: nat)
    requires InPass(max, steps, k, n)
  {
    var s, now := RunTo(max, steps, n), steps[k].now;
    && s.evictor == Evicting(now, s.evictor.todo)
    && if key in s.evictor.todo then key in s.table && s.table[key] == r
       else
         && k < i < n && Visits(max, steps, i, key, r)
         && (key in s.table <==> now <= RunTo(max, steps, i).recs[r].lastTS + 300_000) && (key in s.table ==> s.table[key] == r)
  }

  /** A step during a pass settles a key when it visits it, and leaves it alone otherwise. */
  lemma PassStep(max: nat, s: State, step: Step, key: string, now: nat)
    requires Inv(max, s) && Enabled(s, step) && s.evictor.Evicting? && s.evictor.now == now && Apply(max, s, step).evictor.Evicting?
    ensures var t, visit := Apply(max, s, step), step == EvictVisit(key);
            && t.evictor.now == now && (key in t.evictor.todo <==> key in s.evictor.todo && !visit)
            && (key in t.table <==> key in s.table && !(visit && s.recs[s.table[key]].lastTS + 300_000 < now))
            && (key in t.table ==> t.table[key] == s.table[key])
  {
    assert EntryAt(s, key);
  }

  lemma {:induction false} PassSoFar(max: nat, steps: seq<Step>, k: nat, n: nat, key: string) returns (i: nat)
    requires InPass(max, steps, k, n) && key in RunTo(max, steps, k).table
    ensures PassAt(max, steps, k, n, key, RunTo(max, steps, k).table[key], i)
    decreases n
  {
    i := 0;
    if n > k + 1 {
      var m := n - 1;
      i := PassSoFar(max, steps, k, m, key);
      RunKeeps(max, steps, m);
      var s := RunTo(max, steps, m);
      if Enabled(s, steps[m]) {
        PassStep(max, s, steps[m], key, steps[k].now);
        if steps[m] == EvictVisit(key) {
          i := m;
        }
      }
    }
  }

  /**
   A pass visits every key that was in the table when it began, and takes out exactly
   those whose record is then more than five minutes behind the pass's clock; updates may
   come in between.
   */
  lemma PassEvictsExactly(max: nat, steps: seq<Step>, k: nat, n: nat, key: string) returns (i: nat)
    requires InPass(max, steps, k, n) && Enabled(RunTo(max, steps, n), EvictEnd) && key in RunTo(max, steps, k).table
    ensures var r := RunTo(max, steps, k).table[key];
            && k < i < n && Visits(max, steps, i, key, r)
            && r < |RunTo(max, steps, i).recs|
            && (key !in RunTo(max, steps, n).table <==> RunTo(max, steps, i).recs[r].lastTS + 300_000 < steps[k].now)
  {
    i := PassSoFar(max, steps, k, n, key);
  }

  /** A key stays if and only if its record was given a timestamp, by the time of the visit, that is at most five minutes behind. */
  lemma PassKeepsRecent(max: nat, steps: seq<Step>, k: nat, n: nat, key: string) returns (i: nat)
    requires InPass(max, steps, k, n) && Enabled(RunTo(max, steps, n), EvictEnd) && key in RunTo(max, steps, k).table
    ensures var r := RunTo(max, steps, k).table[key];
            && k < i < n && Visits(max, steps, i, key, r) && r < |RunTo(max, steps, i).recs|
            && (key in RunTo(max, steps, n).table <==> Recent(RunTo(max, steps, i).recs[r], steps[k].now))
  {
    i := PassEvictsExactly(max, steps, k, n, key);
    RunKeeps(max, steps, i);
    var r := RunTo(max, steps, k).table[key];
    assert RecAt(RunTo(max, steps, i), r);
    RecentExactly(RunTo(max, steps, i).recs[r], steps[k].now);
  }

  ghost predicate Recent(x: Rec, now: nat) {
    now <= x.first + 300_000 || exists j :: 0 <= j < |x.applied| && now <= x.applied[j] + 300_000
  }

  lemma RecentExactly(x: Rec, now: nat)
    requires RecOk(x)
    ensures Recent(x, now) <==> now <= x.lastTS + 300_000
  {
    LatestIsMax(x.first, x.applied, |x.applied|);
  }

  /** In particular a pass whose clock is behind a record, or ahead of it by no more than five minutes, leaves it. */
  lemma RecentStays(max: nat, steps: seq<Step>, k: nat, n: nat, key: string)
    requires InPass(max, steps, k, n) && Enabled(RunTo(max, steps, n), EvictEnd) && key in RunTo(max, steps, k).table
    requires var s := RunTo(max, steps, k); s.table[key] < |s.recs| && steps[k].now <= s.recs[s.table[key]].lastTS + 300_000
    ensures key in RunTo(max, steps, n).table
  {
    var i := PassEvictsExactly(max, steps, k, n, key);
    var r := RunTo(max, steps, k).table[key];
    RecStays(max, steps, k, i, r);
    assert FollowsHere(RunTo(max, steps, k), RunTo(max, steps, i), r, true);
  }

  /** At the end of every pass no record left in the table is more than five minutes behind the pass's clock. */
  lemma NoneStaleLeft(max: nat, steps: seq<Step>, n: nat, key: string)
    requires n <= |steps| && Enabled(RunTo(max, steps, n), EvictEnd) && key in RunTo(max, steps, n).table
    ensures var s := RunTo(max, steps, n); s.table[key] < |s.recs| && s.evictor.now <= s.recs[s.table[key]].lastTS + 300_000
  {
    RunKeeps(max, steps, n);
    var s := RunTo(max, steps, n);
    assert EntryAt(s, key) && FreshAt(s, key);
  }

  // ---------------------------------------------------------------------------
  // Space

  /** How many of the first `n` steps evict a record. */
  ghost function Evictions(max: nat, steps: seq<Step>, n: nat): nat
    requires n <= |steps|
  {
    if n == 0 then 0
    else
      var s := RunTo(max, steps, n - 1);
      Evictions(max, steps, n - 1) +
      if Enabled(s, steps[n - 1]) && TakesOut(s, steps[n - 1]) then 1 else 0
  }

  predicate TakesOut(s: State, step: Step)
    requires Enabled(s, step)
  {
    step.EvictVisit? && s.recs[s.table[step.key]].lastTS + 300_000 < s.evictor.now
  }

  /** In every run records made are records in the table and evictions. */
  lemma {:induction false} RecordsConserved(max: nat, steps: seq<Step>, n: nat)
    requires n <= |steps|
    ensures var s := RunTo(max, steps, n); |s.recs| == |s.table| + Evictions(max, steps, n)
  {
    if n > 0 {
      RecordsConserved(max, steps, n - 1);
      RunKeeps(max, steps, n - 1);
      var s := RunTo(max, steps, n - 1);
      if Enabled(s, steps[n - 1]) {
        TableSize(max, s, steps[n - 1]);
      }
    }
  }

  lemma TableSize(max: nat, s: State, step: Step)
    requires Inv(max, s) && Enabled(s, step)
    ensures var t := Apply(max, s, step);
            |t.recs| - |s.recs| == |t.table| - |s.table| + if TakesOut(s, step) then 1 else 0
  {
    match step
    case FindOrCreate(key, ts) =>
      if key !in s.table {
        SizePut(s.table, key, |s.recs|);
      }
    case EvictVisit(key) =>
      SizeRemove(s.table, key);
    case _ =>
  }

  lemma SizePut(m: map<string, nat>, key: string, r: nat)
    requires key !in m
    ensures |m[key := r]| == |m| + 1
  {
    assert m[key := r].Keys == m.Keys + {key};
    assert |m.Keys + {key}| == |m.Keys| + 1;
  }

  lemma SizeRemove(m: map<string, nat>, key: string)
    requires key in m
    ensures |m - {key}| == |m| - 1
  {
    assert (m - {key}).Keys == m.Keys - {key};
    assert |m.Keys - {key}| == |m.Keys| - 1;
  }

  /**
   In every run a key is turned away exactly when every record it ever had was evicted
   and as many other records as the table may hold were not.
   */
  lemma TurnedAwayExactly(max: nat, steps: seq<Step>, n: nat)
    requires n < |steps| && steps[n].FindOrCreate? && Enabled(RunTo(max, steps, n), steps[n])
    ensures var s, key := RunTo(max, steps, n), steps[n].key;
            RunTo(max, steps, n + 1).calls[|s.calls|].NoSpace? <==>
              && (forall r | 0 <= r < |s.recs| && s.recs[r].key == key :: !NeverEvicted(max, steps, 0, n, r))
              && |s.recs| - Evictions(max, steps, n) == max
  {
    RunKeeps(max, steps, n);
    RecordsConserved(max, steps, n);
    var s, key := RunTo(max, steps, n), steps[n].key;
    assert EntryAt(s, key);
    forall r | 0 <= r < |s.recs| && s.recs[r].key == key ensures InTable(s, r) <==> NeverEvicted(max, steps, 0, n, r) {
      InTableExactly(max, steps, n, r);
    }
    assert key in s.table ==> InTable(s, s.table[key]);
  }
}
