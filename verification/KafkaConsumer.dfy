/**
 The loop of the Kafka input (xport_kafka.go): connecting, taking messages, handing them
 to every output, and marking offsets from a timer.  Each event the loop can select is a
 step, and so is each send of a fan-out.
 */
module KafkaConsumer {
  import opened Common

  /** A message made of a Kafka message's value; most give one, a value that cannot be decoded gives none. */
  type Data = seq<byte>

  /** Where the loop is; in a fan-out, which message goes to which output next. */
  datatype Pc = Connecting | Selecting | FanOut(cur: nat, out: nat) | Stopped

  /**
   `parts` has the partition of every Kafka message received; a checkpoint or a mark is
   the position of a message there.  `log` holds what the messages decode to, and `fates`
   says for each output which of those it was handed.
   */
  datatype State = State(
    pc: Pc,
    connected: bool,
    reconnectTimers: nat,
    flushScheduled: bool,
    flushTimers: nat,
    checkpoint: Option<nat>,
    parts: seq<nat>,
    marks: seq<nat>,
    log: seq<Data>,
    fates: seq<seq<bool>>,
    outs: seq<seq<Data>>,
    reports: nat,
    lostConsumers: nat,
    panicked: bool)

  datatype Step =
    | Connect(ok: bool)
    | ReconnectTimer
    | FlushTimer
    | Message(partition: nat, dMs: seq<Data>)
    | Sent
    | Report
    | Shutdown

  predicate Enabled(s: State, step: Step) {
    match step
    case Connect(_) => s.pc.Connecting?
    case ReconnectTimer => s.pc.Selecting? && s.reconnectTimers > 0
    case FlushTimer => s.pc.Selecting? && s.flushTimers > 0
    case Message(_, _) => s.pc.Selecting? && s.connected
    case Sent => s.pc.FanOut? && s.pc.out < |s.outs| == |s.fates| && s.pc.cur < |s.log|
    case Report => s.pc.Selecting? || (s.pc.FanOut? && s.pc.out < |s.outs| == |s.fates| && s.pc.cur < |s.log|)
    case Shutdown => s.pc.Selecting? || s.pc.FanOut?
  }

  /** The next send of the fan-out, or back to the selection. */
  function After(s: State, cur: nat, out: nat): Pc {
    if out + 1 < |s.outs| then FanOut(cur, out + 1)
    else if cur + 1 < |s.log| then FanOut(cur + 1, 0)
    else Selecting
  }

  function Passed(s: State, sent: bool): State
    requires s.pc.FanOut? && s.pc.out < |s.outs| == |s.fates| && s.pc.cur < |s.log|
  {
    var c := s.pc.out;
    s.(fates := s.fates[c := s.fates[c] + [sent]],
    outs := if sent then s.outs[c := s.outs[c] + [s.log[s.pc.cur]]] else s.outs,
    pc := After(s, s.pc.cur, c))
  }

  function Apply(s: State, step: Step): State
    requires Enabled(s, step)
  {
    match step
    case Connect(ok) => s.(pc := Selecting, connected := ok, reconnectTimers := s.reconnectTimers + if ok then 0 else 1)
    // Restarting closes a consumer that is there and forgets the checkpoint.
    case ReconnectTimer =>
      s.(pc := Connecting, reconnectTimers := s.reconnectTimers - 1, connected := false, checkpoint := None,
      lostConsumers := s.lostConsumers + if s.connected then 1 else 0)
    // Marking without a consumer dereferences nil.
    case FlushTimer =>
      s.(flushTimers := s.flushTimers - 1, flushScheduled := false, checkpoint := None,
      marks := if s.checkpoint.Some? then s.marks + [s.checkpoint.value] else s.marks,
      panicked := s.panicked || (s.checkpoint.Some? && !s.connected))
    case Message(partition, dMs) =>
      s.(parts := s.parts + [partition], checkpoint := Some(|s.parts|), flushScheduled := true,
      flushTimers := s.flushTimers + (if s.flushScheduled then 0 else 1), log := s.log + dMs,
      pc := if dMs == [] || s.outs == [] then Selecting else FanOut(|s.log|, 0))
    case Sent => Passed(s, true)
    // A report taken in place of a send goes on with the next output.
    case Report => if s.pc.FanOut? then Passed(s, false).(reports := s.reports + 1) else s
    case Shutdown => s.(pc := Stopped)
  }

  function Initial(outputs: nat): State {
    State(Connecting, false, 0, false, 0, None, [], [], [], seq(outputs, _ => []), seq(outputs, _ => []), 0, 0, false)
  }

  // ---------------------------------------------------------------------------
  // The invariant

  /** The messages an output was handed, of the first `n`. */
  function Select(log: seq<Data>, fate: seq<bool>, n: nat): seq<Data>
    requires n <= |fate| && n <= |log|
  {
    if n == 0 then []
    else if fate[n - 1] then Select(log, fate, n - 1) + [log[n - 1]] else Select(log, fate, n - 1)
  }

  function Skips(fate: seq<bool>, n: nat): nat
    requires n <= |fate|
  {
    if n == 0 then 0 else Skips(fate, n - 1) + if fate[n - 1] then 0 else 1
  }

  function TotalSkips(fates: seq<seq<bool>>, n: nat): nat
    requires n <= |fates|
  {
    if n == 0 then 0 else TotalSkips(fates, n - 1) + Skips(fates[n - 1], |fates[n - 1]|)
  }

  /** How many messages have had their turn at output `c`. */
  function Turns(s: State, c: nat): nat {
    if s.pc.FanOut? then if c < s.pc.out then s.pc.cur + 1 else s.pc.cur else |s.log|
  }

  predicate OutOk(s: State, c: nat) {
    c < |s.outs| == |s.fates| ==>
      && (!s.pc.Stopped? ==> |s.fates[c]| == Turns(s, c))
      && |s.fates[c]| <= |s.log|
      && s.outs[c] == Select(s.log, s.fates[c], |s.fates[c]|)
  }

  predicate MarkOk(s: State, i: nat, j: nat) {
    j < |s.marks| ==> s.marks[j] < |s.parts| && (i < j ==> s.marks[i] < s.marks[j]) && (s.checkpoint.Some? ==> s.marks[j] < s.checkpoint.value)
  }

  ghost predicate Inv(s: State) {
    && !s.panicked && s.lostConsumers == 0
    && (if s.pc.Connecting? then !s.connected && s.reconnectTimers == 0 else s.reconnectTimers == if s.connected then 0 else 1)
    && s.flushTimers == (if s.flushScheduled then 1 else 0)
    && (s.checkpoint.Some? ==> s.connected && s.flushScheduled && s.checkpoint.value + 1 == |s.parts|)
    && (s.pc.FanOut? ==> s.connected && s.checkpoint.Some? && s.pc.cur < |s.log| && s.pc.out < |s.outs|)
    && (forall i, j :: MarkOk(s, i, j))
    && |s.outs| == |s.fates| && (forall c :: OutOk(s, c))
    && s.reports == TotalSkips(s.fates, |s.fates|)
  }

  // ---------------------------------------------------------------------------
  // Every step keeps it

  lemma {:induction false} SelectPrefix(log: seq<Data>, more: seq<Data>, fate: seq<bool>, b: bool, n: nat)
    requires n <= |fate| && n <= |log|
    ensures Select(log + more, fate, n) == Select(log, fate, n) && Select(log, fate + [b], n) == Select(log, fate, n)
  {
    if n > 0 {
      SelectPrefix(log, more, fate, b, n - 1);
    }
  }

  lemma {:induction false} SkipsPrefix(fate: seq<bool>, b: bool, n: nat)
    requires n <= |fate|
    ensures Skips(fate + [b], n) == Skips(fate, n)
  {
    if n > 0 {
      SkipsPrefix(fate, b, n - 1);
    }
  }

  lemma {:induction false} TotalPut(fates: seq<seq<bool>>, c: nat, b: bool, n: nat)
    requires c < |fates| && n <= |fates|
    ensures TotalSkips(fates[c := fates[c] + [b]], n) == TotalSkips(fates, n) + if c < n && !b then 1 else 0
  {
    if n > 0 {
      TotalPut(fates, c, b, n - 1);
      if c == n - 1 {
        SkipsPrefix(fates[c], b, |fates[c]|);
      }
    }
  }

  /** One turn of the fan-out: a send, or a control message taken in its place. */
  lemma PassedKeeps(s: State, sent: bool)
    requires Inv(s) && Enabled(s, Sent)
    ensures Inv(Passed(s, sent).(reports := s.reports + if sent then 0 else 1))
  {
    var t, c := Passed(s, sent).(reports := s.reports + if sent then 0 else 1), s.pc.out;
    TotalPut(s.fates, c, sent, |s.fates|);
    assert OutOk(s, c);
    SelectPrefix(s.log, [], s.fates[c], sent, |s.fates[c]|);
    forall i: nat, j: nat ensures MarkOk(t, i, j) {
      assert MarkOk(s, i, j);
    }
    forall d: nat ensures OutOk(t, d) {
      assert OutOk(s, d);
    }
  }

  lemma MessageKeeps(s: State, partition: nat, dMs: seq<Data>)
    requires Inv(s) && Enabled(s, Message(partition, dMs))
    ensures Inv(Apply(s, Message(partition, dMs)))
  {
    var t := Apply(s, Message(partition, dMs));
    forall i: nat, j: nat ensures MarkOk(t, i, j) {
      assert MarkOk(s, i, j);
    }
    forall c: nat ensures OutOk(t, c) {
      assert OutOk(s, c);
      if c < |s.outs| {
        SelectPrefix(s.log, dMs, s.fates[c], true, |s.fates[c]|);
      }
    }
  }

  lemma StepKeeps(s: State, step: Step)
    requires Inv(s) && Enabled(s, step)
    ensures Inv(Apply(s, step))
  {
    match step
    case Sent => PassedKeeps(s, true);
    case Message(partition, dMs) => MessageKeeps(s, partition, dMs);
    case _ =>
      if step.Report? && s.pc.FanOut? {
        PassedKeeps(s, false);
      } else {
        QuietKeeps(s, step);
      }
  }

  /** Steps that leave the outputs alone. */
  lemma QuietKeeps(s: State, step: Step)
    requires Inv(s) && Enabled(s, step) && !step.Sent? && !step.Message? && !(step.Report? && s.pc.FanOut?)
    ensures Inv(Apply(s, step))
  {
    var t := Apply(s, step);
    forall i: nat, j: nat ensures MarkOk(t, i, j) {
      assert MarkOk(s, i, j) && MarkOk(s, i, i);
    }
    forall c: nat ensures OutOk(t, c) {
      assert OutOk(s, c);
    }
  }

  // ---------------------------------------------------------------------------
  // Runs

  function RunTo(outputs: nat, steps: seq<Step>, n: nat): State
    requires n <= |steps|
  {
    if n == 0 then Initial(outputs)
    else
      var s := RunTo(outputs, steps, n - 1);
      if Enabled(s, steps[n - 1]) then Apply(s, steps[n - 1]) else s
  }

  lemma {:induction false} NoSkips(fates: seq<seq<bool>>, n: nat)
    requires n <= |fates| && forall c | 0 <= c < n :: fates[c] == []
    ensures TotalSkips(fates, n) == 0
  {
    if n > 0 {
      NoSkips(fates, n - 1);
    }
  }

  lemma {:induction false} RunKeeps(outputs: nat, steps: seq<Step>, n: nat)
    requires n <= |steps|
    ensures Inv(RunTo(outputs, steps, n)) && |RunTo(outputs, steps, n).outs| == outputs
  {
    if n > 0 {
      RunKeeps(outputs, steps, n - 1);
      var s := RunTo(outputs, steps, n - 1);
      if Enabled(s, steps[n - 1]) {
        StepKeeps(s, steps[n - 1]);
      }
    } else {
      var s := Initial(outputs);
      NoSkips(s.fates, outputs);
      assert forall i, j :: MarkOk(s, i, j);
      assert forall c :: OutOk(s, c);
    }
  }

  /**
   In every run: an offset is never marked without a consumer, a consumer that is
   connected is never dropped by a reconnect, and there is at most one timer of each
   kind; without a consumer a reconnect is coming, and with a message not marked yet a
   flush is.
   */
  lemma TimersAndConsumers(outputs: nat, steps: seq<Step>)
    ensures var s := RunTo(outputs, steps, |steps|);
            && !s.panicked && s.lostConsumers == 0 && s.reconnectTimers <= 1 && s.flushTimers <= 1
            && (s.pc.Connecting? || s.connected ==> s.reconnectTimers == 0)
            && (!s.pc.Connecting? && !s.connected ==> s.reconnectTimers == 1)
            && (s.checkpoint.Some? ==> s.connected && s.flushTimers == 1)
  {
    RunKeeps(outputs, steps, |steps|);
  }

  /** In every run the marked messages are in the order they were received, none twice; a mark is of the latest message, after it was handed on. */
  lemma MarksInOrder(outputs: nat, steps: seq<Step>, i: nat, j: nat)
    requires i < j < |RunTo(outputs, steps, |steps|).marks|
    ensures var s := RunTo(outputs, steps, |steps|); s.marks[i] < s.marks[j] < |s.parts|
  {
    RunKeeps(outputs, steps, |steps|);
    assert MarkOk(RunTo(outputs, steps, |steps|), i, j);
  }

  lemma FlushMarksLatest(outputs: nat, steps: seq<Step>)
    requires var s := RunTo(outputs, steps, |steps|); Enabled(s, FlushTimer) && s.checkpoint.Some?
    ensures var s := RunTo(outputs, steps, |steps|);
            && s.checkpoint.value == |s.parts| - 1
            && Apply(s, FlushTimer).marks == s.marks + [|s.parts| - 1]
            && |s.outs| == |s.fates| && forall c | 0 <= c < |s.outs| :: |s.fates[c]| == |s.log|
  {
    RunKeeps(outputs, steps, |steps|);
    var s := RunTo(outputs, steps, |steps|);
    forall c | 0 <= c < |s.outs| ensures |s.fates[c]| == |s.log| {
      assert OutOk(s, c);
    }
  }

  /** A message counts as consumed once it, or a later one of its partition, is marked. */
  ghost predicate Covered(s: State, m: nat) {
    exists i :: 0 <= i < |s.marks| && m <= s.marks[i] < |s.parts| && s.parts[s.marks[i]] == s.parts[m]
  }

  /** A flush marks one message, so of those received since the last flush it covers exactly the ones of that message's partition. */
  lemma FlushCoversOnePartition(s: State, m: nat)
    requires Inv(s) && Enabled(s, FlushTimer) && s.checkpoint.Some? && m < |s.parts|
    ensures Covered(Apply(s, FlushTimer), m) <==> Covered(s, m) || s.parts[m] == s.parts[s.checkpoint.value]
  {
    var t := Apply(s, FlushTimer);
    if s.parts[m] == s.parts[s.checkpoint.value] {
      assert t.marks[|s.marks|] == s.checkpoint.value;
    }
    if Covered(s, m) {
      var i :| 0 <= i < |s.marks| && m <= s.marks[i] < |s.parts| && s.parts[s.marks[i]] == s.parts[m];
      assert t.marks[i] == s.marks[i];
    }
  }

  /** Step `i` is a flush whose checkpoint is message `m` or a later one of the same partition. */
  ghost predicate Flushes(outputs: nat, steps: seq<Step>, i: nat, m: nat)
    requires i < |steps|
  {
    var s := RunTo(outputs, steps, i);
    && steps[i].FlushTimer? && Enabled(s, FlushTimer)
    && s.checkpoint.Some? && m <= s.checkpoint.value < |s.parts| && s.parts[s.checkpoint.value] == s.parts[m]
  }

  /** Steps other than a flush with a checkpoint cover nothing. */
  lemma OthersCoverNothing(s: State, step: Step, m: nat)
    requires Inv(s) && Enabled(s, step) && !(step.FlushTimer? && s.checkpoint.Some?) && m < |Apply(s, step).parts|
    ensures Covered(Apply(s, step), m) <==> m < |s.parts| && Covered(s, m)
  {
    var t := Apply(s, step);
    assert s.parts <= t.parts && t.marks == s.marks;
    forall i | 0 <= i < |s.marks| ensures s.marks[i] < |s.parts| {
      assert MarkOk(s, i, i);
    }
    if Covered(t, m) {
      var i :| 0 <= i < |t.marks| && m <= t.marks[i] < |t.parts| && t.parts[t.marks[i]] == t.parts[m];
      assert s.marks[i] < |s.parts| && s.parts[s.marks[i]] == s.parts[m];
    }
    if m < |s.parts| && Covered(s, m) {
      var i :| 0 <= i < |s.marks| && m <= s.marks[i] < |s.parts| && s.parts[s.marks[i]] == s.parts[m];
      assert t.parts[t.marks[i]] == t.parts[m];
    }
  }

  lemma StepParts(s: State, step: Step)
    requires Enabled(s, step)
    ensures |s.parts| <= |Apply(s, step).parts|
  {
  }

  lemma {:induction false} PartsGrow(outputs: nat, steps: seq<Step>, k: nat, n: nat)
    requires k <= n <= |steps|
    ensures |RunTo(outputs, steps, k).parts| <= |RunTo(outputs, steps, n).parts|
    decreases n
  {
    if k < n {
      PartsGrow(outputs, steps, k, n - 1);
      var s := RunTo(outputs, steps, n - 1);
      if Enabled(s, steps[n - 1]) {
        StepParts(s, steps[n - 1]);
      }
    }
  }

  ghost predicate NoFlush(outputs: nat, steps: seq<Step>, n: nat, m: nat)
    requires n <= |steps|
  {
    forall i | 0 <= i < n :: !Flushes(outputs, steps, i, m)
  }

  /** In every run a message is covered if and only if some flush so far had a checkpoint at or after it in its own partition. */
  lemma {:induction false} CoveredExactly(outputs: nat, steps: seq<Step>, n: nat, m: nat)
    requires n <= |steps| && m < |RunTo(outputs, steps, n).parts|
    ensures Covered(RunTo(outputs, steps, n), m) <==> !NoFlush(outputs, steps, n, m)
  {
    var k := n - 1;
    RunKeeps(outputs, steps, k);
    var s := RunTo(outputs, steps, k);
    if m < |s.parts| {
      CoveredExactly(outputs, steps, k, m);
    } else {
      forall i | 0 <= i < n ensures !Flushes(outputs, steps, i, m) {
        PartsGrow(outputs, steps, i, k);
      }
    }
    assert NoFlush(outputs, steps, n, m) <==> NoFlush(outputs, steps, k, m) && !Flushes(outputs, steps, k, m);
    if Enabled(s, steps[k]) {
      if steps[k].FlushTimer? && s.checkpoint.Some? {
        FlushCoversOnePartition(s, m);
      } else {
        OthersCoverNothing(s, steps[k], m);
      }
    }
  }

  /** Two messages of different partitions and a flush: the first is not covered, and nothing is scheduled that would cover it. */
  lemma OtherPartitionUncovered()
    ensures var s := RunTo(1, [Connect(true), Message(0, []), Message(1, []), FlushTimer], 4);
            |s.parts| == 2 && Covered(s, 1) && !Covered(s, 0) && s.checkpoint.None? && s.flushTimers == 0
  {
    var steps := [Connect(true), Message(0, []), Message(1, []), FlushTimer];
    var a, b, c, d := RunTo(1, steps, 0), RunTo(1, steps, 1), RunTo(1, steps, 2), RunTo(1, steps, 3);
    assert a.pc.Connecting? && a.parts == [] && a.marks == [] && !a.flushScheduled && a.flushTimers == 0;
    assert b.pc.Selecting? && b.connected && b.parts == [] && b.marks == [] && !b.flushScheduled && b.flushTimers == 0;
    assert c.pc.Selecting? && c.connected && c.parts == [] + [0] && c.marks == [] && c.flushScheduled && c.flushTimers == 1;
    assert d.pc.Selecting? && d.connected && d.parts == [] + [0] + [1] && d.marks == [] && d.flushTimers == 1 && d.checkpoint == Some(1);
    var s := RunTo(1, steps, 4);
    assert s.marks == [] + [1] && s.parts == [0, 1];
    assert s.marks[0] == 1;
  }

  /** In every run each output is handed messages in order, once each, and the turns it misses are exactly the control messages taken during a fan-out. */
  lemma OutputsInOrder(outputs: nat, steps: seq<Step>, c: nat)
    requires c < outputs
    ensures var s := RunTo(outputs, steps, |steps|);
            && |s.outs| == |s.fates| == outputs && |s.fates[c]| <= |s.log|
            && s.outs[c] == Select(s.log, s.fates[c], |s.fates[c]|)
            && s.reports == TotalSkips(s.fates, outputs)
  {
    RunKeeps(outputs, steps, |steps|);
    assert OutOk(RunTo(outputs, steps, |steps|), c);
  }

  /** Step `i` is a control message taken in place of sending message `m` to output `c`. */
  ghost predicate Misses(outputs: nat, steps: seq<Step>, i: nat, m: nat, c: nat)
    requires i < |steps|
  {
    var s := RunTo(outputs, steps, i);
    steps[i].Report? && Enabled(s, Report) && s.pc == FanOut(m, c)
  }

  ghost predicate NoMiss(outputs: nat, steps: seq<Step>, n: nat, m: nat, c: nat)
    requires n <= |steps|
  {
    forall i | 0 <= i < n :: !Misses(outputs, steps, i, m, c)
  }

  /** One step: turns taken stay as they are, and the turn taken now is missed exactly when a control message takes it. */
  lemma StepFates(s: State, step: Step, m: nat, c: nat)
    requires Inv(s) && Enabled(s, step) && c < |s.fates|
    ensures var t := Apply(s, step);
            && |t.fates| == |s.fates| && |s.fates[c]| <= |t.fates[c]| <= |s.fates[c]| + 1
            && (m < |s.fates[c]| ==> t.fates[c][m] == s.fates[c][m] && s.pc != FanOut(m, c))
            && (|s.fates[c]| <= m < |t.fates[c]| ==> s.pc == FanOut(m, c) && (t.fates[c][m] <==> !step.Report?))
  {
    assert OutOk(s, c);
  }

  /** How many turns output `c` has had. */
  function Had(s: State, c: nat): nat {
    if c < |s.fates| then |s.fates[c]| else 0
  }

  lemma NextTurn(outputs: nat, steps: seq<Step>, n: nat, m: nat, c: nat)
    requires n < |steps| && c < outputs
    ensures Had(RunTo(outputs, steps, n), c) <= Had(RunTo(outputs, steps, n + 1), c)
    ensures Misses(outputs, steps, n, m, c) ==> m < Had(RunTo(outputs, steps, n + 1), c)
  {
    RunKeeps(outputs, steps, n);
    var s := RunTo(outputs, steps, n);
    assert OutOk(s, c);
    if Enabled(s, steps[n]) {
      StepFates(s, steps[n], m, c);
    }
  }

  function HadAt(outputs: nat, steps: seq<Step>, c: nat): nat -> nat {
    (i: nat) => if i <= |steps| then Had(RunTo(outputs, steps, i), c) else 0
  }

  ghost function MissAt(outputs: nat, steps: seq<Step>, m: nat, c: nat): nat -> bool {
    (i: nat) => i < |steps| && Misses(outputs, steps, i, m, c)
  }

  lemma NextTurnAt(outputs: nat, steps: seq<Step>, i: nat, m: nat, c: nat)
    requires i < |steps| && c < outputs
    ensures var f := HadAt(outputs, steps, c); f(i) <= f(i + 1) && (MissAt(outputs, steps, m, c)(i) ==> m < f(i + 1))
  {
    NextTurn(outputs, steps, i, m, c);
  }

  lemma NoMissAt(outputs: nat, steps: seq<Step>, n: nat, m: nat, c: nat)
    requires n <= |steps| && forall i | 0 <= i < n :: !MissAt(outputs, steps, m, c)(i)
    ensures NoMiss(outputs, steps, n, m, c)
  {
    forall i | 0 <= i < n ensures !Misses(outputs, steps, i, m, c) {
      assert !MissAt(outputs, steps, m, c)(i);
    }
  }

  /** A turn still to come was not missed before. */
  lemma NotMissedBefore(outputs: nat, steps: seq<Step>, n: nat, m: nat, c: nat)
    requires n <= |steps| && c < outputs && HadAt(outputs, steps, c)(n) <= m
    ensures NoMiss(outputs, steps, n, m, c)
  {
    var f, event := HadAt(outputs, steps, c), MissAt(outputs, steps, m, c);
    forall i | 0 <= i < n ensures f(i) <= f(i + 1) && (event(i) ==> m < f(i + 1)) {
      NextTurnAt(outputs, steps, i, m, c);
    }
    NotYet(f, event, n, m);
    NoMissAt(outputs, steps, n, m, c);
  }

  /** In every run an output misses a message if and only if a control message was taken in place of handing it that message. */
  lemma {:induction false} MissedExactly(outputs: nat, steps: seq<Step>, n: nat, m: nat, c: nat)
    requires n <= |steps| && c < outputs
    requires |RunTo(outputs, steps, n).fates| == outputs && m < |RunTo(outputs, steps, n).fates[c]|
    ensures RunTo(outputs, steps, n).fates[c][m] <==> NoMiss(outputs, steps, n, m, c)
  {
    var k := n - 1;
    RunKeeps(outputs, steps, k);
    var s := RunTo(outputs, steps, k);
    if Enabled(s, steps[k]) {
      StepFates(s, steps[k], m, c);
    }
    assert NoMiss(outputs, steps, n, m, c) <==> NoMiss(outputs, steps, k, m, c) && !Misses(outputs, steps, k, m, c);
    if m < |s.fates[c]| {
      MissedExactly(outputs, steps, k, m, c);
    } else {
      NotMissedBefore(outputs, steps, k, m, c);
    }
  }

  lemma {:induction false} SelectAll(log: seq<Data>, fate: seq<bool>, n: nat)
    requires n <= |fate| && n <= |log|
    ensures |Select(log, fate, n)| <= n
    ensures Select(log, fate, n) == log[..n] <==> forall i | 0 <= i < n :: fate[i]
  {
    if n > 0 {
      SelectAll(log, fate, n - 1);
      assert log[..n] == log[..n - 1] + [log[n - 1]];
      if Select(log, fate, n) == log[..n] {
        assert |Select(log, fate, n)| == n;
        assert Select(log, fate, n - 1) == Select(log, fate, n)[..n - 1] == log[..n - 1];
      }
    }
  }

  /**
   Between fan-outs, an output has been handed every message if and only if no control
   message was ever taken in place of a send to it.
   */
  lemma HandedAllExactly(outputs: nat, steps: seq<Step>, c: nat)
    requires c < outputs && var s := RunTo(outputs, steps, |steps|); s.pc.Selecting? || s.pc.Connecting?
    ensures var s := RunTo(outputs, steps, |steps|);
            |s.outs| == outputs && (s.outs[c] == s.log <==> forall m | 0 <= m < |s.log| :: NoMiss(outputs, steps, |steps|, m, c))
  {
    RunKeeps(outputs, steps, |steps|);
    var s := RunTo(outputs, steps, |steps|);
    assert OutOk(s, c);
    SelectAll(s.log, s.fates[c], |s.log|);
    assert s.log[..|s.log|] == s.log;
    forall m | 0 <= m < |s.log| ensures s.fates[c][m] <==> NoMiss(outputs, steps, |steps|, m, c) {
      MissedExactly(outputs, steps, |steps|, m, c);
    }
  }

  /** A report requested while the only message is being handed to the only output: the output never gets it. */
  lemma ReportMissesOne(d: Data)
    ensures var s := RunTo(1, [Connect(true), Message(0, [d]), Report], 3);
            s.log == [d] && s.outs == [[]] && s.pc.Selecting?
  {
    var steps := [Connect(true), Message(0, [d]), Report];
    var a, b, c := RunTo(1, steps, 0), RunTo(1, steps, 1), RunTo(1, steps, 2);
    assert a.pc.Connecting? && a.log == [] && a.outs == [[]] && a.fates == [[]];
    assert b.pc.Selecting? && b.connected && b.log == [] && b.outs == [[]] && b.fates == [[]];
    assert c.pc == FanOut(0, 0) && c.log == [] + [d] == [d] && c.outs == [[]] && c.fates == [[]];
  }

  // ---------------------------------------------------------------------------
  // What is received, connected and to be marked

  /** Step `i` is a message taken from the consumer. */
  ghost function TakesMessage(outputs: nat, steps: seq<Step>): nat -> bool {
    (i: nat) => i < |steps| && steps[i].Message? && Enabled(RunTo(outputs, steps, i), steps[i])
  }

  /** Step `i` is a flush or a reconnect, after which nothing is to be marked. */
  ghost function Forgets(outputs: nat, steps: seq<Step>): nat -> bool {
    (i: nat) => i < |steps| && (steps[i].FlushTimer? || steps[i].ReconnectTimer?) && Enabled(RunTo(outputs, steps, i), steps[i])
  }

  ghost function Connects(outputs: nat, steps: seq<Step>): nat -> bool {
    (i: nat) => i < |steps| && steps[i] == Connect(true) && Enabled(RunTo(outputs, steps, i), steps[i])
  }

  ghost function Reconnects(outputs: nat, steps: seq<Step>): nat -> bool {
    (i: nat) => i < |steps| && steps[i].ReconnectTimer? && Enabled(RunTo(outputs, steps, i), steps[i])
  }

  lemma StepFlags(s: State, step: Step)
    requires Inv(s) && Enabled(s, step)
    ensures var t := Apply(s, step);
            && (t.checkpoint.Some? <==> step.Message? || (s.checkpoint.Some? && !step.FlushTimer? && !step.ReconnectTimer?))
            && (t.connected <==> step == Connect(true) || (s.connected && !step.ReconnectTimer?))
  {
  }

  lemma NextFlags(outputs: nat, steps: seq<Step>, m: nat)
    requires m < |steps|
    ensures var s, t := RunTo(outputs, steps, m), RunTo(outputs, steps, m + 1);
            && (t.checkpoint.Some? <==> TakesMessage(outputs, steps)(m) || (s.checkpoint.Some? && !Forgets(outputs, steps)(m)))
            && (t.connected <==> Connects(outputs, steps)(m) || (s.connected && !Reconnects(outputs, steps)(m)))
  {
    RunKeeps(outputs, steps, m);
    var s := RunTo(outputs, steps, m);
    if Enabled(s, steps[m]) {
      StepFlags(s, steps[m]);
    }
  }

  function ToMark(outputs: nat, steps: seq<Step>): nat -> bool {
    (i: nat) => i <= |steps| && RunTo(outputs, steps, i).checkpoint.Some?
  }

  function HasConsumer(outputs: nat, steps: seq<Step>): nat -> bool {
    (i: nat) => i <= |steps| && RunTo(outputs, steps, i).connected
  }

  /** In every run there is a message to be marked if and only if one was taken since the last flush or reconnect; it is the latest one. */
  lemma CheckpointExactly(outputs: nat, steps: seq<Step>, n: nat)
    requires n <= |steps|
    ensures var s := RunTo(outputs, steps, n);
            && (s.checkpoint.Some? <==> SetSince(TakesMessage(outputs, steps), Forgets(outputs, steps), n))
            && (s.checkpoint.Some? ==> s.checkpoint.value + 1 == |s.parts|)
  {
    MarkedSince(outputs, steps, n);
    assert ToMark(outputs, steps)(n) == RunTo(outputs, steps, n).checkpoint.Some?;
    Latest(outputs, steps, n);
  }

  lemma Latest(outputs: nat, steps: seq<Step>, n: nat)
    requires n <= |steps|
    ensures var s := RunTo(outputs, steps, n); s.checkpoint.Some? ==> s.checkpoint.value + 1 == |s.parts|
  {
    RunKeeps(outputs, steps, n);
  }

  lemma MarkAt(outputs: nat, steps: seq<Step>, m: nat)
    requires m < |steps|
    ensures var flag := ToMark(outputs, steps);
            flag(m + 1) <==> TakesMessage(outputs, steps)(m) || (flag(m) && !Forgets(outputs, steps)(m))
  {
    NextFlags(outputs, steps, m);
  }

  lemma NoneAtFirst(outputs: nat, steps: seq<Step>)
    ensures !ToMark(outputs, steps)(0) && !HasConsumer(outputs, steps)(0)
  {
  }

  lemma MarkedSince(outputs: nat, steps: seq<Step>, n: nat)
    requires n <= |steps|
    ensures ToMark(outputs, steps)(n) <==> SetSince(TakesMessage(outputs, steps), Forgets(outputs, steps), n)
  {
    var flag, sets, resets := ToMark(outputs, steps), TakesMessage(outputs, steps), Forgets(outputs, steps);
    NoneAtFirst(outputs, steps);
    forall m | 0 <= m < n ensures flag(m + 1) <==> sets(m) || (flag(m) && !resets(m)) {
      MarkAt(outputs, steps, m);
    }
    FlagSetSince(flag, sets, resets, n);
  }

  /** In every run there is a consumer if and only if one was connected since the last reconnect. */
  lemma ConnectedExactly(outputs: nat, steps: seq<Step>, n: nat)
    requires n <= |steps|
    ensures RunTo(outputs, steps, n).connected <==> SetSince(Connects(outputs, steps), Reconnects(outputs, steps), n)
  {
    ConsumerSince(outputs, steps, n);
    assert HasConsumer(outputs, steps)(n) == RunTo(outputs, steps, n).connected;
  }

  lemma ConsumerAt(outputs: nat, steps: seq<Step>, m: nat)
    requires m < |steps|
    ensures var flag := HasConsumer(outputs, steps);
            flag(m + 1) <==> Connects(outputs, steps)(m) || (flag(m) && !Reconnects(outputs, steps)(m))
  {
    NextFlags(outputs, steps, m);
  }

  lemma ConsumerSince(outputs: nat, steps: seq<Step>, n: nat)
    requires n <= |steps|
    ensures HasConsumer(outputs, steps)(n) <==> SetSince(Connects(outputs, steps), Reconnects(outputs, steps), n)
  {
    var flag, sets, resets := HasConsumer(outputs, steps), Connects(outputs, steps), Reconnects(outputs, steps);
    NoneAtFirst(outputs, steps);
    forall m | 0 <= m < n ensures flag(m + 1) <==> sets(m) || (flag(m) && !resets(m)) {
      ConsumerAt(outputs, steps, m);
    }
    FlagSetSince(flag, sets, resets, n);
  }

  /** What the messages taken in the first `n` steps decode to, and their partitions. */
  ghost function Received(takes: nat -> bool, steps: seq<Step>, n: nat): seq<Data>
    requires n <= |steps|
  {
    if n == 0 then []
    else Received(takes, steps, n - 1) + if takes(n - 1) && steps[n - 1].Message? then steps[n - 1].dMs else []
  }

  ghost function Partitions(takes: nat -> bool, steps: seq<Step>, n: nat): seq<nat>
    requires n <= |steps|
  {
    if n == 0 then []
    else Partitions(takes, steps, n - 1) + if takes(n - 1) && steps[n - 1].Message? then [steps[n - 1].partition] else []
  }

  lemma NextLog(outputs: nat, steps: seq<Step>, m: nat)
    requires m < |steps|
    ensures var s, t := RunTo(outputs, steps, m), RunTo(outputs, steps, m + 1);
            && t.log == s.log + (if TakesMessage(outputs, steps)(m) && steps[m].Message? then steps[m].dMs else [])
            && t.parts == s.parts + (if TakesMessage(outputs, steps)(m) && steps[m].Message? then [steps[m].partition] else [])
  {
  }

  /** In every run what is handed on is what the messages decode to, in the order they came in. */
  lemma {:induction false} LogIsReceived(outputs: nat, steps: seq<Step>, n: nat)
    requires n <= |steps|
    ensures var s, takes := RunTo(outputs, steps, n), TakesMessage(outputs, steps);
            s.log == Received(takes, steps, n) && s.parts == Partitions(takes, steps, n)
  {
    if n > 0 {
      LogIsReceived(outputs, steps, n - 1);
      NextLog(outputs, steps, n - 1);
    }
  }

  function HandedAt(fate: seq<bool>): nat -> bool {
    (i: nat) => i < |fate| && fate[i]
  }

  function LogAt(log: seq<Data>): nat -> Data {
    (i: nat) => if i < |log| then log[i] else []
  }

  /** What an output was handed is the messages it did not miss, in order. */
  lemma {:induction false} SelectPicks(log: seq<Data>, fate: seq<bool>, n: nat)
    requires n <= |fate| && n <= |log|
    ensures Picks(LogAt(log), HandedAt(fate), n, Select(log, fate, n))
  {
    if n == 0 {
      PicksNone(LogAt(log), HandedAt(fate));
    } else {
      SelectPicks(log, fate, n - 1);
      PicksNext(LogAt(log), HandedAt(fate), n - 1, Select(log, fate, n - 1));
      assert HandedAt(fate)(n - 1) == fate[n - 1] && LogAt(log)(n - 1) == log[n - 1];
    }
  }
}
