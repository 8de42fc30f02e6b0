/**
 The gRPC output that broadcasts to every connected client (xport_grpc_out.go): one
 feeder, one handler for each client, a mutex around the table of clients, a buffered
 channel and a wait group.  Everything that can interleave is a step of its own.
 */
module GrpcOut {
  import opened Common

  type Data = seq<byte>

  /** Where a client's handler (Pull) is. */
  datatype Pc = Starting | InAdd | Serving | Leaving | InRemove | Removed | Gone

  /**
   A handler with its channel.  `got` is what it has received; `from` is how many
   broadcasts began before it was registered and `until` how many before it was taken
   out; `fate` says of each one in between whether it was enqueued for this client or
   dropped.
   */
  datatype Handler = Handler(pc: Pc, id: nat, queue: seq<Data>, closed: bool, got: seq<Data>, from: nat, fate: seq<bool>, until: nat)

  datatype Feeder =
    | Idle
    | Feeding(data: Data, todo: set<nat>)
    | Sending(data: Data, id: nat, todo: set<nat>)
    | RemovingAll(todo: set<nat>)

  datatype Holder = Nobody | TheFeeder | TheHandler(h: nat)

  datatype State = State(
    holder: Holder, index: nat, children: map<nat, nat>, wg: int,
    handlers: seq<Handler>, feeder: Feeder, log: seq<Data>, panicked: bool)

  datatype Step =
    | Connect
    | Lock(h: nat) | Add(h: nat) | Receive(h: nat, sent: bool) | SeeClosed(h: nat) | Cancel(h: nat)
    | Remove(h: nat) | Done(h: nat)
    | FeedLock(data: Data) | Visit(id: nat) | Send | FeedUnlock
    | RemoveAllLock | RemoveOne(id: nat) | RemoveAllUnlock

  const NEW := Handler(Starting, 0, [], false, [], 0, [], 0)

  predicate Enabled(depth: nat, s: State, step: Step) {
    match step
    case Connect => true
    case Lock(h) => h < |s.handlers| && s.holder.Nobody? && s.handlers[h].pc in {Starting, Leaving}
    case Add(h) => h < |s.handlers| && s.handlers[h].pc.InAdd?
    case Receive(h, _) => h < |s.handlers| && s.handlers[h].pc.Serving? && s.handlers[h].queue != []
    case SeeClosed(h) => h < |s.handlers| && s.handlers[h].pc.Serving? && s.handlers[h].queue == [] && s.handlers[h].closed
    case Cancel(h) => h < |s.handlers| && s.handlers[h].pc.Serving?
    case Remove(h) => h < |s.handlers| && s.handlers[h].pc.InRemove?
    case Done(h) => h < |s.handlers| && s.handlers[h].pc.Removed?
    case FeedLock(_) => s.holder.Nobody? && s.feeder.Idle?
    case Visit(id) => s.feeder.Feeding? && id in s.feeder.todo && InTable(s, id)
    case Send => s.feeder.Sending? && InTable(s, s.feeder.id) && |s.handlers[s.children[s.feeder.id]].queue| < depth
    case FeedUnlock => s.feeder.Feeding? && s.feeder.todo == {}
    case RemoveAllLock => s.holder.Nobody? && s.feeder.Idle?
    case RemoveOne(id) => s.feeder.RemovingAll? && id in s.feeder.todo && InTable(s, id)
    case RemoveAllUnlock => s.feeder.RemovingAll? && s.feeder.todo == {}
  }

  predicate InTable(s: State, id: nat) {
    id in s.children && s.children[id] < |s.handlers|
  }

  function Put(s: State, h: nat, x: Handler): State
    requires h < |s.handlers|
  {
    s.(handlers := s.handlers[h := x])
  }

  /** removeChildUnprotected: closing a channel twice panics. */
  function RemoveUnprotected(s: State, id: nat): State {
    if !InTable(s, id) then s
    else
      var h := s.children[id];
      var x := s.handlers[h];
      Put(s, h, x.(closed := true, until := |s.log|)).(children := s.children - {id}, panicked := s.panicked || x.closed)
  }

  function Apply(depth: nat, s: State, step: Step): State
    requires Enabled(depth, s, step)
  {
    match step
    case Connect => s.(handlers := s.handlers + [NEW])
    case Lock(h) =>
      var x := s.handlers[h];
      Put(s, h, x.(pc := if x.pc.Starting? then InAdd else InRemove)).(holder := TheHandler(h))
    case Add(h) =>
      var id := s.index + 1;
      Put(s, h, s.handlers[h].(pc := Serving, id := id, from := |s.log|))
      .(holder := Nobody, index := id, children := s.children[id := h], wg := s.wg + 1)
    case Receive(h, sent) =>
      var x := s.handlers[h];
      Put(s, h, x.(queue := x.queue[1..], got := x.got + [x.queue[0]], pc := if sent then Serving else Leaving))
    case SeeClosed(h) => Put(s, h, s.handlers[h].(pc := Leaving))
    case Cancel(h) => Put(s, h, s.handlers[h].(pc := Leaving))
    case Remove(h) =>
      var r := RemoveUnprotected(s, s.handlers[h].id);
      Put(r, h, r.handlers[h].(pc := Removed)).(holder := Nobody)
    case Done(h) => Put(s, h, s.handlers[h].(pc := Gone)).(wg := s.wg - 1, panicked := s.panicked || s.wg <= 0)
    case FeedLock(data) => s.(holder := TheFeeder, feeder := Feeding(data, s.children.Keys), log := s.log + [data])
    case Visit(id) =>
      var x := s.handlers[s.children[id]];
      if |x.queue| == depth
      then Put(s, s.children[id], x.(fate := x.fate + [false])).(feeder := Feeding(s.feeder.data, s.feeder.todo - {id}))
      else s.(feeder := Sending(s.feeder.data, id, s.feeder.todo - {id}))
    case Send =>
      var h := s.children[s.feeder.id];
      var x := s.handlers[h];
      Put(s, h, x.(queue := x.queue + [s.feeder.data], fate := x.fate + [true]))
      .(feeder := Feeding(s.feeder.data, s.feeder.todo), panicked := s.panicked || x.closed)
    case FeedUnlock => s.(holder := Nobody, feeder := Idle)
    case RemoveAllLock => s.(holder := TheFeeder, feeder := RemovingAll(s.children.Keys))
    case RemoveOne(id) => RemoveUnprotected(s, id).(feeder := RemovingAll(s.feeder.todo - {id}))
    case RemoveAllUnlock => s.(holder := Nobody, feeder := Idle)
  }

  const INITIAL := State(Nobody, 0, map[], 0, [], Idle, [], false)

  // ---------------------------------------------------------------------------
  // The invariant

  /** The broadcasts that were enqueued, of the `n` since `from`. */
  function Chosen(log: seq<Data>, from: nat, fate: seq<bool>, n: nat): seq<Data>
    requires n <= |fate| && from + n <= |log|
  {
    if n == 0 then []
    else if fate[n - 1] then Chosen(log, from, fate, n - 1) + [log[from + n - 1]]
    else Chosen(log, from, fate, n - 1)
  }

  predicate Registered(pc: Pc) {
    pc in {Serving, Leaving, InRemove}
  }

  predicate Live(pc: Pc) {
    pc in {Serving, Leaving, InRemove, Removed}
  }

  /** The broadcast under way has not come to this client yet. */
  predicate Pending(f: Feeder, id: nat) {
    match f
    case Feeding(_, todo) => id in todo
    case Sending(_, now, todo) => id == now || id in todo
    case _ => false
  }

  /** The client's channel is open exactly as long as it is in the table. */
  predicate TableOk(h: nat, x: Handler, index: nat, children: map<nat, nat>) {
    if x.pc in {Starting, InAdd} then x.id == 0 && !x.closed && x.fate == []
    else
      && 0 < x.id <= index
      && (x.closed <==> x.id !in children)
      && (x.id in children ==> Registered(x.pc) && children[x.id] == h)
  }

  /** Every broadcast since the client was registered was enqueued or dropped for it, and what was enqueued arrives in order. */
  predicate QueueOk(depth: nat, x: Handler, log: seq<Data>) {
    && |x.queue| <= depth
    && x.from + |x.fate| <= |log|
    && x.got + x.queue == Chosen(log, x.from, x.fate, |x.fate|)
  }

  /** A client has a fate for every broadcast so far, or for every one until it was taken out. */
  predicate CountOk(x: Handler, children: map<nat, nat>, feeder: Feeder, n: nat) {
    if x.id in children then x.from + |x.fate| + (if Pending(feeder, x.id) then 1 else 0) == n
    else x.closed ==> x.from + |x.fate| == x.until <= n
  }

  /** Only the holder of the mutex is in a section it protects. */
  predicate HeldOk(x: Handler, h: nat, holder: Holder) {
    x.pc in {InAdd, InRemove} <==> holder == TheHandler(h)
  }

  predicate FeederOk(depth: nat, s: State) {
    match s.feeder
    case Idle => true
    case Feeding(data, todo) => todo <= s.children.Keys && |s.log| > 0 && s.log[|s.log| - 1] == data
    case Sending(data, id, todo) =>
      && todo <= s.children.Keys && id !in todo && InTable(s, id) && |s.handlers[s.children[id]].queue| < depth
      && |s.log| > 0 && s.log[|s.log| - 1] == data
    case RemovingAll(todo) => todo == s.children.Keys
  }

  function LiveCount(handlers: seq<Handler>, n: nat): nat
    requires n <= |handlers|
  {
    if n == 0 then 0 else LiveCount(handlers, n - 1) + if Live(handlers[n - 1].pc) then 1 else 0
  }

  /** An entry of the table leads to the handler that has its number. */
  predicate EntryOk(s: State, id: nat) {
    id in s.children ==> InTable(s, id) && s.handlers[s.children[id]].id == id && 0 < id <= s.index
  }

  /** No two handlers have the same number. */
  predicate Distinct(s: State, h: nat, k: nat) {
    h < |s.handlers| && k < |s.handlers| && h != k && s.handlers[h].id > 0 ==> s.handlers[h].id != s.handlers[k].id
  }

  predicate HandlerOk(depth: nat, s: State, h: nat) {
    h < |s.handlers| ==>
      var x := s.handlers[h];
      && TableOk(h, x, s.index, s.children) && QueueOk(depth, x, s.log)
      && CountOk(x, s.children, s.feeder, |s.log|) && HeldOk(x, h, s.holder)
  }

  ghost predicate Inv(depth: nat, s: State) {
    && !s.panicked
    && (s.holder.TheFeeder? <==> !s.feeder.Idle?) && (s.holder.TheHandler? ==> s.holder.h < |s.handlers|)
    && FeederOk(depth, s)
    && (forall id :: EntryOk(s, id)) && (forall h, k :: Distinct(s, h, k)) && (forall h :: HandlerOk(depth, s, h))
    && s.wg == LiveCount(s.handlers, |s.handlers|)
  }

  // ---------------------------------------------------------------------------
  // Every step keeps it

  lemma {:induction false} LivePut(handlers: seq<Handler>, h: nat, x: Handler, n: nat)
    requires h < |handlers| && n <= |handlers|
    ensures LiveCount(handlers[h := x], n) ==
            LiveCount(handlers, n) + (if h < n && Live(x.pc) then 1 else 0) - (if h < n && Live(handlers[h].pc) then 1 else 0)
  {
    if n > 0 {
      LivePut(handlers, h, x, n - 1);
    }
  }

  lemma {:induction false} LivePrefix(handlers: seq<Handler>, x: Handler, n: nat)
    requires n <= |handlers|
    ensures LiveCount(handlers + [x], n) == LiveCount(handlers, n)
  {
    if n > 0 {
      LivePrefix(handlers, x, n - 1);
    }
  }

  lemma {:induction false} LiveHas(handlers: seq<Handler>, h: nat, n: nat)
    requires h < n <= |handlers| && Live(handlers[h].pc)
    ensures LiveCount(handlers, n) > 0
  {
    if h < n - 1 {
      LiveHas(handlers, h, n - 1);
    }
  }

  lemma {:induction false} ChosenPrefix(log: seq<Data>, d: Data, from: nat, fate: seq<bool>, n: nat)
    requires n <= |fate| && from + n <= |log|
    ensures Chosen(log + [d], from, fate, n) == Chosen(log, from, fate, n)
  {
    if n > 0 {
      ChosenPrefix(log, d, from, fate, n - 1);
    }
  }

  lemma {:induction false} ChosenSnoc(log: seq<Data>, from: nat, fate: seq<bool>, b: bool, n: nat)
    requires n <= |fate| && from + n <= |log|
    ensures Chosen(log, from, fate + [b], n) == Chosen(log, from, fate, n)
  {
    if n > 0 {
      ChosenSnoc(log, from, fate, b, n - 1);
    }
  }

  /** A step that changes one handler, and not its number, keeps the numbers distinct and the table right. */
  lemma SameIds(s: State, t: State, h: nat)
    requires h < |s.handlers| == |t.handlers| && t.handlers == s.handlers[h := t.handlers[h]]
    requires t.handlers[h].id == s.handlers[h].id && t.children == s.children && t.index == s.index
    requires (forall id :: EntryOk(s, id)) && (forall j, k :: Distinct(s, j, k))
    ensures (forall id :: EntryOk(t, id)) && (forall j, k :: Distinct(t, j, k))
  {
    forall id ensures EntryOk(t, id) {
      assert EntryOk(s, id);
    }
    forall j, k ensures Distinct(t, j, k) {
      assert Distinct(s, j, k);
    }
  }

  lemma ConnectKeeps(depth: nat, s: State)
    requires Inv(depth, s)
    ensures Inv(depth, Apply(depth, s, Connect))
  {
    var t := Apply(depth, s, Connect);
    LivePrefix(s.handlers, NEW, |s.handlers|);
    assert EntryOk(s, 0);
    forall id ensures EntryOk(t, id) {
      assert EntryOk(s, id);
    }
    forall h: nat, k: nat ensures Distinct(t, h, k) {
      assert Distinct(s, h, k);
      if h < |s.handlers| {
        assert HandlerOk(depth, s, h);
      }
    }
    forall h: nat ensures HandlerOk(depth, t, h) {
      assert HandlerOk(depth, s, h);
    }
  }

  /** A step of one handler that leaves the table, the feeder and the log alone. */
  lemma LocalKeeps(depth: nat, s: State, t: State, h: nat)
    requires Inv(depth, s) && h < |s.handlers| && |t.handlers| == |s.handlers| && t.handlers == s.handlers[h := t.handlers[h]]
    requires t.children == s.children && t.index == s.index && t.feeder == s.feeder && t.log == s.log && !t.panicked
    requires t.handlers[h].id == s.handlers[h].id && |t.handlers[h].queue| <= |s.handlers[h].queue|
    requires HandlerOk(depth, t, h)
    requires s.holder == t.holder || (s.holder.Nobody? && t.holder == TheHandler(h)) || (s.holder == TheHandler(h) && t.holder.Nobody?)
    requires t.wg == s.wg + (if Live(t.handlers[h].pc) then 1 else 0) - (if Live(s.handlers[h].pc) then 1 else 0)
    ensures Inv(depth, t)
  {
    LivePut(s.handlers, h, t.handlers[h], |s.handlers|);
    SameIds(s, t, h);
    forall k ensures HandlerOk(depth, t, k) {
      assert HandlerOk(depth, s, k);
    }
  }

  lemma LockKeeps(depth: nat, s: State, h: nat)
    requires Inv(depth, s) && Enabled(depth, s, Lock(h))
    ensures Inv(depth, Apply(depth, s, Lock(h)))
  {
    assert HandlerOk(depth, s, h);
    LocalKeeps(depth, s, Apply(depth, s, Lock(h)), h);
  }

  lemma ReceiveKeeps(depth: nat, s: State, h: nat, sent: bool)
    requires Inv(depth, s) && Enabled(depth, s, Receive(h, sent))
    ensures Inv(depth, Apply(depth, s, Receive(h, sent)))
  {
    assert HandlerOk(depth, s, h);
    var x := s.handlers[h];
    assert x.got + [x.queue[0]] + x.queue[1..] == x.got + x.queue;
    LocalKeeps(depth, s, Apply(depth, s, Receive(h, sent)), h);
  }

  lemma LeaveKeeps(depth: nat, s: State, step: Step)
    requires Inv(depth, s) && Enabled(depth, s, step) && (step.SeeClosed? || step.Cancel?)
    ensures Inv(depth, Apply(depth, s, step))
  {
    assert HandlerOk(depth, s, step.h);
    LocalKeeps(depth, s, Apply(depth, s, step), step.h);
  }

  lemma DoneKeeps(depth: nat, s: State, h: nat)
    requires Inv(depth, s) && Enabled(depth, s, Done(h))
    ensures Inv(depth, Apply(depth, s, Done(h)))
  {
    assert HandlerOk(depth, s, h);
    LiveHas(s.handlers, h, |s.handlers|);
    LocalKeeps(depth, s, Apply(depth, s, Done(h)), h);
  }

  lemma AddKeeps(depth: nat, s: State, h: nat)
    requires Inv(depth, s) && Enabled(depth, s, Add(h))
    ensures Inv(depth, Apply(depth, s, Add(h)))
  {
    var t := Apply(depth, s, Add(h));
    assert HandlerOk(depth, s, h);
    LivePut(s.handlers, h, t.handlers[h], |s.handlers|);
    forall id ensures EntryOk(t, id) {
      assert EntryOk(s, id);
    }
    forall j, k ensures Distinct(t, j, k) {
      assert Distinct(s, j, k) && HandlerOk(depth, s, j) && HandlerOk(depth, s, k);
    }
    forall k ensures HandlerOk(depth, t, k) {
      assert HandlerOk(depth, s, k) && EntryOk(s, t.index);
    }
  }

  /** Taking a client out of the table closes its channel, which was open. */
  lemma RemoveUnprotectedKeeps(depth: nat, s: State, id: nat)
    requires Inv(depth, s) && InTable(s, id) && !s.feeder.Feeding? && !s.feeder.Sending?
    ensures var t := RemoveUnprotected(s, id);
            && !t.panicked && t.wg == LiveCount(t.handlers, |t.handlers|)
            && (forall i :: EntryOk(t, i)) && (forall j, k :: Distinct(t, j, k)) && (forall k :: HandlerOk(depth, t, k))
  {
    var t, h := RemoveUnprotected(s, id), s.children[id];
    assert EntryOk(s, id) && HandlerOk(depth, s, h);
    LivePut(s.handlers, h, t.handlers[h], |s.handlers|);
    forall i ensures EntryOk(t, i) {
      assert EntryOk(s, i);
    }
    forall j, k ensures Distinct(t, j, k) {
      assert Distinct(s, j, k);
    }
    forall k ensures HandlerOk(depth, t, k) {
      assert HandlerOk(depth, s, k) && Distinct(s, h, k);
    }
  }

  lemma RemoveKeeps(depth: nat, s: State, h: nat)
    requires Inv(depth, s) && Enabled(depth, s, Remove(h))
    ensures Inv(depth, Apply(depth, s, Remove(h)))
  {
    var t, id := Apply(depth, s, Remove(h)), s.handlers[h].id;
    assert HandlerOk(depth, s, h) && EntryOk(s, id);
    var r := RemoveUnprotected(s, id);
    if InTable(s, id) {
      RemoveUnprotectedKeeps(depth, s, id);
    }
    assert HandlerOk(depth, r, h) && r.handlers[h].pc.InRemove? && r.holder == s.holder;
    assert Inv(depth, r);
    LocalKeeps(depth, r, t, h);
  }

  lemma RemoveOneKeeps(depth: nat, s: State, id: nat)
    requires Inv(depth, s) && Enabled(depth, s, RemoveOne(id))
    ensures Inv(depth, Apply(depth, s, RemoveOne(id)))
  {
    var t, r := Apply(depth, s, RemoveOne(id)), RemoveUnprotected(s, id);
    RemoveUnprotectedKeeps(depth, s, id);
    SameTable(depth, r, t);
  }

  /** The same handlers and table, seen with another feeder that has nobody pending, or with the mutex released by the feeder. */
  lemma SameTable(depth: nat, r: State, t: State)
    requires t.handlers == r.handlers && t.children == r.children && t.index == r.index && t.log == r.log
    requires r.holder == t.holder || (!r.holder.TheHandler? && !t.holder.TheHandler?)
    requires forall id | id in r.children :: Pending(r.feeder, id) <==> Pending(t.feeder, id)
    requires (forall id :: EntryOk(r, id)) && (forall h, k :: Distinct(r, h, k)) && (forall h :: HandlerOk(depth, r, h))
    ensures (forall id :: EntryOk(t, id)) && (forall h, k :: Distinct(t, h, k)) && (forall h :: HandlerOk(depth, t, h))
  {
    forall id ensures EntryOk(t, id) {
      assert EntryOk(r, id);
    }
    forall h: nat, k: nat ensures Distinct(t, h, k) {
      assert Distinct(r, h, k);
    }
    forall h: nat ensures HandlerOk(depth, t, h) {
      assert HandlerOk(depth, r, h);
    }
  }

  lemma UnlockKeeps(depth: nat, s: State, step: Step)
    requires Inv(depth, s) && Enabled(depth, s, step) && (step.FeedUnlock? || step.RemoveAllUnlock? || step.RemoveAllLock?)
    ensures Inv(depth, Apply(depth, s, step))
  {
    SameTable(depth, s, Apply(depth, s, step));
  }

  /** A new broadcast: every client in the table has one more to come. */
  lemma FeedLockKeeps(depth: nat, s: State, data: Data)
    requires Inv(depth, s) && Enabled(depth, s, FeedLock(data))
    ensures Inv(depth, Apply(depth, s, FeedLock(data)))
  {
    var t := Apply(depth, s, FeedLock(data));
    forall id ensures EntryOk(t, id) {
      assert EntryOk(s, id);
    }
    forall h: nat, k: nat ensures Distinct(t, h, k) {
      assert Distinct(s, h, k);
    }
    forall h: nat ensures HandlerOk(depth, t, h) {
      assert HandlerOk(depth, s, h);
      if h < |s.handlers| {
        var x := s.handlers[h];
        ChosenPrefix(s.log, data, x.from, x.fate, |x.fate|);
      }
    }
  }

  /** The broadcast reaches one client: it is enqueued or dropped there, and every other client is as it was. */
  lemma ReachedKeeps(depth: nat, s: State, t: State, id: nat, enqueued: bool)
    requires Inv(depth, s) && InTable(s, id) && Pending(s.feeder, id) && |s.log| > 0
    requires var h := s.children[id]; var x := s.handlers[h];
                                      && |t.handlers| == |s.handlers| && t == Put(s, h, t.handlers[h]).(feeder := t.feeder)
                                      && t.handlers[h] == x.(fate := x.fate + [enqueued], queue := if enqueued then x.queue + [s.log[|s.log| - 1]] else x.queue)
                                      && |t.handlers[h].queue| <= depth
    requires forall i | i in s.children :: Pending(t.feeder, i) <==> Pending(s.feeder, i) && i != id
    ensures (forall i :: EntryOk(t, i)) && (forall j, k :: Distinct(t, j, k)) && (forall k :: HandlerOk(depth, t, k))
    ensures t.wg == LiveCount(t.handlers, |t.handlers|)
  {
    var h := s.children[id];
    var x, y := s.handlers[h], t.handlers[h];
    assert EntryOk(s, id) && HandlerOk(depth, s, h);
    LivePut(s.handlers, h, y, |s.handlers|);
    SameIds(s, t, h);
    ChosenSnoc(s.log, x.from, x.fate, enqueued, |x.fate|);
    assert x.from + |x.fate| == |s.log| - 1;
    assert enqueued ==> x.got + (x.queue + [s.log[|s.log| - 1]]) == x.got + x.queue + [s.log[|s.log| - 1]];
    forall k: nat ensures HandlerOk(depth, t, k) {
      assert HandlerOk(depth, s, k) && Distinct(s, h, k);
    }
  }

  lemma VisitKeeps(depth: nat, s: State, id: nat)
    requires Inv(depth, s) && Enabled(depth, s, Visit(id))
    ensures Inv(depth, Apply(depth, s, Visit(id)))
  {
    var t, h := Apply(depth, s, Visit(id)), s.children[id];
    assert HandlerOk(depth, s, h);
    if |s.handlers[h].queue| == depth {
      ReachedKeeps(depth, s, t, id, false);
    } else {
      SameTable(depth, s, t);
    }
  }

  lemma SendKeeps(depth: nat, s: State)
    requires Inv(depth, s) && Enabled(depth, s, Send)
    ensures Inv(depth, Apply(depth, s, Send))
  {
    var t, id := Apply(depth, s, Send), s.feeder.id;
    assert EntryOk(s, id) && HandlerOk(depth, s, s.children[id]);
    ReachedKeeps(depth, s, t, id, true);
  }

  lemma StepKeeps(depth: nat, s: State, step: Step)
    requires Inv(depth, s) && Enabled(depth, s, step)
    ensures Inv(depth, Apply(depth, s, step))
  {
    match step
    case Connect => ConnectKeeps(depth, s);
    case Lock(h) => LockKeeps(depth, s, h);
    case Add(h) => AddKeeps(depth, s, h);
    case Receive(h, sent) => ReceiveKeeps(depth, s, h, sent);
    case SeeClosed(h) => LeaveKeeps(depth, s, step);
    case Cancel(h) => LeaveKeeps(depth, s, step);
    case Remove(h) => RemoveKeeps(depth, s, h);
    case Done(h) => DoneKeeps(depth, s, h);
    case FeedLock(data) => FeedLockKeeps(depth, s, data);
    case Visit(id) => VisitKeeps(depth, s, id);
    case Send => SendKeeps(depth, s);
    case RemoveOne(id) => RemoveOneKeeps(depth, s, id);
    case _ => UnlockKeeps(depth, s, step);
  }

  // ---------------------------------------------------------------------------
  // Runs

  /** The state after the first `n` steps; a step that is not enabled does not happen. */
  function RunTo(depth: nat, steps: seq<Step>, n: nat): State
    requires n <= |steps|
  {
    if n == 0 then INITIAL
    else
      var s := RunTo(depth, steps, n - 1);
      if Enabled(depth, s, steps[n - 1]) then Apply(depth, s, steps[n - 1]) else s
  }

  lemma {:induction false} RunKeeps(depth: nat, steps: seq<Step>, n: nat)
    requires n <= |steps|
    ensures Inv(depth, RunTo(depth, steps, n))
  {
    if n > 0 {
      RunKeeps(depth, steps, n - 1);
      var s := RunTo(depth, steps, n - 1);
      if Enabled(depth, s, steps[n - 1]) {
        StepKeeps(depth, s, steps[n - 1]);
      }
    } else {
      assert forall id :: EntryOk(INITIAL, id);
      assert forall h, k :: Distinct(INITIAL, h, k);
      assert forall h :: HandlerOk(depth, INITIAL, h);
    }
  }

  /**
   In every run: no send on a closed channel, no channel closed twice and no negative
   wait group; and when the feeder is about to send, holding the mutex, there is room.
   */
  lemma NeverPanicsNorBlocks(depth: nat, steps: seq<Step>)
    ensures var s := RunTo(depth, steps, |steps|);
            && !s.panicked && s.wg == LiveCount(s.handlers, |s.handlers|)
            && (s.feeder.Sending? ==> Enabled(depth, s, Send))
            && (s.feeder.Feeding? && s.feeder.todo != {} ==> exists id :: Enabled(depth, s, Visit(id)))
  {
    RunKeeps(depth, steps, |steps|);
    var s := RunTo(depth, steps, |steps|);
    if s.feeder.Feeding? && s.feeder.todo != {} {
      var id :| id in s.feeder.todo;
      assert EntryOk(s, id);
      assert Enabled(depth, s, Visit(id));
    }
  }

  /**
   In every run, for every client: each broadcast since it was registered and until it
   was removed was either enqueued for it or dropped, its channel never holds more
   than its depth, and it receives what was enqueued in order, once.
   */
  lemma EveryBroadcastAccounted(depth: nat, steps: seq<Step>, h: nat)
    requires h < |RunTo(depth, steps, |steps|).handlers|
    ensures var s := RunTo(depth, steps, |steps|);
            var x := s.handlers[h];
            && |x.queue| <= depth && x.from + |x.fate| <= |s.log|
            && x.got + x.queue == Chosen(s.log, x.from, x.fate, |x.fate|)
            && (x.closed ==> x.from + |x.fate| == x.until)
            && (x.id in s.children ==> x.from + |x.fate| + (if Pending(s.feeder, x.id) then 1 else 0) == |s.log|)
            && (x.id > 0 ==> (x.closed <==> x.id !in s.children))
            && (x.pc.Removed? || x.pc.Gone? ==> x.id !in s.children && x.closed)
  {
    RunKeeps(depth, steps, |steps|);
    assert HandlerOk(depth, RunTo(depth, steps, |steps|), h);
  }

  /** Only the step that registers a client sets `from`, and only the step that closes its channel sets `until`. */
  lemma StepSpan(depth: nat, s: State, step: Step, h: nat)
    requires Inv(depth, s) && Enabled(depth, s, step) && h < |s.handlers|
    ensures var t := Apply(depth, s, step);
            && |s.handlers| <= |t.handlers|
            && (s.handlers[h].id > 0 ==> t.handlers[h].id == s.handlers[h].id && t.handlers[h].from == s.handlers[h].from)
            && (s.handlers[h].id == 0 && t.handlers[h].id > 0 ==> step == Add(h) && t.handlers[h].from == |s.log|)
            && (s.handlers[h].closed ==> t.handlers[h].closed && t.handlers[h].until == s.handlers[h].until)
            && (!s.handlers[h].closed && t.handlers[h].closed ==> t.handlers[h].until == |s.log|)
  {
    assert HandlerOk(depth, s, h);
    if step.Remove? {
      assert EntryOk(s, s.handlers[step.h].id) && HandlerOk(depth, s, step.h);
    } else if step.RemoveOne? {
      assert EntryOk(s, step.id);
    } else if step.Visit? {
      assert EntryOk(s, step.id);
    }
  }

  ghost predicate RegistersAt(depth: nat, steps: seq<Step>, i: nat, h: nat)
    requires i < |steps|
  {
    steps[i] == Add(h) && Enabled(depth, RunTo(depth, steps, i), steps[i])
  }

  /** Step `i` closes the client's channel. */
  ghost predicate ClosesAt(depth: nat, steps: seq<Step>, i: nat, h: nat)
    requires i < |steps|
  {
    var s, t := RunTo(depth, steps, i), RunTo(depth, steps, i + 1);
    h < |s.handlers| && h < |t.handlers| && !s.handlers[h].closed && t.handlers[h].closed
  }

  /** A client's broadcasts are counted from the step that registered it. */
  lemma {:induction false} CountedFrom(depth: nat, steps: seq<Step>, n: nat, h: nat) returns (i: nat)
    requires n <= |steps| && h < |RunTo(depth, steps, n).handlers| && RunTo(depth, steps, n).handlers[h].id > 0
    ensures i < n && RegistersAt(depth, steps, i, h) && RunTo(depth, steps, n).handlers[h].from == |RunTo(depth, steps, i).log|
  {
    var m := n - 1;
    RunKeeps(depth, steps, m);
    var s := RunTo(depth, steps, m);
    if h < |s.handlers| {
      if Enabled(depth, s, steps[m]) {
        StepSpan(depth, s, steps[m], h);
      }
      if s.handlers[h].id > 0 {
        i := CountedFrom(depth, steps, m, h);
      } else {
        i := m;
      }
    } else {
      assert false;
    }
  }

  /** And until the step that closed its channel. */
  lemma {:induction false} CountedUntil(depth: nat, steps: seq<Step>, n: nat, h: nat) returns (i: nat)
    requires n <= |steps| && h < |RunTo(depth, steps, n).handlers| && RunTo(depth, steps, n).handlers[h].closed
    ensures i < n && ClosesAt(depth, steps, i, h) && RunTo(depth, steps, n).handlers[h].until == |RunTo(depth, steps, i).log|
  {
    var m := n - 1;
    RunKeeps(depth, steps, m);
    var s := RunTo(depth, steps, m);
    if h < |s.handlers| {
      if Enabled(depth, s, steps[m]) {
        StepSpan(depth, s, steps[m], h);
      }
      if s.handlers[h].closed {
        i := CountedUntil(depth, steps, m, h);
      } else {
        i := m;
      }
    } else {
      assert false;
    }
  }

  // ---------------------------------------------------------------------------
  // What is dropped

  /** Step `i` is the turn of client `h` in broadcast `m`, and finds as many messages in its channel as that can hold. */
  ghost predicate FullAt(depth: nat, steps: seq<Step>, i: nat, h: nat, m: nat)
    requires i < |steps|
  {
    FindsFull(depth, RunTo(depth, steps, i), steps[i], h, m)
  }

  predicate FindsFull(depth: nat, s: State, step: Step, h: nat, m: nat) {
    && h < |s.handlers| && step == Visit(s.handlers[h].id) && Enabled(depth, s, step)
    && m + 1 == |s.log| && |s.handlers[h].queue| == depth
  }

  /** A client's fates grow by one at most. */
  predicate FateGrows(x: Handler, y: Handler, full: bool) {
    && (x.fate != [] || full ==> y.from == x.from)
    && if full then y.fate == x.fate + [false] else y.fate == x.fate || y.fate == x.fate + [true]
  }

  /** At a client's turn, what is added is a drop exactly when its channel is found full. */
  lemma VisitFate(depth: nat, s: State, id: nat, h: nat)
    requires Inv(depth, s) && Enabled(depth, s, Visit(id)) && h < |s.handlers|
    ensures var full := FindsFull(depth, s, Visit(id), h, |s.log| - 1);
            && |s.log| > 0 && FateGrows(s.handlers[h], Apply(depth, s, Visit(id)).handlers[h], full)
            && (full ==> s.handlers[h].from + |s.handlers[h].fate| + 1 == |s.log|)
  {
    var k := s.children[id];
    assert EntryOk(s, id) && HandlerOk(depth, s, h) && Distinct(s, h, k);
  }

  /** Other steps drop nothing. */
  lemma OtherFate(depth: nat, s: State, step: Step, h: nat)
    requires Inv(depth, s) && Enabled(depth, s, step) && !step.Visit? && h < |s.handlers|
    ensures h < |Apply(depth, s, step).handlers| && FateGrows(s.handlers[h], Apply(depth, s, step).handlers[h], false)
  {
    assert HandlerOk(depth, s, h);
  }

  lemma GrownFate(x: Handler, y: Handler, full: bool, n: nat, m: nat)
    requires FateGrows(x, y, full) && (full ==> x.from + |x.fate| + 1 == n)
    ensures DroppedAt(y, m) <==> DroppedAt(x, m) || (full && m + 1 == n)
  {
  }

  /** Broadcast `m` was dropped for the client. */
  predicate DroppedAt(x: Handler, m: nat) {
    x.from <= m < x.from + |x.fate| && !x.fate[m - x.from]
  }

  predicate Dropped(s: State, h: nat, m: nat) {
    h < |s.handlers| && DroppedAt(s.handlers[h], m)
  }

  /** A step drops a broadcast for a client exactly when it is the client's turn and its channel is found full. */
  lemma StepFate(depth: nat, s: State, step: Step, h: nat, m: nat)
    requires Inv(depth, s) && Enabled(depth, s, step)
    ensures Dropped(Apply(depth, s, step), h, m) <==> Dropped(s, h, m) || FindsFull(depth, s, step, h, m)
  {
    if h < |s.handlers| {
      var x, y := s.handlers[h], Apply(depth, s, step).handlers[h];
      if step.Visit? {
        VisitFate(depth, s, step.id, h);
        GrownFate(x, y, FindsFull(depth, s, step, h, |s.log| - 1), |s.log|, m);
      } else {
        OtherFate(depth, s, step, h);
        GrownFate(x, y, false, |s.log|, m);
      }
    }
  }

  ghost predicate NeverFull(depth: nat, steps: seq<Step>, n: nat, h: nat, m: nat)
    requires n <= |steps|
  {
    forall i | 0 <= i < n :: !FullAt(depth, steps, i, h, m)
  }

  lemma {:induction false} DropsExactly(depth: nat, steps: seq<Step>, n: nat, h: nat, m: nat)
    requires n <= |steps|
    ensures Dropped(RunTo(depth, steps, n), h, m) <==> !NeverFull(depth, steps, n, h, m)
  {
    if n > 0 {
      var k := n - 1;
      DropsExactly(depth, steps, k, h, m);
      RunKeeps(depth, steps, k);
      var s := RunTo(depth, steps, k);
      if Enabled(depth, s, steps[k]) {
        StepFate(depth, s, steps[k], h, m);
      }
      assert NeverFull(depth, steps, n, h, m) <==> NeverFull(depth, steps, k, h, m) && !FullAt(depth, steps, k, h, m);
    }
  }

  /** In every run a broadcast that came to a client was dropped there if and only if its channel was found full at the client's turn. */
  lemma DroppedExactly(depth: nat, steps: seq<Step>, h: nat, m: nat)
    requires h < |RunTo(depth, steps, |steps|).handlers|
    requires var x := RunTo(depth, steps, |steps|).handlers[h]; x.from <= m < x.from + |x.fate|
    ensures var x := RunTo(depth, steps, |steps|).handlers[h];
            !x.fate[m - x.from] <==> exists i :: 0 <= i < |steps| && FullAt(depth, steps, i, h, m)
  {
    DropsExactly(depth, steps, |steps|, h, m);
  }

  lemma {:induction false} AllChosen(log: seq<Data>, from: nat, fate: seq<bool>, n: nat)
    requires n <= |fate| && from + n <= |log| && forall j | 0 <= j < n :: fate[j]
    ensures Chosen(log, from, fate, n) == log[from..from + n]
  {
    if n > 0 {
      AllChosen(log, from, fate, n - 1);
      assert log[from..from + n] == log[from..from + n - 1] + [log[from + n - 1]];
    }
  }

  /** Hence a client whose channel is never found full receives, in order, every broadcast since it was registered. */
  lemma NeverFullGetsAll(depth: nat, steps: seq<Step>, h: nat)
    requires h < |RunTo(depth, steps, |steps|).handlers|
    requires forall i, m | 0 <= i < |steps| :: !FullAt(depth, steps, i, h, m)
    ensures var s := RunTo(depth, steps, |steps|);
            var x := s.handlers[h];
            x.from + |x.fate| <= |s.log| && x.got + x.queue == s.log[x.from..x.from + |x.fate|]
  {
    EveryBroadcastAccounted(depth, steps, h);
    var s := RunTo(depth, steps, |steps|);
    var x := s.handlers[h];
    forall j | 0 <= j < |x.fate| ensures x.fate[j] {
      DroppedExactly(depth, steps, h, x.from + j);
    }
    AllChosen(s.log, x.from, x.fate, |x.fate|);
  }

  /** In every run clients have different numbers, and each entry of the table is its own client's. */
  lemma NumbersUnique(depth: nat, steps: seq<Step>, h: nat, k: nat)
    requires var s := RunTo(depth, steps, |steps|); h < |s.handlers| && k < |s.handlers| && h != k
    ensures var s := RunTo(depth, steps, |steps|);
            && (s.handlers[h].id > 0 ==> s.handlers[h].id != s.handlers[k].id)
            && (s.handlers[h].id in s.children ==> s.children[s.handlers[h].id] == h)
  {
    RunKeeps(depth, steps, |steps|);
    var s := RunTo(depth, steps, |steps|);
    assert Distinct(s, h, k) && HandlerOk(depth, s, h) && EntryOk(s, s.handlers[h].id);
  }

  /** Once the table is empty every client that is still served can get on: it has something to receive, or sees its channel closed. */
  lemma EmptyTableDrains(depth: nat, steps: seq<Step>, h: nat)
    requires var s := RunTo(depth, steps, |steps|); s.children == map[] && h < |s.handlers| && s.handlers[h].pc.Serving?
    ensures var s := RunTo(depth, steps, |steps|); Enabled(depth, s, Receive(h, true)) || Enabled(depth, s, SeeClosed(h))
  {
    RunKeeps(depth, steps, |steps|);
    assert HandlerOk(depth, RunTo(depth, steps, |steps|), h);
  }

  // ---------------------------------------------------------------------------
  // What is broadcast

  /** The data of the broadcasts begun in the first `n` steps. */
  ghost function Broadcasts(depth: nat, steps: seq<Step>, n: nat): seq<Data>
    requires n <= |steps|
  {
    if n == 0 then []
    else
      Broadcasts(depth, steps, n - 1) +
      if steps[n - 1].FeedLock? && Enabled(depth, RunTo(depth, steps, n - 1), steps[n - 1]) then [steps[n - 1].data] else []
  }

  lemma StepLog(depth: nat, s: State, step: Step)
    requires Enabled(depth, s, step)
    ensures Apply(depth, s, step).log == s.log + if step.FeedLock? then [step.data] else []
  {
  }

  /** In every run the log is the data that was given to the feeder, in order. */
  lemma {:induction false} LogIsBroadcasts(depth: nat, steps: seq<Step>, n: nat)
    requires n <= |steps|
    ensures RunTo(depth, steps, n).log == Broadcasts(depth, steps, n)
  {
    if n > 0 {
      LogIsBroadcasts(depth, steps, n - 1);
      var s := RunTo(depth, steps, n - 1);
      if Enabled(depth, s, steps[n - 1]) {
        StepLog(depth, s, steps[n - 1]);
      } else {
        assert s.log + [] == s.log;
      }
    }
  }

  function EnqueuedAt(fate: seq<bool>): nat -> bool {
    (i: nat) => i < |fate| && fate[i]
  }

  function LogFrom(log: seq<Data>, from: nat): nat -> Data {
    (i: nat) => if from + i < |log| then log[from + i] else []
  }

  /** What was enqueued for a client is the broadcasts since it was registered that were not dropped, in order. */
  lemma {:induction false} ChosenPicks(log: seq<Data>, from: nat, fate: seq<bool>, n: nat)
    requires n <= |fate| && from + n <= |log|
    ensures Picks(LogFrom(log, from), EnqueuedAt(fate), n, Chosen(log, from, fate, n))
  {
    if n == 0 {
      PicksNone(LogFrom(log, from), EnqueuedAt(fate));
    } else {
      ChosenPicks(log, from, fate, n - 1);
      PicksNext(LogFrom(log, from), EnqueuedAt(fate), n - 1, Chosen(log, from, fate, n - 1));
      assert EnqueuedAt(fate)(n - 1) == fate[n - 1] && LogFrom(log, from)(n - 1) == log[from + n - 1];
    }
  }

  // ---------------------------------------------------------------------------
  // Leaving

  /** The handler has stopped serving its client. */
  predicate Left(x: Handler) {
    x.pc in {Leaving, InRemove, Removed, Gone}
  }

  /** A failed send to the client, a closed channel or a cancelled stream. */
  predicate Leaves(step: Step, h: nat) {
    step == Receive(h, false) || step == SeeClosed(h) || step == Cancel(h)
  }

  /** One step of a handler, as far as leaving goes. */
  predicate Goes(x: Handler, y: Handler, leaves: bool) {
    && (Left(x) ==> Left(y) && y.got == x.got)
    && (leaves ==> Left(y)) && (!Left(x) && Left(y) ==> leaves)
  }

  lemma RemovalLeaves(depth: nat, s: State, step: Step, h: nat)
    requires Enabled(depth, s, step) && h < |s.handlers| && (step.Remove? || step.RemoveOne?)
    ensures |s.handlers| <= |Apply(depth, s, step).handlers| && Goes(s.handlers[h], Apply(depth, s, step).handlers[h], Leaves(step, h))
  {
  }

  lemma StepLeaves(depth: nat, s: State, step: Step, h: nat)
    requires Enabled(depth, s, step) && h < |s.handlers|
    ensures |s.handlers| <= |Apply(depth, s, step).handlers| && Goes(s.handlers[h], Apply(depth, s, step).handlers[h], Leaves(step, h))
  {
    if step.Remove? || step.RemoveOne? {
      RemovalLeaves(depth, s, step, h);
    }
  }

  lemma {:induction false} LeftStays(depth: nat, steps: seq<Step>, k: nat, n: nat, h: nat)
    requires k <= n <= |steps| && h < |RunTo(depth, steps, k).handlers| && Left(RunTo(depth, steps, k).handlers[h])
    ensures h < |RunTo(depth, steps, n).handlers| && Left(RunTo(depth, steps, n).handlers[h])
    ensures RunTo(depth, steps, n).handlers[h].got == RunTo(depth, steps, k).handlers[h].got
    decreases n
  {
    if k < n {
      LeftStays(depth, steps, k, n - 1, h);
      var s := RunTo(depth, steps, n - 1);
      if Enabled(depth, s, steps[n - 1]) {
        StepLeaves(depth, s, steps[n - 1], h);
      }
    }
  }

  /** In every run a client whose stream failed, was cancelled or was closed is handed nothing more, and no other client stops being served. */
  lemma NothingAfterLeaving(depth: nat, steps: seq<Step>, i: nat, n: nat, h: nat)
    requires i < n <= |steps| && h < |RunTo(depth, steps, i).handlers| && Enabled(depth, RunTo(depth, steps, i), steps[i])
    ensures var s, t := RunTo(depth, steps, i), RunTo(depth, steps, i + 1);
            && h < |t.handlers|
            && (Leaves(steps[i], h) ==> h < |RunTo(depth, steps, n).handlers| && RunTo(depth, steps, n).handlers[h].got == t.handlers[h].got)
            && (!Left(s.handlers[h]) && Left(t.handlers[h]) ==> Leaves(steps[i], h))
  {
    StepLeaves(depth, RunTo(depth, steps, i), steps[i], h);
    if Leaves(steps[i], h) {
      LeftStays(depth, steps, i + 1, n, h);
    }
  }
}
