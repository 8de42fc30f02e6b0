/**
 The router that spreads messages over the workers of a metrics output
 (message_router.go), with the round robin and the congestion policy it is given
 (metrics_influx.go).
 */
module Router {
  import opened Common

  datatype Action = Drop | Reroute | SendAndBlock

  function Min(a: nat, b: nat): nat {
    if a < b then a else b
  }

  /** Workers take messages off the front of their queues at any time. */
  function Taken<M>(queues: seq<seq<M>>, takes: seq<nat>): (r: seq<seq<M>>)
    requires |takes| == |queues|
    ensures |r| == |queues|
  {
    seq(|queues|, c requires 0 <= c < |queues| => queues[c][Min(takes[c], |queues[c]|)..])
  }

  /** What the workers do while one message is routed: what they take before each attempt, and before the message is sent. */
  datatype Workers = Workers(takes: seq<seq<nat>>, late: seq<nat>)

  predicate Matches(e: Workers, workers: nat) {
    && |e.takes| == workers + 1 && |e.late| == workers
    && forall i | 0 <= i <= workers :: |e.takes[i]| == workers
  }

  datatype Routed<M> = Routed(to: Option<nat>, queues: seq<seq<M>>, last: nat, attempts: nat)

  /** Round robin. */
  function Next(last: nat, workers: nat): (w: nat)
    requires workers > 0
    ensures w < workers
  {
    (last + 1) % workers
  }

  /** The search for a worker from attempt `i` on. */
  function Search<M>(queues: seq<seq<M>>, depth: nat, last: nat, msg: M, e: Workers, i: nat): (r: Routed<M>)
    requires |queues| > 0 && Matches(e, |queues|) && i <= |queues|
    ensures |r.queues| == |queues| && r.last < |queues| && i < r.attempts <= |queues| + 1
    ensures r.to.Some? ==> r.to.value < |queues|
    decreases |queues| - i
  {
    var w, now := Next(last, |queues|), Taken(queues, e.takes[i]);
    if |now[w]| < depth then
      var then' := Taken(now, e.late);
      Routed(Some(w), then'[w := then'[w] + [msg]], w, i + 1)
    else if i < |queues| then Search(now, depth, w, msg, e, i + 1)
    else Routed(None, now, w, i + 1)
  }

  /** The messages whose fate was worker `c`, among the first `n`. */
  function Select<M>(input: seq<M>, fate: seq<Option<nat>>, c: nat, n: nat): seq<M>
    requires n <= |input| == |fate|
  {
    if n == 0 then []
    else if fate[n - 1] == Some(c) then Select(input, fate, c, n - 1) + [input[n - 1]]
    else Select(input, fate, c, n - 1)
  }

  predicate Ends<M(==)>(q: seq<M>, all: seq<M>) {
    |q| <= |all| && all[|all| - |q|..] == q
  }

  /**
   No queue is over its capacity, and every queue is the end of what was sent to its
   worker: the worker has had the rest, in the order of the input, and nothing else.
   */
  ghost predicate Consistent<M>(queues: seq<seq<M>>, depth: nat, input: seq<M>, fate: seq<Option<nat>>) {
    forall now :: ConsistentHere(queues, depth, input, fate, now)
  }

  ghost predicate ConsistentHere<M>(queues: seq<seq<M>>, depth: nat, input: seq<M>, fate: seq<Option<nat>>, now: bool) {
    now ==>
      && |input| == |fate|
      && (forall c | 0 <= c < |queues| :: |queues[c]| <= depth && Ends(queues[c], Select(input, fate, c, |input|)))
  }

  lemma TakenKeeps<M>(queues: seq<seq<M>>, depth: nat, takes: seq<nat>, input: seq<M>, fate: seq<Option<nat>>)
    requires |takes| == |queues| && Consistent(queues, depth, input, fate)
    ensures Consistent(Taken(queues, takes), depth, input, fate)
    ensures forall c | 0 <= c < |queues| :: |Taken(queues, takes)[c]| <= |queues[c]|
  {
    assert ConsistentHere(queues, depth, input, fate, true);
    var r := Taken(queues, takes);
    forall c | 0 <= c < |queues| ensures |r[c]| <= |queues[c]| && Ends(r[c], Select(input, fate, c, |input|)) {
      var all, k := Select(input, fate, c, |input|), Min(takes[c], |queues[c]|);
      assert Ends(queues[c], all);
      assert all[|all| - |r[c]|..] == all[|all| - |queues[c]|..][k..];
    }
    assert forall now :: ConsistentHere(r, depth, input, fate, now);
  }

  lemma {:induction false} SelectPrefix<M>(input: seq<M>, fate: seq<Option<nat>>, msg: M, f: Option<nat>, c: nat, n: nat)
    requires n <= |input| == |fate|
    ensures Select(input + [msg], fate + [f], c, n) == Select(input, fate, c, n)
  {
    if n > 0 {
      SelectPrefix(input, fate, msg, f, c, n - 1);
    }
  }

  lemma SelectSnoc<M>(input: seq<M>, fate: seq<Option<nat>>, msg: M, f: Option<nat>, c: nat)
    requires |input| == |fate|
    ensures Select(input + [msg], fate + [f], c, |input| + 1) ==
            if f == Some(c) then Select(input, fate, c, |input|) + [msg] else Select(input, fate, c, |input|)
  {
    SelectPrefix(input, fate, msg, f, c, |input|);
  }

  lemma SentKeeps<M>(queues: seq<seq<M>>, depth: nat, input: seq<M>, fate: seq<Option<nat>>, w: nat, msg: M)
    requires w < |queues| && Consistent(queues, depth, input, fate) && |queues[w]| < depth
    ensures Consistent(queues[w := queues[w] + [msg]], depth, input + [msg], fate + [Some(w)])
  {
    assert ConsistentHere(queues, depth, input, fate, true);
    var r, input', fate' := queues[w := queues[w] + [msg]], input + [msg], fate + [Some(w)];
    forall c | 0 <= c < |r| ensures |r[c]| <= depth && Ends(r[c], Select(input', fate', c, |input'|)) {
      SelectSnoc(input, fate, msg, Some(w), c);
      var all := Select(input, fate, c, |input|);
      assert Ends(queues[c], all);
      if c == w {
        assert (all + [msg])[|all| - |queues[c]|..] == all[|all| - |queues[c]|..] + [msg];
      }
    }
    assert forall now :: ConsistentHere(r, depth, input', fate', now);
  }

  lemma DroppedKeeps<M>(queues: seq<seq<M>>, depth: nat, input: seq<M>, fate: seq<Option<nat>>, msg: M)
    requires Consistent(queues, depth, input, fate)
    ensures Consistent(queues, depth, input + [msg], fate + [None])
  {
    assert ConsistentHere(queues, depth, input, fate, true);
    var input', fate' := input + [msg], fate + [None];
    forall c | 0 <= c < |queues| ensures |queues[c]| <= depth && Ends(queues[c], Select(input', fate', c, |input'|)) {
      SelectSnoc(input, fate, msg, None, c);
    }
    assert forall now :: ConsistentHere(queues, depth, input', fate', now);
  }

  /** The search from here on comes out as `goal`. */
  ghost predicate Comes<M>(goal: Routed<M>, queues: seq<seq<M>>, depth: nat, last: nat, msg: M, e: Workers, i: nat) {
    forall now :: ComesHere(goal, queues, depth, last, msg, e, i, now)
  }

  ghost predicate ComesHere<M>(goal: Routed<M>, queues: seq<seq<M>>, depth: nat, last: nat, msg: M, e: Workers, i: nat, now: bool) {
    now ==> |queues| > 0 && Matches(e, |queues|) && i <= |queues| && goal == Search(queues, depth, last, msg, e, i)
  }

  /** One attempt of the search. */
  lemma SearchStep<M>(goal: Routed<M>, queues: seq<seq<M>>, depth: nat, last: nat, msg: M, e: Workers, i: nat, w: nat, seen: seq<seq<M>>)
    requires |queues| > 0 && Matches(e, |queues|) && i <= |queues| && Comes(goal, queues, depth, last, msg, e, i)
    requires w == Next(last, |queues|) && seen == Taken(queues, e.takes[i])
    ensures |seen[w]| < depth ==> var r := Taken(seen, e.late); goal == Routed(Some(w), r[w := r[w] + [msg]], w, i + 1)
    ensures |seen[w]| >= depth && i < |queues| ==> Comes(goal, seen, depth, w, msg, e, i + 1)
    ensures |seen[w]| >= depth && i == |queues| ==> goal == Routed(None, seen, w, i + 1)
  {
    assert ComesHere(goal, queues, depth, last, msg, e, i, true);
    if |seen[w]| >= depth && i < |queues| {
      var j := i + 1;
      assert forall now :: ComesHere(goal, seen, depth, w, msg, e, j, now);
    }
  }

  class Router<M> {
    const workers: nat
    const depth: nat
    var queues: seq<seq<M>>
    var lastWorker: nat
    var closed: seq<bool>
    var dataChanIn: seq<M>
    /** Every message handled so far, and the worker it went to, if any. */
    ghost var input: seq<M>
    ghost var fate: seq<Option<nat>>

    ghost predicate Valid()
      reads this
    {
      0 < workers == |queues| == |closed| && lastWorker < workers && Consistent(queues, depth, input, fate)
    }

    ghost predicate Open()
      reads this
    {
      forall c | 0 <= c < |closed| :: !closed[c]
    }

    constructor (workers: nat, depth: nat)
      requires workers > 0
      ensures Valid() && Open() && this.workers == workers && this.depth == depth && input == [] && lastWorker == 0
    {
      this.workers, this.depth, lastWorker := workers, depth, 0;
      queues, closed, dataChanIn := seq(workers, _ => []), seq(workers, _ => false), [];
      input, fate := [], [];
      new;
      assert forall now :: ConsistentHere(queues, depth, [], [], now);
    }

    method Route(msg: M, attempts: nat) returns (w: nat)
      requires workers > 0
      modifies `lastWorker
      ensures w == lastWorker == Next(old(lastWorker), workers)
    {
      lastWorker := lastWorker + 1;
      lastWorker := lastWorker % workers;
      w := lastWorker;
    }

    method HandleCongested(msg: M, attempts: nat, worker: nat) returns (a: Action)
      ensures a == if attempts < workers then Reroute else Drop
    {
      if attempts < workers {
        return Reroute;
      }
      return Drop;
    }

    /** The queue had room when it was looked at; workers only ever make more, so sending does not block. */
    method Send(w: nat, msg: M, late: seq<nat>)
      requires Valid() && w < workers == |late| && |queues[w]| < depth && !closed[w]
      modifies `queues, `input, `fate
      ensures Valid() && queues == (var r := Taken(old(queues), late); r[w := r[w] + [msg]])
      ensures input == old(input) + [msg] && fate == old(fate) + [Some(w)]
    {
      TakenKeeps(queues, depth, late, input, fate);
      queues := Taken(queues, late);
      assert |queues[w]| < depth;
      SentKeeps(queues, depth, input, fate, w, msg);
      queues := queues[w := queues[w] + [msg]];
      input, fate := input + [msg], fate + [Some(w)];
    }

    /** One message: it goes to the first worker found with room, in at most one attempt more than there are workers, or is dropped. */
    method HandleMsg(msg: M, e: Workers, ghost goal: Routed<M>) returns (attempts: nat)
      requires Valid() && Open() && Matches(e, workers) && Comes(goal, queues, depth, lastWorker, msg, e, 0)
      modifies `queues, `lastWorker, `input, `fate
      ensures Valid() && queues == goal.queues && lastWorker == goal.last && attempts == goal.attempts
      ensures input == old(input) + [msg] && fate == old(fate) + [goal.to]
    {
      var i := 0;
      while true
        invariant i <= workers && Valid() && input == old(input) && fate == old(fate)
        invariant Comes(goal, queues, depth, lastWorker, msg, e, i)
        decreases workers - i
      {
        TakenKeeps(queues, depth, e.takes[i], input, fate);
        ghost var before, last := queues, lastWorker;
        queues := Taken(queues, e.takes[i]);
        var w := Route(msg, i);
        SearchStep(goal, before, depth, last, msg, e, i, w, queues);
        if |queues[w]| < depth {
          Send(w, msg, e.late);
          return i + 1;
        }
        var a := HandleCongested(msg, i, w);
        match a {
          case Reroute =>
          case Drop =>
            DroppedKeeps(queues, depth, input, fate, msg);
            input, fate := input + [msg], fate + [None];
            return i + 1;
          case SendAndBlock =>
            assert false;
        }
        i := i + 1;
      }
    }

    /** Message `i` of `msgs`, when `r` is what has become of those before it. */
    method RunStep(ghost q: seq<seq<M>>, ghost last: nat, ghost msgs: seq<M>, ghost es: seq<Workers>, ghost i: nat, ghost r: Ran<M>,
                   ghost before: seq<Option<nat>>, msg: M, e: Workers) returns (ghost r': Ran<M>)
      requires Valid() && Open() && i < |msgs| == |es| && msgs[i] == msg && es[i] == e && Matches(e, workers)
      requires RunIs(q, depth, last, msgs, es, i, r) && queues == r.queues && lastWorker == r.last && fate == before + r.fate
      modifies `queues, `lastWorker, `input, `fate
      ensures Valid() && input == old(input) + [msg]
      ensures RunIs(q, depth, last, msgs, es, i + 1, r') && queues == r'.queues && lastWorker == r'.last && fate == before + r'.fate
    {
      ghost var goal := Search(queues, depth, lastWorker, msg, e, 0);
      assert forall now :: ComesHere(goal, queues, depth, lastWorker, msg, e, 0, now);
      var _ := HandleMsg(msg, e, goal);
      RunOne(q, depth, last, msgs, es, i, r, goal);
      Assoc(before, r.fate, [goal.to]);
      r' := Ran(goal.queues, goal.last, r.fate + [goal.to]);
    }

    /** The router's loop over a number of messages. */
    method Run(msgs: seq<M>, es: seq<Workers>)
      requires Valid() && Open() && |es| == |msgs| && AllMatch(es, workers)
      modifies `queues, `lastWorker, `input, `fate
      ensures Valid() && input == old(input) + msgs
      ensures var r := RunAll(old(queues), depth, old(lastWorker), msgs, es, |msgs|);
              queues == r.queues && lastWorker == r.last && fate == old(fate) + r.fate
    {
      ghost var r := Ran(queues, lastWorker, []);
      RunNone(queues, depth, lastWorker, msgs, es);
      for i := 0 to |msgs|
        invariant Valid() && closed == old(closed) && input == old(input) + msgs[..i]
        invariant RunIs(old(queues), depth, old(lastWorker), msgs, es, i, r)
        invariant queues == r.queues && lastWorker == r.last && fate == old(fate) + r.fate
      {
        r := RunStep(old(queues), old(lastWorker), msgs, es, i, r, old(fate), msgs[i], es[i]);
        assert msgs[..i + 1] == msgs[..i] + [msgs[i]];
      }
      assert msgs[..|msgs|] == msgs;
      assert RunIsHere(old(queues), depth, old(lastWorker), msgs, es, |msgs|, r, true);
    }

    /**
     Draining at shutdown: exactly the messages queued when it began are handled, as in
     a run; what producers add meanwhile, `arrivals[i]` before message `i`, stays queued.
     */
    method Drain(arrivals: seq<seq<M>>, es: seq<Workers>)
      requires Valid() && Open() && |es| == |arrivals| == |dataChanIn| && AllMatch(es, workers)
      modifies `dataChanIn, `queues, `lastWorker, `input, `fate
      ensures Valid() && input == old(input) + old(dataChanIn) && dataChanIn == Flat(arrivals, |arrivals|)
      ensures var msgs := old(dataChanIn);
              var r := RunAll(old(queues), depth, old(lastWorker), msgs, es, |msgs|);
              queues == r.queues && lastWorker == r.last && fate == old(fate) + r.fate
    {
      ghost var msgs, r := dataChanIn, Ran(queues, lastWorker, []);
      RunNone(queues, depth, lastWorker, msgs, es);
      var drain := |dataChanIn|;
      for i := 0 to drain
        invariant Valid() && closed == old(closed) && input == old(input) + msgs[..i] && dataChanIn == msgs[i..] + Flat(arrivals, i)
        invariant RunIs(old(queues), depth, old(lastWorker), msgs, es, i, r)
        invariant queues == r.queues && lastWorker == r.last && fate == old(fate) + r.fate
      {
        Dequeue(msgs, i, arrivals);
        dataChanIn := dataChanIn + arrivals[i];
        var msg := dataChanIn[0];
        dataChanIn := dataChanIn[1..];
        r := RunStep(old(queues), old(lastWorker), msgs, es, i, r, old(fate), msg, es[i]);
        assert msgs[..i + 1] == msgs[..i] + [msgs[i]];
      }
      assert msgs[..drain] == msgs;
      assert RunIsHere(old(queues), depth, old(lastWorker), msgs, es, drain, r, true);
    }

    /** Shutting down: what is queued is handled, then every output is closed, once. */
    method Shutdown(arrivals: seq<seq<M>>, es: seq<Workers>)
      requires Valid() && Open() && |es| == |arrivals| == |dataChanIn| && AllMatch(es, workers)
      modifies this
      ensures Valid() && input == old(input) + old(dataChanIn) && dataChanIn == Flat(arrivals, |arrivals|)
      ensures var msgs := old(dataChanIn);
              fate == old(fate) + RunAll(old(queues), depth, old(lastWorker), msgs, es, |msgs|).fate
      ensures forall c | 0 <= c < workers :: closed[c]
    {
      Drain(arrivals, es);
      label drained:
      for c := 0 to workers
        invariant Valid() && input == old@drained(input) && fate == old@drained(fate) && dataChanIn == old@drained(dataChanIn)
        invariant forall d | 0 <= d < workers :: closed[d] <==> d < c
      {
        assert !closed[c];
        closed := closed[c := true];
      }
    }
  }

  /** What producers have added before the first `n` messages were taken. */
  function Flat<M>(arrivals: seq<seq<M>>, n: nat): seq<M>
    requires n <= |arrivals|
  {
    if n == 0 then [] else Flat(arrivals, n - 1) + arrivals[n - 1]
  }

  lemma Dequeue<M>(msgs: seq<M>, i: nat, arrivals: seq<seq<M>>)
    requires i < |msgs| == |arrivals|
    ensures var q := msgs[i..] + Flat(arrivals, i) + arrivals[i];
            q[0] == msgs[i] && q[1..] == msgs[i + 1..] + Flat(arrivals, i + 1)
  {
    var q := msgs[i..] + Flat(arrivals, i) + arrivals[i];
    assert q == [msgs[i]] + (msgs[i + 1..] + (Flat(arrivals, i) + arrivals[i]));
  }

  predicate AllMatch(es: seq<Workers>, workers: nat) {
    forall i | 0 <= i < |es| :: Matches(es[i], workers)
  }

  /** The queues, the last worker and the fate of every message, after a number of messages. */
  datatype Ran<M> = Ran(queues: seq<seq<M>>, last: nat, fate: seq<Option<nat>>)

  function RunAll<M>(queues: seq<seq<M>>, depth: nat, last: nat, msgs: seq<M>, es: seq<Workers>, n: nat): (r: Ran<M>)
    requires |queues| > 0 && |es| == |msgs| && AllMatch(es, |queues|) && n <= |msgs|
    ensures |r.queues| == |queues| && |r.fate| == n
  {
    if n == 0 then Ran(queues, last, [])
    else
      var p := RunAll(queues, depth, last, msgs, es, n - 1);
      var r := Search(p.queues, depth, p.last, msgs[n - 1], es[n - 1], 0);
      Ran(r.queues, r.last, p.fate + [r.to])
  }

  ghost predicate RunIs<M>(queues: seq<seq<M>>, depth: nat, last: nat, msgs: seq<M>, es: seq<Workers>, n: nat, r: Ran<M>) {
    forall now :: RunIsHere(queues, depth, last, msgs, es, n, r, now)
  }

  ghost predicate RunIsHere<M>(queues: seq<seq<M>>, depth: nat, last: nat, msgs: seq<M>, es: seq<Workers>, n: nat, r: Ran<M>, now: bool) {
    now ==> |queues| > 0 && |es| == |msgs| && AllMatch(es, |queues|) && n <= |msgs| &&
            r == RunAll(queues, depth, last, msgs, es, n)
  }

  lemma RunNone<M>(queues: seq<seq<M>>, depth: nat, last: nat, msgs: seq<M>, es: seq<Workers>)
    requires |queues| > 0 && |es| == |msgs| && AllMatch(es, |queues|)
    ensures RunIs(queues, depth, last, msgs, es, 0, Ran(queues, last, []))
  {
    var r := Ran(queues, last, []);
    assert forall now :: RunIsHere(queues, depth, last, msgs, es, 0, r, now);
  }

  lemma RunOne<M>(queues: seq<seq<M>>, depth: nat, last: nat, msgs: seq<M>, es: seq<Workers>, i: nat, r: Ran<M>, goal: Routed<M>)
    requires i < |msgs| && RunIs(queues, depth, last, msgs, es, i, r)
    requires |r.queues| > 0 && |es| == |msgs| && Matches(es[i], |r.queues|) && goal == Search(r.queues, depth, r.last, msgs[i], es[i], 0)
    ensures RunIs(queues, depth, last, msgs, es, i + 1, Ran(goal.queues, goal.last, r.fate + [goal.to]))
  {
    assert RunIsHere(queues, depth, last, msgs, es, i, r, true);
    var n, r' := i + 1, Ran(goal.queues, goal.last, r.fate + [goal.to]);
    assert forall now :: RunIsHere(queues, depth, last, msgs, es, n, r', now);
  }

  // ---------------------------------------------------------------------------
  // Where a message goes

  /** The worker tried at attempt `i`. */
  function Turn(last: nat, workers: nat, i: nat): (w: nat)
    requires workers > 0
    ensures w < workers
  {
    if i == 0 then Next(last, workers) else Next(Turn(last, workers, i - 1), workers)
  }

  /** The queues as attempt `i` finds them. */
  function Look<M>(queues: seq<seq<M>>, e: Workers, i: nat): (r: seq<seq<M>>)
    requires Matches(e, |queues|) && i <= |queues|
    ensures |r| == |queues|
  {
    Taken(if i == 0 then queues else Look(queues, e, i - 1), e.takes[i])
  }

  predicate Full<M>(queues: seq<seq<M>>, depth: nat, last: nat, e: Workers, i: nat)
    requires |queues| > 0 && Matches(e, |queues|) && i <= |queues|
  {
    |Look(queues, e, i)[Turn(last, |queues|, i)]| >= depth
  }

  function Before<M>(queues: seq<seq<M>>, e: Workers, i: nat): (r: seq<seq<M>>)
    requires Matches(e, |queues|) && i <= |queues|
    ensures |r| == |queues|
  {
    if i == 0 then queues else Look(queues, e, i - 1)
  }

  function LastBefore(last: nat, workers: nat, i: nat): nat
    requires workers > 0
  {
    if i == 0 then last else Turn(last, workers, i - 1)
  }

  /** What attempt `i` finds decides: the message is sent, or dropped, or the search goes on with attempt `j`. */
  lemma Attempt<M>(queues: seq<seq<M>>, depth: nat, last: nat, msg: M, e: Workers, i: nat, j: nat, r: Routed<M>)
    requires |queues| > 0 && Matches(e, |queues|) && i <= |queues| && j == i + 1
    requires Comes(r, Before(queues, e, i), depth, LastBefore(last, |queues|, i), msg, e, i)
    ensures !Full(queues, depth, last, e, i) ==>
              var w, then' := Turn(last, |queues|, i), Taken(Look(queues, e, i), e.late);
              r == Routed(Some(w), then'[w := then'[w] + [msg]], w, j)
    ensures Full(queues, depth, last, e, i) && i < |queues| ==>
              Comes(r, Before(queues, e, j), depth, LastBefore(last, |queues|, j), msg, e, j)
    ensures Full(queues, depth, last, e, i) && i == |queues| ==> r == Routed(None, Look(queues, e, i), Turn(last, |queues|, i), j)
  {
    var n := |queues|;
    SearchStep(r, Before(queues, e, i), depth, LastBefore(last, n, i), msg, e, i, Turn(last, n, i), Look(queues, e, i));
  }

  /** The search from attempt `i` on: it stops at the first attempt that finds room. */
  lemma {:induction false} SearchFrom<M>(queues: seq<seq<M>>, depth: nat, last: nat, msg: M, e: Workers, i: nat, r: Routed<M>)
    requires |queues| > 0 && Matches(e, |queues|) && i <= |queues|
    requires Comes(r, Before(queues, e, i), depth, LastBefore(last, |queues|, i), msg, e, i)
    ensures i < r.attempts <= |queues| + 1 && forall j | i <= j < r.attempts - 1 :: Full(queues, depth, last, e, j)
    ensures r.to.None? ==> r.attempts == |queues| + 1 && Full(queues, depth, last, e, |queues|)
    ensures r.to.Some? ==> r.to.value == Turn(last, |queues|, r.attempts - 1) && !Full(queues, depth, last, e, r.attempts - 1)
    decreases |queues| - i
  {
    Attempt(queues, depth, last, msg, e, i, i + 1, r);
    if Full(queues, depth, last, e, i) && i < |queues| {
      SearchFrom(queues, depth, last, msg, e, i + 1, r);
    }
  }

  /** A message goes to the first worker found with room, and is dropped when `workers` + 1 attempts in a row find none. */
  lemma FirstWithRoom<M>(queues: seq<seq<M>>, depth: nat, last: nat, msg: M, e: Workers)
    requires |queues| > 0 && Matches(e, |queues|)
    ensures var r, n := Search(queues, depth, last, msg, e, 0), |queues|;
            && (forall j | 0 <= j < r.attempts - 1 :: Full(queues, depth, last, e, j))
            && (r.to.None? ==> r.attempts == n + 1 && Full(queues, depth, last, e, n))
            && (r.to.Some? ==> r.to.value == Turn(last, n, r.attempts - 1) && !Full(queues, depth, last, e, r.attempts - 1))
  {
    var r := Search(queues, depth, last, msg, e, 0);
    assert forall now :: ComesHere(r, queues, depth, last, msg, e, 0, now);
    SearchFrom(queues, depth, last, msg, e, 0, r);
  }

  // ---------------------------------------------------------------------------
  // What becomes of the queues

  /** A worker that takes `k` messages takes them from the front; one that takes more than there are empties the queue. */
  lemma TakenIs<M>(queues: seq<seq<M>>, takes: seq<nat>, c: nat)
    requires |takes| == |queues| && c < |queues|
    ensures var q, r := queues[c], Taken(queues, takes)[c];
            |r| <= |q| && q[|q| - |r|..] == r && (|q| - |r| == takes[c] || (r == [] && |q| <= takes[c]))
  {
  }

  /** How many messages worker `c` tries to take before attempt `i` is made. */
  function Takes(e: Workers, workers: nat, c: nat, i: nat): nat
    requires Matches(e, workers) && c < workers && i <= workers
  {
    e.takes[i][c] + if i == 0 then 0 else Takes(e, workers, c, i - 1)
  }

  lemma {:induction false} LookIs<M>(queues: seq<seq<M>>, e: Workers, c: nat, i: nat)
    requires Matches(e, |queues|) && c < |queues| && i <= |queues|
    ensures Rest(queues[c], Takes(e, |queues|, c, i), Look(queues, e, i)[c])
  {
    var t := e.takes[i][c];
    if i > 0 {
      LookIs(queues, e, c, i - 1);
      RestTwice(queues[c], Takes(e, |queues|, c, i - 1), t, Look(queues, e, i - 1)[c], Look(queues, e, i)[c]);
    } else {
      var r := Look(queues, e, i)[c];
      assert forall now :: RestHere(queues[c], t, r, now);
    }
  }

  /** `r` is what is left of a queue after `k` takes. */
  ghost predicate Rest<M>(q: seq<M>, k: nat, r: seq<M>) {
    forall now :: RestHere(q, k, r, now)
  }

  ghost predicate RestHere<M>(q: seq<M>, k: nat, r: seq<M>, now: bool) {
    now ==> r == q[Min(k, |q|)..]
  }

  lemma RestTwice<M>(q: seq<M>, a: nat, b: nat, r: seq<M>, r': seq<M>)
    requires Rest(q, a, r) && r' == r[Min(b, |r|)..]
    ensures Rest(q, b + a, r')
  {
    assert RestHere(q, a, r, true);
    var k := b + a;
    assert forall now :: RestHere(q, k, r', now);
  }

  /** Routing a message adds it to the end of one queue at most and otherwise only lets workers take from the front. */
  lemma {:induction false} SearchQueues<M>(queues: seq<seq<M>>, depth: nat, last: nat, msg: M, e: Workers, i: nat, r: Routed<M>)
    requires |queues| > 0 && Matches(e, |queues|) && i <= |queues|
    requires Comes(r, Before(queues, e, i), depth, LastBefore(last, |queues|, i), msg, e, i)
    ensures 0 < r.attempts <= |queues| + 1 && r.last == Turn(last, |queues|, r.attempts - 1)
    ensures SentFrom(Look(queues, e, r.attempts - 1), e.late, msg, r)
    decreases |queues| - i
  {
    Attempt(queues, depth, last, msg, e, i, i + 1, r);
    if Full(queues, depth, last, e, i) && i < |queues| {
      SearchQueues(queues, depth, last, msg, e, i + 1, r);
    }
  }

  /**
   One message and the queues: worker `c` finds its queue as it was, short of what it took
   itself before the last attempt and, if the message was sent, before that, and with the
   message at the end exactly when it is the worker the message went to.
   */
  lemma QueuesExactly<M>(queues: seq<seq<M>>, depth: nat, last: nat, msg: M, e: Workers, c: nat)
    requires |queues| > 0 && Matches(e, |queues|) && c < |queues|
    ensures var r := Search(queues, depth, last, msg, e, 0);
            r.last == Turn(last, |queues|, r.attempts - 1) && QueueIs(queues, e, c, r.attempts - 1, msg, r)
  {
    var r := Search(queues, depth, last, msg, e, 0);
    assert forall now :: ComesHere(r, queues, depth, last, msg, e, 0, now);
    assert Before(queues, e, 0) == queues && LastBefore(last, |queues|, 0) == last;
    SearchQueues(queues, depth, last, msg, e, 0, r);
    QueueAfter(queues, e, c, r.attempts - 1, msg, r);
  }

  ghost predicate QueueIs<M>(queues: seq<seq<M>>, e: Workers, c: nat, k: nat, msg: M, r: Routed<M>)
    requires Matches(e, |queues|) && c < |queues| && k <= |queues|
  {
    var took := Takes(e, |queues|, c, k) + if r.to.Some? then e.late[c] else 0;
    c < |r.queues| && r.queues[c] == queues[c][Min(took, |queues[c]|)..] + if r.to == Some(c) then [msg] else []
  }

  lemma QueueAfter<M>(queues: seq<seq<M>>, e: Workers, c: nat, k: nat, msg: M, r: Routed<M>)
    requires Matches(e, |queues|) && c < |queues| && k <= |queues| && SentFrom(Look(queues, e, k), e.late, msg, r)
    ensures QueueIs(queues, e, c, k, msg, r)
  {
    LookIs(queues, e, c, k);
    var t := Takes(e, |queues|, c, k);
    var left := OneQueue(queues[c], Look(queues, e, k), e.late, msg, r, c, t);
    assert RestHere(queues[c], t + if r.to.Some? then e.late[c] else 0, left, true);
  }

  /** The queues after the last attempt, which found them as `look`. */
  ghost predicate SentFrom<M>(look: seq<seq<M>>, late: seq<nat>, msg: M, r: Routed<M>) {
    |late| == |look| &&
    if r.to.None? then r.queues == look
    else var w, then' := r.to.value, Taken(look, late); w < |look| && r.queues == then'[w := then'[w] + [msg]]
  }

  lemma OneQueue<M>(q: seq<M>, look: seq<seq<M>>, late: seq<nat>, msg: M, r: Routed<M>, c: nat, t: nat) returns (left: seq<M>)
    requires SentFrom(look, late, msg, r) && c < |look| && Rest(q, t, look[c])
    ensures c < |r.queues| && Rest(q, t + if r.to.Some? then late[c] else 0, left)
    ensures r.queues[c] == left + if r.to == Some(c) then [msg] else []
  {
    left := look[c];
    if r.to.Some? {
      left := Taken(look, late)[c];
      RestTwice(q, t, late[c], look[c], left);
      assert late[c] + t == t + late[c];
    }
  }

  function SentTo(fate: seq<Option<nat>>, c: nat): nat -> bool {
    (i: nat) => i < |fate| && fate[i] == Some(c)
  }

  function InputAt<M>(input: seq<M>): nat -> Option<M> {
    (i: nat) => if i < |input| then Some(input[i]) else None
  }

  /** What a worker was sent is the messages whose fate it was, in the order of the input. */
  lemma {:induction false} SelectPicks<M>(input: seq<M>, fate: seq<Option<nat>>, c: nat, n: nat)
    requires n <= |input| == |fate|
    ensures Picks(InputAt(input), SentTo(fate, c), n, Somes(Select(input, fate, c, n)))
  {
    if n == 0 {
      PicksNone(InputAt(input), SentTo(fate, c));
    } else {
      SelectPicks(input, fate, c, n - 1);
      PicksNext(InputAt(input), SentTo(fate, c), n - 1, Somes(Select(input, fate, c, n - 1)));
      assert fate[n - 1] == Some(c) ==> Somes(Select(input, fate, c, n)) == Somes(Select(input, fate, c, n - 1)) + [Some(input[n - 1])];
    }
  }

  function Wrap(x: nat, n: nat): nat {
    if x < n then x else if x < 2 * n then x - n else 0
  }

  lemma AddMod(a: nat, i: nat, n: nat)
    requires n > 0
    ensures (a + i) % n == Wrap(a % n + i % n, n)
  {
    var q, r := a / n + i / n, a % n + i % n;
    assert a == a / n * n + a % n && i == i / n * n + i % n;
    if r < n {
      assert a + i == q * n + r;
      DivModUnique(a + i, n, q, r);
    } else {
      assert a + i == (q + 1) * n + (r - n);
      DivModUnique(a + i, n, q + 1, r - n);
    }
  }

  lemma {:induction false} TurnIs(last: nat, n: nat, i: nat)
    requires n > 0
    ensures Turn(last, n, i) == (last + 1 + i) % n
  {
    if i > 0 {
      var x, t := last + i, Turn(last, n, i - 1);
      TurnIs(last, n, i - 1);
      assert t == x % n by {
        assert last + 1 + (i - 1) == x;
      }
      NextAt(t, x, n);
      assert last + 1 + i == x + 1;
    }
  }

  lemma NextAt(t: nat, x: nat, n: nat)
    requires n > 0 && t == x % n
    ensures Next(t, n) == (x + 1) % n
  {
    NextMod(x, n);
  }

  lemma NextMod(x: nat, n: nat)
    requires n > 0
    ensures (x % n + 1) % n == (x + 1) % n
  {
    var t := x % n;
    DivModStep(x, n);
    if t + 1 < n {
      DivModUnique(t + 1, n, 0, t + 1);
    } else {
      DivModUnique(n, n, 1, 0);
    }
  }

  /** As many attempts as there are workers try them all. */
  lemma EveryWorkerTried(last: nat, n: nat, c: nat) returns (i: nat)
    requires c < n
    ensures i < n && Turn(last, n, i) == c
  {
    var b := (last + 1) % n;
    i := if c >= b then c - b else c - b + n;
    TurnIs(last, n, i);
    AddMod(last + 1, i, n);
    DivModUnique(i, n, 0, i);
  }

  /** A message is dropped only when every worker's queue was found full for it; with queues of no capacity it always is. */
  lemma DroppedOnlyWhenFull<M>(queues: seq<seq<M>>, depth: nat, last: nat, msg: M, e: Workers, c: nat) returns (i: nat)
    requires |queues| > 0 && Matches(e, |queues|) && c < |queues| && Search(queues, depth, last, msg, e, 0).to.None?
    ensures i <= |queues| && Turn(last, |queues|, i) == c && |Look(queues, e, i)[c]| >= depth
  {
    FirstWithRoom(queues, depth, last, msg, e);
    i := EveryWorkerTried(last, |queues|, c);
    assert Full(queues, depth, last, e, i);
  }

  lemma NoCapacityDropsAll<M>(queues: seq<seq<M>>, last: nat, msg: M, e: Workers)
    requires |queues| > 0 && Matches(e, |queues|)
    ensures Search(queues, 0, last, msg, e, 0).to.None?
  {
    FirstWithRoom(queues, 0, last, msg, e);
  }

  // ---------------------------------------------------------------------------
  // Fairness

  /** Message `i` goes to the next worker in turn: what happens as long as no queue is found full. */
  predicate InTurn(fate: seq<Option<nat>>, last: nat, n: nat)
    requires n > 0
  {
    forall i | 0 <= i < |fate| :: fate[i] == Some(Turn(last, n, i))
  }

  /** The number of attempts message `i` of a run needs. */
  function AttemptsFor<M>(queues: seq<seq<M>>, depth: nat, last: nat, msgs: seq<M>, es: seq<Workers>, i: nat): nat
    requires |queues| > 0 && |es| == |msgs| && AllMatch(es, |queues|) && i < |msgs|
  {
    var p := RunAll(queues, depth, last, msgs, es, i);
    Search(p.queues, depth, p.last, msgs[i], es[i], 0).attempts
  }

  /** When the first attempt always finds room, the workers are served in turn. */
  lemma {:induction false} UncongestedInTurn<M>(queues: seq<seq<M>>, depth: nat, last: nat, msgs: seq<M>, es: seq<Workers>, n: nat)
    requires |queues| > 0 && |es| == |msgs| && AllMatch(es, |queues|) && n <= |msgs|
    requires forall i | 0 <= i < n :: AttemptsFor(queues, depth, last, msgs, es, i) == 1
    ensures var r := RunAll(queues, depth, last, msgs, es, n);
            InTurn(r.fate, last, |queues|) && r.last == LastBefore(last, |queues|, n)
  {
    if n > 0 {
      UncongestedInTurn(queues, depth, last, msgs, es, n - 1);
      assert AttemptsFor(queues, depth, last, msgs, es, n - 1) == 1;
    }
  }

  lemma DivModStep(i: nat, n: nat)
    requires n > 0
    ensures if i % n + 1 < n then (i + 1) / n == i / n && (i + 1) % n == i % n + 1 else (i + 1) / n == i / n + 1 && (i + 1) % n == 0
  {
    var q, r := i / n, i % n;
    assert i == q * n + r;
    if r + 1 < n {
      DivModUnique(i + 1, n, q, r + 1);
    } else {
      assert i + 1 == (q + 1) * n + 0;
      DivModUnique(i + 1, n, q + 1, 0);
    }
  }

  /** The attempt, counted round, at which worker `c` has its turn. */
  function Place(last: nat, n: nat, c: nat): nat
    requires c < n
  {
    var b := (last + 1) % n;
    if c >= b then c - b else c - b + n
  }

  lemma TurnPlace(last: nat, n: nat, c: nat, i: nat)
    requires c < n
    ensures Turn(last, n, i) == c <==> i % n == Place(last, n, c)
  {
    TurnIs(last, n, i);
    AddMod(last + 1, i, n);
  }

  lemma {:induction false} TurnsTaken<M>(input: seq<M>, fate: seq<Option<nat>>, last: nat, n: nat, c: nat, i: nat)
    requires c < n && i <= |input| == |fate| && InTurn(fate, last, n)
    ensures |Select(input, fate, c, i)| == i / n + if i % n > Place(last, n, c) then 1 else 0
  {
    if i == 0 {
      DivModUnique(0, n, 0, 0);
    } else {
      TurnsTaken(input, fate, last, n, c, i - 1);
      TurnPlace(last, n, c, i - 1);
      DivModStep(i - 1, n);
    }
  }

  /** As long as no queue is found full, no two workers differ by more than one message. */
  lemma Fair<M>(input: seq<M>, fate: seq<Option<nat>>, last: nat, n: nat, c: nat, d: nat)
    requires c < n && d < n && |input| == |fate| && InTurn(fate, last, n)
    ensures -1 <= |Select(input, fate, c, |input|)| - |Select(input, fate, d, |input|)| <= 1
  {
    TurnsTaken(input, fate, last, n, c, |input|);
    TurnsTaken(input, fate, last, n, d, |input|);
  }
}
