/** Small shared vocabulary. */
module Common {

  datatype Option<+T> = None | Some(value: T)

  type byte = x: int | 0 <= x < 256

  lemma Assoc<T>(a: seq<T>, b: seq<T>, c: seq<T>)
    ensures a + b + c == a + (b + c)
  {
  }

  /** One step of a loop that has appended `done` to `start` and still has `todo` to append. */
  lemma Advance<T>(start: seq<T>, done: seq<T>, here: seq<T>, todo: seq<T>)
    ensures (start + done) + here == start + (done + here)
    ensures done + (here + todo) == (done + here) + todo
  {
  }

  /** Quotient and remainder are unique. */
  lemma DivModUnique(x: int, m: nat, q: int, r: nat)
    requires m > 0 && x == q * m + r && r < m
    ensures x / m == q && x % m == r
  {
    var d := x / m - q;
    assert x == x / m * m + x % m;
    assert d * m == r - x % m;
    assert d >= 1 ==> d * m >= m;
    assert d <= -1 ==> d * m + m <= 0;
  }

  /** What never falls from one step to the next never falls. */
  lemma {:induction false} Monotone(f: nat -> nat, k: nat, n: nat)
    requires k <= n && forall i | k <= i < n :: f(i) <= f(i + 1)
    ensures f(k) <= f(n)
    decreases n
  {
    if k < n {
      Monotone(f, k, n - 1);
      assert f(n - 1) <= f(n - 1 + 1);
    }
  }

  /** An event that raises such a number above `m` has not happened while it is at most `m`. */
  lemma NotYet(f: nat -> nat, event: nat -> bool, n: nat, m: nat)
    requires forall i | 0 <= i < n :: f(i) <= f(i + 1) && (event(i) ==> m < f(i + 1))
    requires f(n) <= m
    ensures forall i | 0 <= i < n :: !event(i)
  {
    forall i | 0 <= i < n ensures !event(i) {
      assert f(i) <= f(i + 1);
      Monotone(f, i + 1, n);
    }
  }

  // ---------------------------------------------------------------------------
  // Sub-sequences by position

  /** How many of the first `n` positions satisfy `p`. */
  ghost function Count(p: nat -> bool, n: nat): nat {
    |set i: nat | i < n && p(i)|
  }

  lemma CountNext(p: nat -> bool, n: nat)
    ensures Count(p, n + 1) == Count(p, n) + if p(n) then 1 else 0
  {
    var before, now := set i: nat | i < n && p(i), set i: nat | i < n + 1 && p(i);
    assert now == if p(n) then before + {n} else before;
  }

  lemma {:induction false} CountGrows(p: nat -> bool, i: nat, n: nat)
    requires i <= n
    ensures Count(p, i) <= Count(p, n)
    decreases n
  {
    if i < n {
      CountNext(p, n - 1);
      CountGrows(p, i, n - 1);
    }
  }

  /** `r` holds what is at the positions below `n` that satisfy `keep`, in order, and nothing else. */
  ghost predicate Picks<T>(at: nat -> T, keep: nat -> bool, n: nat, r: seq<T>) {
    && |r| == Count(keep, n)
    && forall i | 0 <= i < n && keep(i) :: Count(keep, i) < |r| && r[Count(keep, i)] == at(i)
  }

  lemma PicksNone<T>(at: nat -> T, keep: nat -> bool)
    ensures Picks(at, keep, 0, [])
  {
    assert (set i: nat | i < 0 && keep(i)) == {};
  }

  lemma PicksNext<T>(at: nat -> T, keep: nat -> bool, n: nat, r: seq<T>)
    requires Picks(at, keep, n, r)
    ensures Picks(at, keep, n + 1, if keep(n) then r + [at(n)] else r)
  {
    CountNext(keep, n);
    assert Count(keep, n) == |r|;
  }

  function Somes<T>(s: seq<T>): seq<Option<T>> {
    seq(|s|, i requires 0 <= i < |s| => Some(s[i]))
  }

  lemma PicksBefore<T>(at: nat -> T, keep: nat -> bool, m: nat, a: seq<T>)
    requires Picks(at, keep, m + 1, a)
    ensures Count(keep, m) <= |a| && Picks(at, keep, m, a[..Count(keep, m)])
    ensures a == a[..Count(keep, m)] + if keep(m) then [at(m)] else []
  {
    CountNext(keep, m);
    var k := Count(keep, m);
    forall i | 0 <= i < m && keep(i) ensures Count(keep, i) < k && a[..k][Count(keep, i)] == at(i) {
      CountNext(keep, i);
      CountGrows(keep, i + 1, m);
    }
  }

  /** There is one such sequence. */
  lemma {:induction false} PicksOne<T>(at: nat -> T, keep: nat -> bool, n: nat, a: seq<T>, b: seq<T>)
    requires Picks(at, keep, n, a) && Picks(at, keep, n, b)
    ensures a == b
  {
    if n > 0 {
      PicksBefore(at, keep, n - 1, a);
      PicksBefore(at, keep, n - 1, b);
      var k := Count(keep, n - 1);
      PicksOne(at, keep, n - 1, a[..k], b[..k]);
    } else {
      PicksNone(at, keep);
    }
  }

  // ---------------------------------------------------------------------------
  // Maps filled one entry after another

  /** Position `i` below `n` satisfies `keep` and has the key `k`. */
  ghost predicate Gives(keep: nat -> bool, key: nat -> string, n: nat, i: nat, k: string) {
    i < n && keep(i) && key(i) == k
  }

  ghost predicate GivesLast(keep: nat -> bool, key: nat -> string, n: nat, i: nat, k: string) {
    Gives(keep, key, n, i, k) && forall j | i < j < n :: !Gives(keep, key, n, j, k)
  }

  /** The keys of `m` are those given, and each has the value it was given last. */
  ghost predicate LastWins<V>(m: map<string, V>, keep: nat -> bool, key: nat -> string, val: nat -> V, n: nat) {
    && (forall i | Gives(keep, key, n, i, key(i)) :: key(i) in m)
    && (forall k | k in m :: exists i :: GivesLast(keep, key, n, i, k) && m[k] == val(i))
  }

  lemma LastWinsNone<V>(keep: nat -> bool, key: nat -> string, val: nat -> V)
    ensures LastWins(map[], keep, key, val, 0)
  {
  }

  lemma LastWinsNext<V>(m: map<string, V>, keep: nat -> bool, key: nat -> string, val: nat -> V, n: nat)
    requires LastWins(m, keep, key, val, n)
    ensures LastWins(if keep(n) then m[key(n) := val(n)] else m, keep, key, val, n + 1)
  {
    var m', next := if keep(n) then m[key(n) := val(n)] else m, n + 1;
    forall i: nat | Gives(keep, key, next, i, key(i)) ensures key(i) in m' {
      assert i < n ==> Gives(keep, key, n, i, key(i));
    }
    forall k | k in m' ensures exists i :: GivesLast(keep, key, next, i, k) && m'[k] == val(i) {
      if keep(n) && key(n) == k {
        assert GivesLast(keep, key, next, n, k);
      } else {
        var i: nat :| GivesLast(keep, key, n, i, k) && m[k] == val(i);
        forall j: nat | i < j < next ensures !Gives(keep, key, next, j, k) {
          assert j < n ==> !Gives(keep, key, n, j, k);
        }
        assert GivesLast(keep, key, next, i, k);
      }
    }
  }

  // ---------------------------------------------------------------------------
  // Flags

  /** The flag was set at some step below `n` and not reset since. */
  ghost predicate SetSince(sets: nat -> bool, resets: nat -> bool, n: nat) {
    exists i: nat :: i < n && sets(i) && forall j | i < j < n :: !resets(j)
  }

  lemma SetSinceNext(sets: nat -> bool, resets: nat -> bool, n: nat)
    ensures SetSince(sets, resets, n + 1) <==> sets(n) || (SetSince(sets, resets, n) && !resets(n))
  {
    if SetSince(sets, resets, n) && !resets(n) {
      var i: nat :| i < n && sets(i) && forall j | i < j < n :: !resets(j);
      assert forall j | i < j < n + 1 :: !resets(j);
    }
    if SetSince(sets, resets, n + 1) && !sets(n) {
      var i: nat :| i < n + 1 && sets(i) && forall j | i < j < n + 1 :: !resets(j);
      assert i < n && !resets(n);
    }
  }

  /** A flag that steps set and reset says what was done last. */
  lemma {:induction false} FlagSetSince(flag: nat -> bool, sets: nat -> bool, resets: nat -> bool, n: nat)
    requires !flag(0) && forall m | 0 <= m < n :: flag(m + 1) <==> sets(m) || (flag(m) && !resets(m))
    ensures flag(n) <==> SetSince(sets, resets, n)
  {
    if n > 0 {
      FlagSetSince(flag, sets, resets, n - 1);
      SetSinceNext(sets, resets, n - 1);
      assert flag(n - 1 + 1) <==> sets(n - 1) || (flag(n - 1) && !resets(n - 1));
    }
  }
}
