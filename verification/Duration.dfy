/**
 The JSON text of a Duration message and what it is read back as (jsonpb.go).  Of the
 library's duration syntax this covers one optionally signed decimal number of seconds.
 */
module Duration {
  import opened Common
  import opened DecimalText

  const SECOND := 1_000_000_000
  const MAX_INT64 := 0x7fff_ffff_ffff_ffff

  // ---------------------------------------------------------------------------
  // Writing

  /** The last `d` decimal digits of `n`, with zeros in front. */
  function Padded(n: nat, d: nat): (s: string)
    ensures |s| == d
  {
    if d == 0 then "" else Padded(n / 10, d - 1) + [Digit(n % 10)]
  }

  /** The verb %09d: nine columns, of which a sign takes one. */
  function Padded9(n: int): string {
    if n >= 0 then Padded(n, 9)
    else if -n < 100_000_000 then "-" + Padded(-n, 8) else "-" + Padded(-n, 9)
  }

  function TrimSuffix(s: string, suffix: string): string {
    if |s| >= |suffix| && s[|s| - |suffix|..] == suffix then s[..|s| - |suffix|] else s
  }

  function Trim(x: string): string {
    TrimSuffix(TrimSuffix(TrimSuffix(x, "000"), "000"), ".000")
  }

  predicate Writable(s: int, ns: int) {
    -SECOND < ns < SECOND && !(s > 0 && ns < 0) && !(s < 0 && ns > 0)
  }

  /** The text between the quotes; `None` where marshalling fails. */
  function Write(s: int, ns: int): Option<string> {
    if !Writable(s, ns) then None
    else Some(Trim(IntText(s) + "." + Padded9(if s < 0 then -ns else ns)) + "s")
  }

  // ---------------------------------------------------------------------------
  // Reading

  function LeadingDigits(s: string): (n: nat)
    ensures n <= |s|
  {
    if s == "" || DigitValue(s[0]).None? then 0 else 1 + LeadingDigits(s[1..])
  }

  function NatOr0(s: string): nat {
    if ParseNat(s).Some? then ParseNat(s).value else 0
  }

  /** A number and its unit, taken apart. */
  datatype Parts = Parts(whole: string, fraction: string, unit: string)

  function TakeApart(x: string): Parts {
    var i := LeadingDigits(x);
    var rest := x[i..];
    if rest == "" || rest[0] != '.' then Parts(x[..i], "", rest)
    else
      var j := LeadingDigits(rest[1..]);
      Parts(x[..i], rest[1..1 + j], rest[1 + j..])
  }

  /** The nanoseconds, or `None`. */
  function Nanos(p: Parts): Option<nat> {
    if (p.whole == "" && p.fraction == "") || p.unit != "s" || |p.fraction| > 9 then None
    else
      var v := NatOr0(p.whole) * SECOND + NatOr0(p.fraction) * Pow10(9 - |p.fraction|);
      if v > MAX_INT64 then None else Some(v)
  }

  function ParseSeconds(x: string): Option<nat> {
    Nanos(TakeApart(x))
  }

  /** Seconds and nanoseconds, divided as Go divides: towards zero. */
  function Divide(v: nat, neg: bool): (int, int) {
    if neg then (-(v / SECOND), -(v % SECOND)) else (v / SECOND, v % SECOND)
  }

  function Read(x: string): Option<(int, int)> {
    var neg := x != "" && x[0] == '-';
    var v := ParseSeconds(if neg then x[1..] else x);
    if v.None? then None else Some(Divide(v.value, neg))
  }

  // ---------------------------------------------------------------------------
  // Digits

  lemma {:induction false} PaddedReadBack(n: nat, d: nat)
    requires 0 < d && n < Pow10(d)
    ensures ParseNat(Padded(n, d)) == Some(n)
  {
    var s := Padded(n, d);
    assert s[..d - 1] == Padded(n / 10, d - 1);
    if d > 1 {
      PaddedReadBack(n / 10, d - 1);
    }
  }

  predicate AllDigits(s: string) {
    forall i | 0 <= i < |s| :: '0' <= s[i] <= '9'
  }

  lemma {:induction false} PaddedDigits(n: nat, d: nat)
    ensures AllDigits(Padded(n, d))
  {
    if d > 0 {
      PaddedDigits(n / 10, d - 1);
    }
  }

  lemma {:induction false} NatTextDigits(n: nat)
    ensures AllDigits(NatText(n))
  {
    if n >= 10 {
      NatTextDigits(n / 10);
    }
  }

  lemma {:induction false} DigitsEnd(a: string, b: string)
    requires AllDigits(a) && (b == "" || DigitValue(b[0]).None?)
    ensures LeadingDigits(a + b) == |a|
    decreases |a|
  {
    if a == "" {
      assert a + b == b;
    } else {
      assert (a + b)[1..] == a[1..] + b;
      DigitsEnd(a[1..], b);
    }
  }

  lemma ThreeDigits(n: nat)
    ensures n % 1000 % 10 == n % 10 && n % 1000 / 10 % 10 == n / 10 % 10 && n % 1000 / 100 % 10 == n / 100 % 10
    ensures n / 10 / 10 == n / 100 && n / 100 / 10 == n / 1000
  {
    var q, m := n / 1000, n % 1000;
    var a, b, c := m / 100, m / 10 % 10, m % 10;
    assert n == 1000 * q + 100 * a + 10 * b + c && a < 10;
    DivModUnique(n, 10, 100 * q + 10 * a + b, c);
    DivModUnique(n / 10, 10, 10 * q + a, b);
    DivModUnique(n, 100, 10 * q + a, 10 * b + c);
    DivModUnique(n / 100, 10, q, a);
  }

  lemma PaddedThree(m: nat)
    ensures Padded(m, 3) == [Digit(m / 10 / 10 % 10), Digit(m / 10 % 10), Digit(m % 10)]
  {
    assert Padded(m / 10 / 10, 1) == Padded(m / 10 / 10 / 10, 0) + [Digit(m / 10 / 10 % 10)];
    assert Padded(m / 10, 2) == Padded(m / 10 / 10, 1) + [Digit(m / 10 % 10)];
  }

  /** Dropping the last three digits of a padded number divides it by a thousand. */
  lemma PaddedSplit(n: nat, d: nat)
    ensures Padded(n, d + 3) == Padded(n / 1000, d) + Padded(n % 1000, 3)
  {
    ThreeDigits(n);
    PaddedThree(n % 1000);
    assert Padded(n, d + 3) == Padded(n / 10, d + 2) + [Digit(n % 10)];
    assert Padded(n / 10, d + 2) == Padded(n / 100, d + 1) + [Digit(n / 10 % 10)];
    assert Padded(n / 100, d + 1) == Padded(n / 1000, d) + [Digit(n / 100 % 10)];
    assert n % 1000 / 10 / 10 == n % 1000 / 100;
  }

  lemma ThreeZeros(m: nat)
    requires m < 1000
    ensures Padded(m, 3) == "000" <==> m == 0
  {
    PaddedThree(m);
    assert Digit(0) == '0';
  }

  lemma TrimOff(a: string, b: string, suffix: string)
    requires |b| == |suffix|
    ensures TrimSuffix(a + b, suffix) == if b == suffix then a else a + b
  {
    assert (a + b)[|a|..] == b && (a + b)[..|a|] == a;
  }

  /** One step of trimming on a fraction of `d` + 3 digits. */
  lemma TrimStep(head: string, n: nat, d: nat)
    ensures TrimSuffix(head + Padded(n, d + 3), "000") ==
            if n % 1000 == 0 then head + Padded(n / 1000, d) else head + Padded(n, d + 3)
  {
    PaddedSplit(n, d);
    ThreeZeros(n % 1000);
    var a, b := head + Padded(n / 1000, d), Padded(n % 1000, 3);
    assert head + Padded(n, d + 3) == a + b;
    TrimOff(a, b, "000");
  }

  /** How many fractional digits are needed, in groups of three. */
  function Places(ns: nat): nat {
    if ns % 1000 != 0 then 9
    else if ns / 1000 % 1000 != 0 then 6
    else if ns / 1000 / 1000 != 0 then 3
    else 0
  }

  function Fraction(ns: nat): string {
    if ns % 1000 != 0 then "." + Padded(ns, 9)
    else if ns / 1000 % 1000 != 0 then "." + Padded(ns / 1000, 6)
    else if ns / 1000 / 1000 != 0 then "." + Padded(ns / 1000 / 1000, 3)
    else ""
  }

  lemma Powers()
    ensures Pow10(0) == 1 && Pow10(3) == 1000 && Pow10(6) == 1_000_000 && Pow10(9) == 1_000_000_000
  {
    assert Pow10(1) == 10 && Pow10(2) == 100 && Pow10(3) == 1000;
    assert Pow10(4) == 10_000 && Pow10(5) == 100_000 && Pow10(6) == 1_000_000;
    assert Pow10(7) == 10_000_000 && Pow10(8) == 100_000_000;
  }

  /** The last trim: it takes the dot too, and only from a fraction of three zeros. */
  lemma TrimDot(head: string, n: nat)
    requires n < 1000
    ensures TrimSuffix(head + "." + Padded(n, 3), ".000") == if n == 0 then head else head + "." + Padded(n, 3)
  {
    ThreeZeros(n);
    var b := "." + Padded(n, 3);
    assert b == ".000" <==> Padded(n, 3) == "000" by {
      assert b[1..] == Padded(n, 3);
      assert ".000"[1..] == "000";
      assert "." + "000" == ".000";
    }
    assert head + "." + Padded(n, 3) == head + b;
    TrimOff(head, b, ".000");
  }

  lemma NoDotTrim(head: string, n: nat, d: nat)
    requires d >= 4
    ensures TrimSuffix(head + Padded(n, d), ".000") == head + Padded(n, d)
  {
    var x := head + Padded(n, d);
    PaddedDigits(n, d);
    var i := |x| - 4;
    assert x[i..][0] == x[i] == Padded(n, d)[d - 4];
    assert ".000"[0] == '.';
  }

  /** Trimming leaves the fraction with as many digits as it needs. */
  lemma Trimmed(head: string, ns: nat)
    requires ns < SECOND
    ensures Trim(head + "." + Padded(ns, 9)) == head + Fraction(ns)
  {
    var h, k := head + ".", ns / 1000;
    TrimStep(h, ns, 6);
    if ns % 1000 != 0 {
      assert TrimSuffix(h + Padded(ns, 9), "000") == h + Padded(ns, 9);
      NoDotTrim(h, ns, 9);
      Assoc(head, ".", Padded(ns, 9));
    } else {
      TrimStep(h, k, 3);
      if k % 1000 != 0 {
        NoDotTrim(h, k, 6);
        Assoc(head, ".", Padded(k, 6));
      } else {
        TrimDot(head, k / 1000);
        Assoc(head, ".", Padded(k / 1000, 3));
        assert head + "" == head;
      }
    }
  }

  /** `f` is how the fraction is written. */
  predicate IsFraction(f: string, ns: nat) {
    forall now :: IsFractionHere(f, ns, now)
  }

  predicate IsFractionHere(f: string, ns: nat, now: bool) {
    now ==> f == Fraction(ns)
  }

  predicate TrimsTo(x: string, y: string) {
    forall now :: TrimsToHere(x, y, now)
  }

  predicate TrimsToHere(x: string, y: string, now: bool) {
    now ==> Trim(x) == y
  }

  lemma TrimmedText(head: string, ns: nat) returns (f: string)
    requires ns < SECOND
    ensures IsFraction(f, ns) && TrimsTo(head + "." + Padded(ns, 9), head + f)
  {
    Trimmed(head, ns);
    f := Fraction(ns);
    var x, y := head + "." + Padded(ns, 9), head + f;
    assert forall now :: IsFractionHere(f, ns, now);
    assert forall now :: TrimsToHere(x, y, now);
  }

  lemma Thousands(ns: nat)
    ensures ns == 1000 * (ns / 1000) + ns % 1000
    ensures ns % 1_000_000 == 1000 * (ns / 1000 % 1000) + ns % 1000
    ensures ns < SECOND ==> ns / 1000 < 1_000_000 && ns / 1000 / 1000 < 1000
  {
    var k := ns / 1000;
    var m := k / 1000;
    assert ns == 1_000_000 * m + (1000 * (k % 1000) + ns % 1000);
  }

  /** The text has 0, 3, 6 or 9 fractional digits: the fewest that are exact. */
  lemma FractionDigits(ns: nat)
    requires ns < SECOND
    ensures |Fraction(ns)| == if Places(ns) == 0 then 0 else 1 + Places(ns)
    ensures Places(ns) == 0 <==> ns == 0
    ensures Places(ns) <= 3 <==> ns % 1_000_000 == 0
    ensures Places(ns) <= 6 <==> ns % 1000 == 0
  {
    Thousands(ns);
    Thousands(ns / 1000);
  }

  /** The fraction is so many digits of a number that is worth the nanoseconds. */
  lemma FractionForm(ns: nat) returns (m: nat, d: nat)
    requires ns < SECOND
    ensures d in {0, 3, 6, 9} && m < Pow10(d) && ns == m * Pow10(9 - d) && (d > 0 ==> m % 1000 != 0)
    ensures Fraction(ns) == if d == 0 then "" else "." + Padded(m, d)
  {
    Powers();
    Thousands(ns);
    Thousands(ns / 1000);
    if ns % 1000 != 0 {
      m, d := ns, 9;
    } else if ns / 1000 % 1000 != 0 {
      m, d := ns / 1000, 6;
    } else if ns / 1000 / 1000 != 0 {
      m, d := ns / 1000 / 1000, 3;
    } else {
      m, d := 0, 0;
    }
  }

  // ---------------------------------------------------------------------------
  // Reading back

  predicate WorthNanos(x: string, v: nat) {
    forall now :: WorthNanosHere(x, v, now)
  }

  predicate WorthNanosHere(x: string, v: nat, now: bool) {
    now ==> ParseSeconds(x) == if v > MAX_INT64 then None else Some(v)
  }

  lemma ApartWithFraction(w: string, f: string)
    requires AllDigits(w) && AllDigits(f)
    ensures TakeApart(w + ("." + f) + "s") == Parts(w, f, "s")
  {
    var x, rest := w + ("." + f) + "s", "." + f + "s";
    assert x == w + rest;
    DigitsEnd(w, rest);
    assert x[|w|..] == rest && x[..|w|] == w;
    assert rest[1..] == f + "s";
    DigitsEnd(f, "s");
    assert rest[1..1 + |f|] == f && rest[1 + |f|..] == "s";
  }

  lemma ApartWhole(w: string)
    requires AllDigits(w)
    ensures TakeApart(w + "" + "s") == Parts(w, "", "s")
  {
    var x := w + "" + "s";
    assert x == w + "s";
    DigitsEnd(w, "s");
    assert x[|w|..] == "s" && x[..|w|] == w;
  }

  lemma Worth(x: string, p: Parts, v: nat)
    requires TakeApart(x) == p && p.whole != "" && |p.fraction| <= 9 && p.unit == "s"
    requires v == NatOr0(p.whole) * SECOND + NatOr0(p.fraction) * Pow10(9 - |p.fraction|)
    ensures WorthNanos(x, v)
  {
    assert forall now :: WorthNanosHere(x, v, now);
  }

  /** What the parser makes of a whole number and a fraction. */
  lemma ReadParts(w: string, f: string, d: nat)
    requires AllDigits(w) && w != "" && AllDigits(f) && |f| == d && 0 < d <= 9
    ensures WorthNanos(w + ("." + f) + "s", NatOr0(w) * SECOND + NatOr0(f) * Pow10(9 - d))
  {
    ApartWithFraction(w, f);
    Worth(w + ("." + f) + "s", Parts(w, f, "s"), NatOr0(w) * SECOND + NatOr0(f) * Pow10(9 - d));
  }

  lemma ReadWhole(w: string)
    requires AllDigits(w) && w != ""
    ensures WorthNanos(w + "" + "s", NatOr0(w) * SECOND)
  {
    ApartWhole(w);
    assert NatOr0("") == 0;
    Worth(w + "" + "s", Parts(w, "", "s"), NatOr0(w) * SECOND);
  }

  /** The digits written for the fraction are worth the nanoseconds. */
  lemma FractionValue(w: string, f: string, ns: nat)
    requires AllDigits(w) && w != "" && ns < SECOND && IsFraction(f, ns)
    ensures WorthNanos(w + f + "s", NatOr0(w) * SECOND + ns)
  {
    assert IsFractionHere(f, ns, true);
    var m, d := FractionForm(ns);
    FormValue(w, f, m, d, ns);
  }

  lemma FormValue(w: string, f: string, m: nat, d: nat, ns: nat)
    requires AllDigits(w) && w != "" && d <= 9 && m < Pow10(d) && ns == m * Pow10(9 - d)
    requires f == if d == 0 then "" else "." + Padded(m, d)
    ensures WorthNanos(w + f + "s", NatOr0(w) * SECOND + ns)
  {
    if d == 0 {
      ReadWhole(w);
      assert m == 0 && ns == 0;
    } else {
      PaddedDigits(m, d);
      PaddedReadBack(m, d);
      ReadParts(w, Padded(m, d), d);
      assert NatOr0(Padded(m, d)) == m;
    }
  }

  lemma Divided(s: nat, ns: nat, neg: bool)
    requires ns < SECOND
    ensures Divide(s * SECOND + ns, neg) == if neg then (0 - s, 0 - ns) else (s as int, ns as int)
  {
    var v := s * SECOND + ns;
    assert v / SECOND == s && v % SECOND == ns;
  }

  /** What can be read back: not a negative fraction without seconds, and not more nanoseconds than fit in 64 bits. */
  predicate Readable(s: int, ns: int) {
    !(s == 0 && ns < 0) && -MAX_INT64 <= s * SECOND + ns <= MAX_INT64
  }

  lemma NatParse(n: nat)
    ensures NatOr0(NatText(n)) == n && AllDigits(NatText(n))
  {
    NatReadBack(n);
    NatTextDigits(n);
  }

  lemma WriteForm(s: int, ns: int) returns (f: string)
    requires Writable(s, ns) && !(s == 0 && ns < 0)
    ensures IsFraction(f, if s < 0 then -ns else ns) && WritesAs(s, ns, IntText(s) + f + "s")
  {
    var n := if s < 0 then -ns else ns;
    f := TrimmedText(IntText(s), n);
    WriteText(s, ns, IntText(s) + "." + Padded(n, 9), IntText(s) + f);
  }

  lemma WriteText(s: int, ns: int, x: string, y: string)
    requires Writable(s, ns) && !(s == 0 && ns < 0) && x == IntText(s) + "." + Padded(if s < 0 then -ns else ns, 9) && TrimsTo(x, y)
    ensures WritesAs(s, ns, y + "s")
  {
    assert TrimsToHere(x, y, true);
    assert Padded9(if s < 0 then -ns else ns) == Padded(if s < 0 then -ns else ns, 9);
    var z := y + "s";
    assert Write(s, ns) == Some(z);
    assert forall now :: WritesAsHere(s, ns, z, now);
  }

  predicate WritesAs(s: int, ns: int, x: string) {
    forall now :: WritesAsHere(s, ns, x, now)
  }

  predicate WritesAsHere(s: int, ns: int, x: string, now: bool) {
    now ==> Write(s, ns) == Some(x)
  }

  predicate ReadsAs(x: string, v: nat, neg: bool) {
    forall now :: ReadsAsHere(x, v, neg, now)
  }

  predicate ReadsAsHere(x: string, v: nat, neg: bool, now: bool) {
    now ==> Read(x) == if v > MAX_INT64 then None else Some(Divide(v, neg))
  }

  lemma ReadNonNegative(s: nat, f: string, ns: nat)
    requires ns < SECOND && IsFraction(f, ns)
    ensures ReadsAs(NatText(s) + f + "s", s * SECOND + ns, false)
  {
    NatParse(s);
    FractionValue(NatText(s), f, ns);
    ReadBody(NatText(s) + f + "s", s * SECOND + ns, false);
  }

  lemma ReadNegative(s: nat, f: string, ns: nat)
    requires ns < SECOND && IsFraction(f, ns)
    ensures ReadsAs("-" + NatText(s) + f + "s", s * SECOND + ns, true)
  {
    NatParse(s);
    FractionValue(NatText(s), f, ns);
    ReadBody(NatText(s) + f + "s", s * SECOND + ns, true);
    assert "-" + (NatText(s) + f + "s") == "-" + NatText(s) + f + "s";
  }

  lemma ReadBody(body: string, v: nat, neg: bool)
    requires body != "" && body[0] != '-' && WorthNanos(body, v)
    ensures ReadsAs(if neg then "-" + body else body, v, neg)
  {
    assert WorthNanosHere(body, v, true);
    var x := if neg then "-" + body else body;
    assert neg ==> x[1..] == body;
    assert forall now :: ReadsAsHere(x, v, neg, now);
  }

  /** Trimming does not reach past a character that is in none of the suffixes. */
  lemma TrimKeeps(x: string, suffix: string, p: nat)
    requires p < |x| && x[p] !in suffix
    ensures var y := TrimSuffix(x, suffix); p < |y| && y[p] == x[p] && y[..p] == x[..p]
  {
    var k := |x| - |suffix|;
    if 0 <= k <= p {
      assert x[k..][p - k] == x[p];
    }
  }

  /** A negative fraction without seconds is written with the sign behind the dot, which is not a number. */
  lemma NegativeFraction(ns: int)
    requires -SECOND < ns < 0
    ensures Write(0, ns).Some? && Read(Write(0, ns).value).None?
  {
    var x := IntText(0) + "." + Padded9(ns);
    assert IntText(0) == "0" && x[0] == '0' && x[1] == '.' && x[2] == '-';
    TrimKeeps(x, "000", 2);
    var y := TrimSuffix(x, "000");
    TrimKeeps(y, "000", 2);
    var z := TrimSuffix(y, "000");
    TrimKeeps(z, ".000", 2);
    var t := Trim(x);
    assert t[0] == x[..2][0] && t[1] == x[..2][1] by {
      assert t[..2] == z[..2] == y[..2] == x[..2];
    }
    var w := t + "s";
    assert w[0] == '0' && w[1] == '.' && w[2] == '-';
    DigitsEnd("0", w[1..]);
    assert w == "0" + w[1..];
    assert w[1..][1..][0] == '-';
    assert LeadingDigits(w[1..][1..]) == 0;
    assert w[1..][1..] != "s";
  }

  lemma ReadableNanos(s: int, ns: int)
    requires Writable(s, ns) && !(s == 0 && ns < 0)
    ensures var v := if s < 0 then -s * SECOND - ns else s * SECOND + ns;
            v >= 0 && (v <= MAX_INT64 <==> Readable(s, ns)) && Divide(v, s < 0) == (s, ns)
  {
    if s < 0 {
      Divided(-s, -ns, true);
    } else {
      Divided(s, ns, false);
    }
  }

  lemma WrittenIsRead(s: int, ns: int) returns (x: string)
    requires Writable(s, ns) && !(s == 0 && ns < 0)
    ensures WritesAs(s, ns, x) && ReadsAs(x, if s < 0 then -s * SECOND - ns else s * SECOND + ns, s < 0)
  {
    var f := WriteForm(s, ns);
    x := IntText(s) + f + "s";
    if s < 0 {
      ReadNegative(-s, f, -ns);
      assert x == "-" + NatText(-s) + f + "s";
      assert (-s) * SECOND + (-ns) == -s * SECOND - ns;
    } else {
      ReadNonNegative(s, f, ns);
    }
  }

  /** A duration that can be written is read back as it was if and only if it is readable; otherwise reading fails. */
  lemma DurationRoundTrip(s: int, ns: int)
    requires Writable(s, ns)
    ensures Write(s, ns).Some?
    ensures Read(Write(s, ns).value) == if Readable(s, ns) then Some((s, ns)) else None
  {
    if s == 0 && ns < 0 {
      NegativeFraction(ns);
    } else {
      var x := WrittenIsRead(s, ns);
      ReadableNanos(s, ns);
      assert WritesAsHere(s, ns, x, true);
      assert ReadsAsHere(x, if s < 0 then -s * SECOND - ns else s * SECOND + ns, s < 0, true);
    }
  }

  /** Each character of a padded number is the decimal digit of its position. */
  lemma {:induction false} PaddedAt(n: nat, d: nat, k: nat)
    requires k < d
    ensures Pow10(k) > 0 && Padded(n, d)[d - 1 - k] == "0123456789"[n / Pow10(k) % 10]
    decreases k
  {
    Pow10Positive(k);
    if k > 0 {
      PaddedAt(n / 10, d - 1, k - 1);
      DivTwice(n, Pow10(k - 1));
    } else {
      TenDigits(n % 10);
    }
  }

  /**
   The text of a duration: the seconds, signed, then a dot and 3, 6 or 9 digits of the
   fraction unless that is zero, then the unit; the last three digits are not all zero.
   */
  lemma WrittenForm(s: int, ns: int) returns (m: nat, d: nat)
    requires Writable(s, ns) && !(s == 0 && ns < 0)
    ensures d in {0, 3, 6, 9} && m < Pow10(d) && m * Pow10(9 - d) == (if ns < 0 then -ns else ns) && (d > 0 ==> m % 1000 != 0)
    ensures Write(s, ns) == Some(IntText(s) + (if d == 0 then "" else "." + Padded(m, d)) + "s")
  {
    var f := WriteForm(s, ns);
    var n := if s < 0 then -ns else ns;
    m, d := FractionForm(n);
    assert IsFractionHere(f, n, true);
    assert WritesAsHere(s, ns, IntText(s) + f + "s", true);
  }

  /** A duration can be written if and only if it has less than a second of nanoseconds, of no other sign than its seconds. */
  lemma WritableExactly(s: int, ns: int)
    ensures Write(s, ns).Some? <==> -1_000_000_000 < ns < 1_000_000_000 && s * ns >= 0
  {
    assert s > 0 && ns < 0 ==> s * ns < 0;
    assert s < 0 && ns > 0 ==> s * ns < 0;
  }
}
