/** Decimal text of integers, as encoding/json and fmt write and read it. */
module DecimalText {
  import opened Common

  function Digit(d: nat): char
    requires d < 10
  {
    ('0' as int + d) as char
  }

  function DigitValue(c: char): Option<nat> {
    if '0' <= c <= '9' then Some(c as int - '0' as int) else None
  }

  function NatText(n: nat): (s: string)
    ensures s != "" && '0' <= s[0] <= '9'
  {
    if n < 10 then [Digit(n)] else NatText(n / 10) + [Digit(n % 10)]
  }

  function ParseNat(s: string): Option<nat> {
    if s == "" then None
    else
      var n := |s| - 1;
      var d := DigitValue(s[n]);
      if n == 0 || d.None? then d
      else
        var hi := ParseNat(s[..n]);
        if hi.None? then None else Some(10 * hi.value + d.value)
  }

  function IntText(n: int): (s: string)
    ensures s != "" && (s[0] == '-' || '0' <= s[0] <= '9')
  {
    if n < 0 then "-" + NatText(-n) else NatText(n)
  }

  function Negate(n: int): int {
    -n
  }

  function ParseInt(s: string): Option<int> {
    if s != "" && s[0] == '-' then
      var n := ParseNat(s[1..]);
      if n.None? then None else Some(Negate(n.value))
    else ParseNat(s)
  }

  /** A zero in front of other digits. */
  predicate LeadingZero(s: string) {
    var t := if s != "" && s[0] == '-' then s[1..] else s;
    |t| > 1 && t[0] == '0'
  }

  lemma {:induction false} NatNoLeadingZero(n: nat)
    ensures NatText(n)[0] == '0' ==> n == 0
  {
    if n >= 10 {
      NatNoLeadingZero(n / 10);
      assert NatText(n)[0] == NatText(n / 10)[0];
    }
  }

  lemma IntNoLeadingZero(n: int)
    ensures !LeadingZero(IntText(n)) && (IntText(n)[0] == '-' <==> n < 0)
  {
    if n < 0 {
      NatNoLeadingZero(-n);
      assert ("-" + NatText(-n))[1..] == NatText(-n);
    } else {
      NatNoLeadingZero(n);
    }
  }

  lemma {:induction false} NatReadBack(n: nat)
    ensures ParseNat(NatText(n)) == Some(n)
  {
    if n >= 10 {
      NatReadBack(n / 10);
      var s := NatText(n);
      assert s[..|s| - 1] == NatText(n / 10);
    }
  }

  lemma ParseMinus(t: string)
    requires ParseNat(t).Some?
    ensures ParseInt("-" + t) == Some(Negate(ParseNat(t).value))
  {
    assert ("-" + t)[1..] == t;
  }

  lemma IntReadBack(n: int)
    ensures ParseInt(IntText(n)) == Some(n)
  {
    if n < 0 {
      NatReadBack(-n);
      ParseMinus(NatText(-n));
    } else {
      NatReadBack(n);
    }
  }

  // ---------------------------------------------------------------------------
  // What the text is

  function Pow10(d: nat): nat {
    if d == 0 then 1 else 10 * Pow10(d - 1)
  }

  /** Each character of a number's text is the decimal digit of its position, the last for the units. */
  lemma {:induction false} DigitAt(n: nat, k: nat)
    requires k < |NatText(n)|
    ensures Pow10(k) > 0 && NatText(n)[|NatText(n)| - 1 - k] == "0123456789"[n / Pow10(k) % 10]
    decreases k
  {
    Pow10Positive(k);
    if k > 0 {
      DigitAt(n / 10, k - 1);
      DivTwice(n, Pow10(k - 1));
    } else {
      TenDigits(n % 10);
    }
  }

  lemma TenDigits(d: nat)
    requires d < 10
    ensures Digit(d) == "0123456789"[d]
  {
  }

  lemma {:induction false} Pow10Positive(k: nat)
    ensures Pow10(k) > 0
  {
    if k > 0 {
      Pow10Positive(k - 1);
    }
  }

  lemma DivTwice(n: nat, p: nat)
    requires p > 0
    ensures n / 10 / p == n / (10 * p)
  {
    var q, r, s := n / 10 / p, n / 10 % p, n % 10;
    assert n / 10 == q * p + r && n == 10 * (n / 10) + s;
    assert n == q * (10 * p) + (10 * r + s);
    DivModUnique(n, 10 * p, q, 10 * r + s);
  }

  /** There are as many characters as the number needs. */
  lemma {:induction false} TextLength(n: nat)
    ensures var l := |NatText(n)|; n < Pow10(l) && (n > 0 ==> Pow10(l - 1) <= n) && (n == 0 ==> l == 1)
  {
    if n >= 10 {
      TextLength(n / 10);
    } else {
      assert Pow10(0) == 1 && Pow10(1) == 10;
    }
  }

  /** A negative number has a minus sign in front of the text of its magnitude, and no other text has one. */
  lemma SignIs(n: int)
    ensures n < 0 <==> IntText(n)[0] == '-'
    ensures (n < 0 ==> IntText(n)[1..] == NatText(-n)) && (n >= 0 ==> IntText(n) == NatText(n))
  {
    assert n < 0 ==> ("-" + NatText(-n))[1..] == NatText(-n);
  }
}
