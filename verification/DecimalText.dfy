/** Unsigned decimal text: std::to_string, and reading a run of digits back. */
module DecimalText {
  import opened Common

  predicate IsDigit(c: char) {
    '0' <= c <= '9'
  }

  predicate AllDigits(s: string) {
    forall i | 0 <= i < |s| :: IsDigit(s[i])
  }

  function DigitOf(n: nat): char
    requires n < 10
  {
    '0' + n as char
  }

  function ValueOf(c: char): nat
    requires IsDigit(c)
  {
    (c - '0') as nat
  }

  /** std::to_string for an unsigned value. */
  function Decimal(n: nat): string {
    if n < 10 then [DigitOf(n)] else Decimal(n / 10) + [DigitOf(n % 10)]
  }

  function NumberOf(s: string): nat
    requires AllDigits(s)
  {
    if s == "" then 0 else 10 * NumberOf(s[..|s| - 1]) + ValueOf(s[|s| - 1])
  }

  predicate NoLeadingZero(s: string) {
    |s| > 1 ==> s[0] != '0'
  }

  /** Digits and their values are inverse to each other. */
  lemma DigitInverse(n: nat, c: char)
    requires n < 10 && IsDigit(c)
    ensures IsDigit(DigitOf(n)) && ValueOf(DigitOf(n)) == n
    ensures ValueOf(c) < 10 && DigitOf(ValueOf(c)) == c
  {
  }

  lemma {:induction false} DecimalIsCanonical(n: nat)
    ensures AllDigits(Decimal(n)) && Decimal(n) != "" && NoLeadingZero(Decimal(n))
    ensures n > 0 ==> Decimal(n)[0] != '0'
    ensures NumberOf(Decimal(n)) == n
  {
    DigitInverse(n % 10, '0');
    if n >= 10 {
      DecimalIsCanonical(n / 10);
      assert Decimal(n)[..|Decimal(n)| - 1] == Decimal(n / 10);
    } else {
      assert NumberOf(Decimal(n)[..0]) == 0;
    }
  }

  lemma DecimalSnoc(n: nat, c: char)
    requires n > 0 && IsDigit(c)
    ensures Decimal(10 * n + ValueOf(c)) == Decimal(n) + [c]
  {
    DigitInverse(0, c);
  }

  lemma {:induction false} CanonicalIsDecimal(s: string)
    requires AllDigits(s) && s != "" && NoLeadingZero(s)
    ensures s == Decimal(NumberOf(s))
    ensures s[0] != '0' ==> NumberOf(s) > 0
  {
    var init, c := s[..|s| - 1], s[|s| - 1];
    assert s == init + [c];
    DigitInverse(0, c);
    if init == "" {
      assert NumberOf(s) == ValueOf(c);
    } else {
      CanonicalIsDecimal(init);
      DecimalSnoc(NumberOf(init), c);
    }
  }

  /** A longer run of digits never denotes less: once a prefix overflows, the whole does. */
  lemma {:induction false} NumberGrows(s: string, k: nat)
    requires AllDigits(s) && k <= |s|
    ensures NumberOf(s[..k]) <= NumberOf(s)
    decreases |s|
  {
    if k < |s| {
      NumberGrows(s[..|s| - 1], k);
      assert s[..|s| - 1][..k] == s[..k];
    } else {
      assert s[..k] == s;
    }
  }

  function DigitRun(s: string): (k: nat)
    ensures k <= |s| && AllDigits(s[..k])
    ensures k < |s| ==> !IsDigit(s[k])
  {
    if s != "" && IsDigit(s[0]) then
      assert s[..1 + DigitRun(s[1..])] == [s[0]] + s[1..][..DigitRun(s[1..])];
      1 + DigitRun(s[1..])
    else 0
  }

  predicate NoDigitNext(s: string) {
    s == "" || !IsDigit(s[0])
  }

  lemma {:induction false} RunIs(digits: string, rest: string)
    requires AllDigits(digits) && NoDigitNext(rest)
    ensures DigitRun(digits + rest) == |digits|
    decreases |digits|
  {
    if digits == "" {
      assert digits + rest == rest;
    } else {
      assert (digits + rest)[1..] == digits[1..] + rest;
      RunIs(digits[1..], rest);
    }
  }

  lemma NumberOfNothing(s: string)
    requires s == ""
    ensures NumberOf(s) == 0
  {
  }

  lemma DigitStep(t: string, k: nat)
    requires k < DigitRun(t)
    ensures IsDigit(t[k]) && AllDigits(t[..k]) && AllDigits(t[..k + 1])
    ensures NumberOf(t[..k + 1]) == 10 * NumberOf(t[..k]) + ValueOf(t[k])
  {
    assert t[k] == t[..DigitRun(t)][k];
    assert forall i | 0 <= i <= k :: t[i] == t[..DigitRun(t)][i];
    assert t[..k + 1][..k] == t[..k];
  }

  lemma OverflowStays(t: string, k: nat)
    requires k <= DigitRun(t) && AllDigits(t[..k]) && NumberOf(t[..k]) >= U64
    ensures NumberOf(t[..DigitRun(t)]) >= U64
  {
    NumberGrows(t[..DigitRun(t)], k);
    assert t[..DigitRun(t)][..k] == t[..k];
  }
}
