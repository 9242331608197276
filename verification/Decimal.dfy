/** Decimal numerals: how lengths, integers and array indices are spelled, and how they are read back. */
module Decimal {

  function DigitChar(d: nat): (c: char)
    requires d < 10
    ensures IsDigit(c) && DigitValue(c) == d
  {
    '0' + d as char
  }

  predicate IsDigit(c: char) {
    '0' <= c <= '9'
  }

  function DigitValue(c: char): nat
    requires IsDigit(c)
  {
    c as int - '0' as int
  }

  predicate AllDigits(s: string) {
    forall i :: 0 <= i < |s| ==> IsDigit(s[i])
  }

  /** The numeral of a number, without leading zeros. */
  function Numeral(n: nat): (s: string)
    ensures s != [] && AllDigits(s)
  {
    if n < 10 then [DigitChar(n)] else Numeral(n / 10) + [DigitChar(n % 10)]
  }

  function ValueOf(s: string): nat
    requires AllDigits(s)
  {
    if s == [] then 0 else 10 * ValueOf(s[..|s| - 1]) + DigitValue(s[|s| - 1])
  }

  predicate LeadingZero(s: string) {
    |s| > 1 && s[0] == '0'
  }

  lemma {:induction false} NumeralRoundTrip(n: nat)
    ensures ValueOf(Numeral(n)) == n
    ensures !LeadingZero(Numeral(n))
    ensures Numeral(n)[0] == '0' <==> n == 0
    decreases n
  {
    if n >= 10 {
      NumeralRoundTrip(n / 10);
      assert Numeral(n)[..|Numeral(n)| - 1] == Numeral(n / 10);
    }
  }

  lemma NumeralInjective(m: nat, n: nat)
    requires Numeral(m) == Numeral(n)
    ensures m == n
  {
    NumeralRoundTrip(m);
    NumeralRoundTrip(n);
  }

  lemma {:induction false} ValuePositive(s: string)
    requires AllDigits(s) && s != [] && s[0] != '0'
    ensures ValueOf(s) > 0
    decreases |s|
  {
    if |s| > 1 {
      ValuePositive(s[..|s| - 1]);
    }
  }

  /** A digit string without leading zeros is the numeral of its value. */
  lemma {:induction false} ValueRoundTrip(s: string)
    requires AllDigits(s) && s != [] && !LeadingZero(s)
    ensures Numeral(ValueOf(s)) == s
    decreases |s|
  {
    var front := s[..|s| - 1];
    assert s == front + [s[|s| - 1]];
    if front == [] {
      assert ValueOf(front) == 0;
    } else {
      ValuePositive(front);
      ValueRoundTrip(front);
      assert ValueOf(s) / 10 == ValueOf(front) && ValueOf(s) % 10 == DigitValue(s[|s| - 1]);
    }
  }

  function Zeros(k: nat): (s: string)
    ensures AllDigits(s)
  {
    if k == 0 then "" else "0" + Zeros(k - 1)
  }

  lemma {:induction false} ZeroInFront(s: string)
    requires AllDigits(s)
    ensures ValueOf("0" + s) == ValueOf(s)
    decreases |s|
  {
    if s == "" {
      assert ("0" + s)[..0] == "";
    } else {
      var front := s[..|s| - 1];
      ZeroInFront(front);
      assert ("0" + s)[..|s|] == "0" + front;
    }
  }

  lemma {:induction false} ZerosInFront(k: nat, s: string)
    requires AllDigits(s)
    ensures ValueOf(Zeros(k) + s) == ValueOf(s)
  {
    if k == 0 {
      assert Zeros(k) + s == s;
    } else {
      ZerosInFront(k - 1, s);
      OneZeroMore(k, s);
      ZeroInFront(Zeros(k - 1) + s);
    }
  }

  lemma OneZeroMore(k: nat, s: string)
    requires k > 0
    ensures Zeros(k) + s == "0" + (Zeros(k - 1) + s)
  {
  }

  /** A digit string is the numeral of its value behind some zeros. */
  lemma {:induction false} PaddedNumeral(s: string) returns (k: nat)
    requires AllDigits(s) && s != []
    ensures s == Zeros(k) + Numeral(ValueOf(s))
    decreases |s|
  {
    if LeadingZero(s) {
      k := PaddedNumeral(s[1..]);
      assert s == "0" + s[1..];
      ZeroInFront(s[1..]);
      k := k + 1;
    } else {
      k := 0;
      ValueRoundTrip(s);
      assert Zeros(0) + s == s;
    }
  }

  /** How many leading characters of a text are digits. */
  function DigitRun(s: string): (k: nat)
    ensures k <= |s|
    ensures forall i :: 0 <= i < k ==> IsDigit(s[i])
    ensures k < |s| ==> !IsDigit(s[k])
  {
    if s == [] || !IsDigit(s[0]) then 0 else 1 + DigitRun(s[1..])
  }

  lemma DigitRunStops(digits: string, rest: string)
    requires AllDigits(digits) && (rest == [] || !IsDigit(rest[0]))
    ensures DigitRun(digits + rest) == |digits|
    ensures (digits + rest)[..|digits|] == digits && (digits + rest)[|digits|..] == rest
  {
    var s := digits + rest;
    assert forall i :: 0 <= i < |digits| ==> IsDigit(s[i]);
    assert rest != [] ==> s[|digits|] == rest[0];
  }
}
