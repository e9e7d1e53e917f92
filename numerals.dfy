/**
 * Decimal rendering of integers, as Python's `str(int)` produces it: no
 * leading zeros and a leading '-' for negative numbers. The ledger record's
 * partition key is the transaction number rendered this way
 * (`str(LATEST_TXN_NUMBER)` in `main`).
 */
module Numerals {

  predicate IsDigit(c: char) {
    '0' <= c <= '9'
  }

  function DigitChar(d: nat): (c: char)
    requires d < 10
    ensures IsDigit(c) && c as int - '0' as int == d
  {
    "0123456789"[d]
  }

  /** The value of a non-empty run of decimal digits, as Python's `int()`
      reads it. */
  function DigitsValue(s: string): nat
    requires forall i | 0 <= i < |s| :: IsDigit(s[i])
    decreases |s|
  {
    if s == [] then 0
    else
      assert IsDigit(s[|s| - 1]);
      DigitsValue(s[..|s| - 1]) * 10 + (s[|s| - 1] as int - '0' as int)
  }

  /** `str(n)` for a Python int n >= 0. */
  function NatToString(n: nat): (s: string)
    ensures 0 < |s|
    ensures forall i | 0 <= i < |s| :: IsDigit(s[i])
    ensures (n < 10) == (|s| == 1)
  {
    if n < 10 then [DigitChar(n)] else NatToString(n / 10) + [DigitChar(n % 10)]
  }

  /** `int(str(n)) == n` for naturals. */
  lemma {:induction false} NatToStringRoundTrip(n: nat)
    ensures DigitsValue(NatToString(n)) == n
  {
    if n >= 10 {
      var s := NatToString(n);
      assert s[..|s| - 1] == NatToString(n / 10);
      NatToStringRoundTrip(n / 10);
    } else {
      assert NatToString(n)[..0] == [];
    }
  }

  /** An optional '-' followed by at least one digit. */
  predicate IsNumeral(s: string) {
    && 0 < |s|
    && (s[0] == '-' ==> 1 < |s|)
    && (forall i | 0 <= i < |s| :: (i == 0 && s[0] == '-') || IsDigit(s[i]))
  }

  /** `int(s)` for a numeral. */
  function NumeralValue(s: string): int
    requires IsNumeral(s)
  {
    if s[0] == '-' then -(DigitsValue(s[1..]) as int) else DigitsValue(s)
  }

  /** `str(i)` for a Python int. */
  function IntToString(i: int): (s: string)
    ensures 0 < |s|
    ensures s[0] == '-' || IsDigit(s[0])
    ensures (s[0] == '-') == (i < 0)
  {
    if i < 0 then "-" + NatToString(-i) else NatToString(i)
  }

  /** `int(str(i)) == i`: the rendering is a numeral and reads back as i. */
  lemma IntToStringRoundTrip(i: int)
    ensures IsNumeral(IntToString(i)) && NumeralValue(IntToString(i)) == i
  {
    var s := IntToString(i);
    if i < 0 {
      var d := NatToString(-i);
      assert s == "-" + d;
      assert s[1..] == d;
      forall j | 0 <= j < |s| ensures (j == 0 && s[0] == '-') || IsDigit(s[j]) {
        if j > 0 { assert s[j] == d[j - 1]; }
      }
      NatToStringRoundTrip(-i);
    } else {
      assert s == NatToString(i);
      NatToStringRoundTrip(i);
    }
  }

  /** `str(n)` has no leading zero: it starts with '0' only for n == 0. */
  lemma {:induction false} NatToStringNoLeadingZero(n: nat)
    ensures (NatToString(n)[0] == '0') == (n == 0)
  {
    if n >= 10 {
      NatToStringNoLeadingZero(n / 10);
      assert NatToString(n)[0] == NatToString(n / 10)[0];
    }
  }

  /** `str(i)` has no leading zero after the sign, and never renders "-0". */
  lemma IntToStringNoLeadingZero(i: int)
    ensures (IntToString(i)[0] == '0') == (i == 0)
    ensures IntToString(i)[0] == '-' ==> 1 < |IntToString(i)| && IntToString(i)[1] != '0'
  {
    if i < 0 {
      NatToStringNoLeadingZero(-i);
      assert IntToString(i)[1] == NatToString(-i)[0];
    } else {
      NatToStringNoLeadingZero(i);
    }
  }

  /** Distinct naturals have distinct renderings. */
  lemma NatToStringInjective(a: nat, b: nat)
    requires NatToString(a) == NatToString(b)
    ensures a == b
  {
    NatToStringRoundTrip(a);
    NatToStringRoundTrip(b);
  }

  /** Distinct integers have distinct renderings, so distinct transaction
      numbers give distinct record keys. */
  lemma IntToStringInjective(a: int, b: int)
    requires IntToString(a) == IntToString(b)
    ensures a == b
  {
    IntToStringRoundTrip(a);
    IntToStringRoundTrip(b);
  }

  /** A string whose first character is neither a digit nor '-' is not the
      rendering of any integer. */
  predicate NotANumeral(s: string) {
    s == [] || (s[0] != '-' && !IsDigit(s[0]))
  }

  lemma NumeralsAreNotOthers(s: string, i: int)
    requires NotANumeral(s)
    ensures IntToString(i) != s
  {
  }
}
