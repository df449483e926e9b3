// Decimal numerals as JavaScript writes and reads them: the text of a number in
// a template literal, and array indices, which JavaScript property keys carry
// as canonical decimal strings ("0", "1", ..., never "01").
module Numerals {
  import opened Wrappers

  predicate IsDigit(c: char) { '0' <= c <= '9' }

  function DigitChar(d: nat): (c: char)
    requires d < 10
    ensures IsDigit(c) && c as int - '0' as int == d
  {
    ['0', '1', '2', '3', '4', '5', '6', '7', '8', '9'][d]
  }

  function DigitValue(c: char): nat
    requires IsDigit(c)
  {
    c as int - '0' as int
  }

  /** The decimal text of n, without leading zeros. */
  function NatStr(n: nat): (s: string)
    ensures |s| > 0
    decreases n
  {
    if n < 10 then [DigitChar(n)] else NatStr(n / 10) + [DigitChar(n % 10)]
  }

  /** `${n}` for an integer n. */
  function IntStr(n: int): (s: string)
    ensures |s| > 0
  {
    if n < 0 then "-" + NatStr(-n) else NatStr(n)
  }

  predicate AllDigits(s: string) { forall i :: 0 <= i < |s| ==> IsDigit(s[i]) }

  /** A canonical array index: non-empty, digits only, no leading zero unless "0". */
  predicate IsIndexKey(s: string)
  {
    |s| > 0 && AllDigits(s) && (|s| == 1 || s[0] != '0')
  }

  function DigitsValue(s: string): nat
    requires AllDigits(s)
    decreases |s|
  {
    if |s| == 0 then 0 else 10 * DigitsValue(s[..|s| - 1]) + DigitValue(s[|s| - 1])
  }

  /** The array index a property key denotes, if any. */
  function ParseIndex(s: string): (r: Option<nat>)
  {
    if IsIndexKey(s) then Some(DigitsValue(s)) else None
  }

  lemma {:induction false} NatStrCanonical(n: nat)
    ensures IsIndexKey(NatStr(n)) && DigitsValue(NatStr(n)) == n
    decreases n
  {
    if n >= 10 {
      NatStrCanonical(n / 10);
      var s := NatStr(n);
      var t := NatStr(n / 10);
      assert s == t + [DigitChar(n % 10)];
      assert s[..|s| - 1] == t;
      assert s[0] == t[0];
      if |t| == 1 {
        assert t[0] != '0';
      }
    }
  }

  /** Rendering an index and reading it back gives the index. */
  lemma ParseNatStr(n: nat)
    ensures ParseIndex(NatStr(n)) == Some(n)
  {
    NatStrCanonical(n);
  }

  lemma {:induction false} LeadingDigitPositive(s: string)
    requires IsIndexKey(s) && |s| > 1
    ensures DigitsValue(s) >= 10
    decreases |s|
  {
    var t := s[..|s| - 1];
    assert t[0] == s[0];
    if |t| > 1 {
      assert IsIndexKey(t);
      LeadingDigitPositive(t);
    } else {
      assert DigitsValue(t) == 10 * DigitsValue(t[..0]) + DigitValue(t[0]);
      assert t[..0] == [];
    }
  }

  /** Every canonical index key is the rendering of the index it denotes. */
  lemma {:induction false} NatStrParse(s: string)
    requires IsIndexKey(s)
    ensures NatStr(DigitsValue(s)) == s
    decreases |s|
  {
    if |s| == 1 {
      assert s[..0] == [];
      assert DigitsValue(s) == DigitValue(s[0]);
      assert NatStr(DigitsValue(s)) == [DigitChar(DigitValue(s[0]))];
    } else {
      var t := s[..|s| - 1];
      assert t[0] == s[0];
      assert IsIndexKey(t);
      NatStrParse(t);
      LeadingDigitPositive(s);
      var v := DigitsValue(s);
      assert v / 10 == DigitsValue(t) && v % 10 == DigitValue(s[|s| - 1]);
      assert s == t + [s[|s| - 1]];
    }
  }

  /** Distinct indices have distinct keys. */
  lemma NatStrInjective(m: nat, n: nat)
    requires NatStr(m) == NatStr(n)
    ensures m == n
  {
    ParseNatStr(m);
    ParseNatStr(n);
  }
}
