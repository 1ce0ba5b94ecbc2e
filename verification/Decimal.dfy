/** Decimal numerals as the shell prints them and reads them back. */
module Decimal {
  import opened Wrappers

  function DigitChar(d: nat): char
    requires d < 10
  {
    '0' + (d as char)
  }

  predicate IsDigit(c: char) {
    '0' <= c <= '9'
  }

  predicate AllDigits(s: string) {
    forall i | 0 <= i < |s| :: IsDigit(s[i])
  }

  function PrintNat(n: nat): (s: string)
    ensures s != [] && AllDigits(s)
  {
    if n < 10 then [DigitChar(n)] else PrintNat(n / 10) + [DigitChar(n % 10)]
  }

  function DigitsValue(s: string): nat
    requires AllDigits(s)
  {
    if s == [] then 0
    else 10 * DigitsValue(s[..|s| - 1]) + (s[|s| - 1] as int - '0' as int)
  }

  lemma {:induction false} PrintedValue(n: nat)
    ensures DigitsValue(PrintNat(n)) == n
  {
    var s := PrintNat(n);
    if n >= 10 {
      PrintedValue(n / 10);
      assert s[..|s| - 1] == PrintNat(n / 10);
    } else {
      assert s[..|s| - 1] == [];
    }
  }

  /** Reads a numeral with an optional sign; a minus is refused when no negative number is in range. */
  function ParseInt(s: string, low: int, high: int): Option<int> {
    var signed := s != [] && (s[0] == '+' || (s[0] == '-' && low < 0));
    var digits := if signed then s[1..] else s;
    if digits == [] || !AllDigits(digits) then None
    else
      var v := if signed && s[0] == '-' then -(DigitsValue(digits) as int) else DigitsValue(digits);
      if low <= v <= high then Some(v) else None
  }

  /** A printed number reads back as itself exactly when it fits the type it is read into. */
  lemma ReadsBack(n: nat, low: int, high: int)
    requires low <= 0
    ensures ParseInt(PrintNat(n), low, high) == if n <= high then Some(n) else None
  {
    PrintedValue(n);
    assert IsDigit(PrintNat(n)[0]);
  }
}
