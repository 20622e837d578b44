/** pkg/controllers/statelessloadbalancer/endpoint/identifier.go together with the
    decimal conversions it relies on. */
module Identifier {
  import opened Prelude

  predicate IsDigit(c: char) {
    '0' <= c <= '9'
  }

  function DigitValue(c: char): (d: nat)
    requires IsDigit(c)
  {
    (c as int) - ('0' as int)
  }

  function DigitChar(d: nat): (c: char)
    requires d < 10
    ensures IsDigit(c) && DigitValue(c) == d
  {
    (('0' as int) + d) as char
  }

  predicate AllDigits(s: string) {
    forall i :: 0 <= i < |s| ==> IsDigit(s[i])
  }

  function DigitsValue(s: string): nat
    requires AllDigits(s)
  {
    if s == [] then 0 else 10 * DigitsValue(s[..|s| - 1]) + DigitValue(s[|s| - 1])
  }

  function PrintNat(n: nat): (s: string)
    ensures s != [] && AllDigits(s)
  {
    if n < 10 then [DigitChar(n)] else PrintNat(n / 10) + [DigitChar(n % 10)]
  }

  /** The shortest decimal spelling, as the standard printer produces it. */
  function Itoa(n: int): string {
    if n < 0 then ['-'] + PrintNat(-n) else PrintNat(n)
  }

  predicate InRange(n: int) {
    MIN_INT <= n <= MAX_INT
  }

  /** An optional sign, at least one digit, nothing else, and a value that fits 64 bits. */
  function Atoi(s: string): (r: Option<int>)
    ensures r.Some? ==> InRange(r.value)
  {
    var signed := s != [] && (s[0] == '-' || s[0] == '+');
    var digits := if signed then s[1..] else s;
    if digits == [] || !AllDigits(digits) then None
    else
      var magnitude: int := DigitsValue(digits);
      var v := if signed && s[0] == '-' then -magnitude else magnitude;
      if InRange(v) then Some(v) else None
  }

  lemma {:induction false} PrintNatValue(n: nat)
    ensures DigitsValue(PrintNat(n)) == n
  {
    if n >= 10 {
      PrintNatValue(n / 10);
      var s := PrintNat(n);
      assert s[..|s| - 1] == PrintNat(n / 10);
    } else {
      assert DigitsValue([DigitChar(n)]) == n by {
        assert [DigitChar(n)][..0] == [];
      }
    }
  }

  /** Every 64-bit identifier survives being printed and parsed back, so distinct
      identifiers are printed differently. */
  lemma AtoiItoa(n: int)
    ensures Atoi(Itoa(n)) == if InRange(n) then Some(n) else None
  {
    var digits := PrintNat(if n < 0 then -n else n);
    PrintNatValue(if n < 0 then -n else n);
    assert IsDigit(digits[0]) && digits[0] != '-' && digits[0] != '+';
    hide PrintNat, DigitsValue, AllDigits;
    if n < 0 {
      assert Itoa(n) == ['-'] + digits && Itoa(n)[1..] == digits;
    }
  }

  /** A text that states a number: digits, with or without a sign. */
  ghost predicate Writes(s: string, n: int, digits: string) {
    && digits != "" && (forall i :: 0 <= i < |digits| ==> '0' <= digits[i] <= '9')
    && ((s == digits && n == DigitsValue(digits)) || (s == "+" + digits && n == DigitsValue(digits))
        || (s == "-" + digits && -n == DigitsValue(digits)))
  }

  /** Exactly the texts that write a 64-bit number are read, as this number. */
  lemma AtoiExactly(s: string, n: int)
    ensures Atoi(s) == Some(n) <==>
              -0x8000_0000_0000_0000 <= n <= 0x7FFF_FFFF_FFFF_FFFF && exists digits :: Writes(s, n, digits)
  {
    if digits :| Writes(s, n, digits) {
      assert digits[0] != '-' && digits[0] != '+';
      if s != digits {
        assert s[1..] == digits && (s[0] == '+' || s[0] == '-');
      }
    }
    if Atoi(s) == Some(n) {
      var digits := if s[0] == '-' || s[0] == '+' then s[1..] else s;
      assert s == digits || s == [s[0]] + digits;
      assert Writes(s, n, digits);
    }
  }
}
