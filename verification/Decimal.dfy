/** Decimal numerals, as Rust's formatter writes them and `parse` reads them. */
module Decimal {

  function DigitChar(d: nat): (c: char)
    requires d < 10
    ensures '0' <= c <= '9' && DigitValue(c) == d
  {
    ('0' as int + d) as char
  }

  function DigitValue(c: char): (d: nat)
    requires '0' <= c <= '9'
    ensures d < 10
  {
    c as int - '0' as int
  }

  predicate AllDigits(s: string) {
    forall i :: 0 <= i < |s| ==> '0' <= s[i] <= '9'
  }

  /** `{n}`. */
  function Dec(n: nat): (s: string)
    ensures s != [] && AllDigits(s)
    ensures n != 0 ==> s[0] != '0'
  {
    if n < 10 then [DigitChar(n)] else Dec(n / 10) + [DigitChar(n % 10)]
  }

  /** The number a string of digits denotes. */
  function ReadDec(s: string): nat
    requires AllDigits(s)
  {
    if s == [] then 0 else 10 * ReadDec(s[..|s| - 1]) + DigitValue(s[|s| - 1])
  }

  lemma {:induction false} ReadDecOfDec(n: nat)
    ensures ReadDec(Dec(n)) == n
  {
    var s := Dec(n);
    if n < 10 {
      assert s[..0] == [];
    } else {
      ReadDecOfDec(n / 10);
      assert s[..|s| - 1] == Dec(n / 10);
    }
  }

  lemma {:induction false} ReadDecZeros(zeros: string, s: string)
    requires AllDigits(s) && forall i :: 0 <= i < |zeros| ==> zeros[i] == '0'
    ensures AllDigits(zeros + s)
    ensures ReadDec(zeros + s) == ReadDec(s)
  {
    if s == [] {
      if zeros != [] {
        ReadDecZeros(zeros[..|zeros| - 1], []);
        assert zeros[..|zeros| - 1] + [] == (zeros + s)[..|zeros| - 1];
      }
    } else {
      assert (zeros + s)[..|zeros + s| - 1] == zeros + s[..|s| - 1];
      ReadDecZeros(zeros, s[..|s| - 1]);
    }
  }
}
