/** Numerals: natural numbers written in a base with the digits of a table. */
module Numerals {
  import opened Bits

  const UPPER: string := "0123456789ABCDEF"
  const LOWER: string := "0123456789abcdef"

  /** The shortest numeral of `u`, most significant digit first. */
  function Numeral(u: nat, base: nat, digits: string): (s: string)
    requires 2 <= base <= |digits|
    ensures s != ""
  {
    DivBounds(u, base);
    if u < base then [digits[u]] else Numeral(Div(u, base), base, digits) + [digits[Mod(u, base)]]
  }

  /** The place of a character in a table, or the table's length. */
  function Index(digits: string, c: char): (i: nat)
    ensures i <= |digits| && (i < |digits| ==> digits[i] == c)
    ensures forall j :: 0 <= j < i ==> digits[j] != c
  {
    if digits == "" then 0 else if digits[0] == c then 0 else 1 + Index(digits[1..], c)
  }

  /** Are these all digits of the base? */
  predicate Digital(s: string, base: nat, digits: string) {
    forall i :: 0 <= i < |s| ==> Index(digits, s[i]) < base
  }

  function Value(s: string, base: nat, digits: string): nat
    requires base <= |digits|
  {
    if s == "" then 0 else Times(Value(s[..|s| - 1], base, digits), base) + Index(digits, s[|s| - 1])
  }

  predicate Distinct(digits: string) {
    forall i, j :: 0 <= i < j < |digits| ==> digits[i] != digits[j]
  }

  lemma TablesDistinct()
    ensures Distinct(UPPER) && Distinct(LOWER) && |UPPER| == |LOWER| == 16
  {
    forall i, j | 0 <= i < j < 16 ensures |UPPER| == |LOWER| == 16 && UPPER[i] != UPPER[j] && LOWER[i] != LOWER[j] {
      DigitsWritten(i);
      DigitsWritten(j);
    }
  }

  lemma IndexOf(digits: string, d: nat)
    requires Distinct(digits) && d < |digits|
    ensures Index(digits, digits[d]) == d
  {
  }

  /** Reading a numeral back. */
  lemma {:induction false} NumeralRoundTrip(u: nat, base: nat, digits: string)
    requires 2 <= base <= |digits| && Distinct(digits)
    ensures Value(Numeral(u, base, digits), base, digits) == u
    ensures Digital(Numeral(u, base, digits), base, digits)
    decreases u
  {
    var s := Numeral(u, base, digits);
    if u < base {
      IndexOf(digits, u);
      assert s[..0] == "";
    } else {
      DivBounds(u, base);
      DivMod(u, base);
      NumeralRoundTrip(Div(u, base), base, digits);
      IndexOf(digits, Mod(u, base));
      assert s[..|s| - 1] == Numeral(Div(u, base), base, digits);
      hide Times, Div, Mod;
    }
  }

  /** There are no zeros in front. */
  lemma {:induction false} NumeralShortest(u: nat, base: nat, digits: string)
    requires 2 <= base <= |digits| && Distinct(digits)
    ensures if u == 0 then Numeral(u, base, digits) == [digits[0]] else Numeral(u, base, digits)[0] != digits[0]
    decreases u
  {
    if u >= base {
      DivBounds(u, base);
      DivMod(u, base);
      NumeralShortest(Div(u, base), base, digits);
      hide Times, Div, Mod;
    }
  }

  /** The digits in the order of their values, as they are written. */
  lemma DigitsWritten(d: nat)
    requires d < 16
    ensures |UPPER| == |LOWER| == 16
    ensures UPPER[d] as int == if d < 10 then '0' as int + d else 'A' as int + d - 10
    ensures LOWER[d] as int == if d < 10 then '0' as int + d else 'a' as int + d - 10
  {
  }
}
