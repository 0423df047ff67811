/** What texts `strtol` and `strtoul` read, by the parts of a text: blanks, sign, prefix,
    digits, and the rest that they leave. */
module IntegersText {
  import opened Integers

  datatype Text = Text(blanks: string, sign: string, prefix: string, digits: string, rest: string)

  function After(t: Text): string {
    t.prefix + (t.digits + t.rest)
  }

  function Whole(t: Text): string {
    t.blanks + (t.sign + After(t))
  }

  /** A space, or one of the characters 9 to 13. */
  predicate Blank(c: char) {
    c as int == 32 || 9 <= c as int <= 13
  }

  /** The value of a letter or digit, or -1. */
  function DigitOf(c: char): int {
    if '0' <= c <= '9' then c as int - 48
    else if 'a' <= c <= 'z' then c as int - 97 + 10
    else if 'A' <= c <= 'Z' then c as int - 65 + 10
    else -1
  }

  predicate DigitIn(c: char, base: nat) {
    0 <= DigitOf(c) < base
  }

  predicate Hex(s: string) {
    |s| >= 2 && s[0] == '0' && (s[1] == 'x' || s[1] == 'X')
  }

  function BaseOf(t: Text, base: nat): nat {
    if base != 0 then base
    else if t.prefix != "" then 16
    else if t.digits + t.rest != "" && (t.digits + t.rest)[0] == '0' then 8
    else 10
  }

  /** The parts of a text: as many blanks, and as many digits, as there are; a prefix for
      base 16 only, given or left open. */
  predicate Parts(t: Text, base: nat) {
    && (forall i :: 0 <= i < |t.blanks| ==> Blank(t.blanks[i]))
    && t.sign in {"", "-", "+"} && t.prefix in {"", "0x", "0X"}
    && (t.sign == "" && After(t) != "" ==> !Blank(After(t)[0]) && After(t)[0] != '-' && After(t)[0] != '+')
    && (t.prefix != "" ==> base == 0 || base == 16)
    && (t.prefix == "" && (base == 0 || base == 16) ==> !Hex(t.digits + t.rest))
    && (forall i :: 0 <= i < |t.digits| ==> DigitIn(t.digits[i], BaseOf(t, base)))
    && (t.rest != "" ==> !DigitIn(t.rest[0], BaseOf(t, base)))
  }

  /** The number that digits write. */
  function NumberOf(digits: string, base: nat): int {
    if digits == "" then 0 else NumberOf(digits[..|digits| - 1], base) * base + DigitOf(digits[|digits| - 1])
  }

  lemma SameDigit(c: char, base: nat)
    requires base <= 36
    ensures Dtoi(c) < base <==> DigitIn(c, base)
    ensures DigitIn(c, base) ==> Dtoi(c) == DigitOf(c)
  {
  }

  lemma {:induction false} SpacesRun(s: string, n: nat, i: nat)
    requires i <= n <= |s| && (forall k :: i <= k < n ==> Blank(s[k])) && (n < |s| ==> !Blank(s[n]))
    ensures Spaces(s, i) == n
    decreases n - i
  {
    if i < n {
      SpacesRun(s, n, i + 1);
    }
  }

  lemma {:induction false} DigitsRun(s: string, i: nat, n: nat, base: nat)
    requires base <= 36 && i + n <= |s| && (forall k :: i <= k < i + n ==> DigitIn(s[k], base))
    requires i + n < |s| ==> !DigitIn(s[i + n], base)
    ensures Digits(s, i, base) == n
    decreases n
  {
    hide Dtoi, DigitIn;
    if i < |s| {
      SameDigit(s[i], base);
    }
    if n > 0 {
      DigitsRun(s, i + 1, n - 1, base);
    }
  }

  lemma {:induction false} AmountIs(s: string, i: nat, digits: string, base: nat)
    requires base <= 36 && i + |digits| <= |s| && s[i..i + |digits|] == digits
    requires forall k :: 0 <= k < |digits| ==> DigitIn(digits[k], base)
    ensures Amount(s, i, |digits|, base) == NumberOf(digits, base)
    decreases |digits|
  {
    hide Dtoi, DigitIn, DigitOf;
    if digits != "" {
      var n := |digits| - 1;
      assert s[i..i + n] == digits[..n] && s[i + n] == digits[n];
      SameDigit(digits[n], base);
      AmountIs(s, i, digits[..n], base);
    }
  }

  lemma AtParts(t: Text)
    requires |t.sign| <= 1
    ensures var s, a, i, j := Whole(t), After(t), |t.blanks|, |t.blanks| + |t.sign|;
            && |s| == j + |a|
            && At(s, i) == (if t.sign != "" then t.sign[0] else At(a, 0))
            && At(s, j) == At(a, 0) && At(s, j + 1) == At(a, 1)
  {
    var s, a, j := Whole(t), After(t), |t.blanks| + |t.sign|;
    assert forall k :: 0 <= k < |a| ==> s[j + k] == a[k];
    hide After;
    assert j < |s| ==> s[j + 0] == a[0];
  }

  lemma BlanksEnd(t: Text, base: nat)
    requires ValidBase(base) && Parts(t, base)
    ensures Spaces(Whole(t), 0) == |t.blanks| <= |Whole(t)| && |t.sign| <= 1
    ensures t.sign == "" ==> At(After(t), 0) != '-' && At(After(t), 0) != '+'
  {
    hide After;
    var s, i := Whole(t), |t.blanks|;
    assert forall k :: 0 <= k < i ==> s[k] == t.blanks[k];
    assert i < |s| ==> s[i] == if t.sign != "" then t.sign[0] else After(t)[0];
    SpacesRun(s, i, 0);
  }

  lemma HexAt(a: string)
    ensures Hex(a) <==> At(a, 0) == '0' && ToUpper(At(a, 1)) == 'X'
  {
  }

  /** The header of a text in parts. */
  lemma HeaderIs(t: Text, base: nat)
    requires ValidBase(base) && Parts(t, base)
    ensures HeaderOf(Whole(t), base) == Header(t.sign == "-", BaseOf(t, base), |t.blanks| + |t.sign| + |t.prefix|)
  {
    hide Whole, After, Spaces, Parts, At, ToUpper, Hex;
    BlanksEnd(t, base);
    AtParts(t);
    HexAt(After(t));
    PrefixShows(t, base);
    BaseShows(t, base);
  }

  lemma BaseShows(t: Text, base: nat)
    requires ValidBase(base) && Parts(t, base)
    ensures BaseOf(t, base) == if base != 0 then base else if Hex(After(t)) then 16 else if At(After(t), 0) == '0' then 8 else 10
    ensures t.sign in {"", "-", "+"} && BaseOf(t, base) <= 36
  {
  }

  lemma PrefixShows(t: Text, base: nat)
    requires ValidBase(base) && Parts(t, base)
    ensures base == 0 || base == 16 ==> (Hex(After(t)) <==> t.prefix != "")
    ensures t.prefix != "" ==> |t.prefix| == 2 && After(t)[0] == '0' && (base == 0 || base == 16)
    ensures t.prefix == "" ==> After(t) == t.digits + t.rest
    ensures t.sign in {"", "-", "+"} && |t.sign| <= 1
  {
  }

  /** What is read of a text: nothing without digits, else their number, and the end is
      behind the last of them. */
  lemma {:induction false} Reads(t: Text, base: nat)
    requires (base == 0 || 2 <= base <= 36) && Parts(t, base)
    ensures var v, end := NumberOf(t.digits, BaseOf(t, base)), if t.digits == "" then 0 else |Whole(t)| - |t.rest|;
            && StrToUL(Whole(t), base) == (if v > 0xffff_ffff_ffff_ffff then Overflow(0xffff_ffff_ffff_ffff)
                                           else Number(if t.sign == "-" then -v % 0x1_0000_0000_0000_0000 else v, end))
            && StrToL(Whole(t), base) == (if t.sign == "-" then
                                            if v > 0x8000_0000_0000_0000 then Overflow(-0x8000_0000_0000_0000) else Number(-v, end)
                                          else if v > 0x7fff_ffff_ffff_ffff then Overflow(0x7fff_ffff_ffff_ffff) else Number(v, end))
  {
    hide HeaderOf, Amount, Digits, NumberOf, Whole, DigitIn, Parts, BaseOf;
    HeaderIs(t, base);
    DigitsPlaced(t, base);
  }

  lemma DigitsPlaced(t: Text, base: nat)
    requires ValidBase(base) && Parts(t, base)
    ensures var s, i, b := Whole(t), |t.blanks| + |t.sign| + |t.prefix|, BaseOf(t, base);
            && i + |t.digits| + |t.rest| == |s| && b <= 36
            && Digits(s, i, b) == |t.digits| && Amount(s, i, |t.digits|, b) == NumberOf(t.digits, b)
  {
    hide Amount, Digits, NumberOf, DigitIn, BaseOf, Blank, Hex;
    var head, b := t.blanks + t.sign + t.prefix, BaseOf(t, base);
    BaseShows(t, base);
    DigitsAre(t, base);
    assert Whole(t) == head + t.digits + t.rest;
    hide Whole, Parts;
    DigitsBetween(head, t.digits, t.rest, b);
  }

  lemma DigitsAre(t: Text, base: nat)
    requires ValidBase(base) && Parts(t, base)
    ensures forall i :: 0 <= i < |t.digits| ==> DigitIn(t.digits[i], BaseOf(t, base))
    ensures t.rest != "" ==> !DigitIn(t.rest[0], BaseOf(t, base))
  {
  }

  lemma DigitsBetween(head: string, digits: string, rest: string, b: nat)
    requires b <= 36 && (forall i :: 0 <= i < |digits| ==> DigitIn(digits[i], b)) && (rest != "" ==> !DigitIn(rest[0], b))
    ensures var s, i := head + digits + rest, |head|;
            Digits(s, i, b) == |digits| && Amount(s, i, |digits|, b) == NumberOf(digits, b)
  {
    hide Amount, Digits, NumberOf, DigitIn;
    var s, i, n := head + digits + rest, |head|, |digits|;
    assert s[i..i + n] == digits;
    assert forall k :: i <= k < i + n ==> s[k] == digits[k - i];
    assert i + n < |s| ==> s[i + n] == rest[0];
    DigitsRun(s, i, n, b);
    AmountIs(s, i, digits, b);
  }

  /** The length of the run of blanks, and of digits, that a text starts with. */
  function BlankRun(s: string): (n: nat)
    ensures n <= |s| && (forall i :: 0 <= i < n ==> Blank(s[i])) && (n < |s| ==> !Blank(s[n]))
  {
    if s == "" || !Blank(s[0]) then 0 else 1 + BlankRun(s[1..])
  }

  function DigitRun(s: string, base: nat): (n: nat)
    ensures n <= |s| && (forall i :: 0 <= i < n ==> DigitIn(s[i], base)) && (n < |s| ==> !DigitIn(s[n], base))
  {
    if s == "" || !DigitIn(s[0], base) then 0 else 1 + DigitRun(s[1..], base)
  }

  /** Every text has these parts. */
  lemma {:induction false} Split(s: string, base: nat) returns (t: Text)
    requires base == 0 || 2 <= base <= 36
    ensures Whole(t) == s && Parts(t, base)
  {
    hide BlankRun, Blank, DigitIn, Hex, BaseOf, After, Parts, Whole;
    var i := BlankRun(s);
    var s1 := s[i..];
    var sign := SignOf(s1);
    t := SplitTail(s[..i], sign, s1[|sign|..], base);
    FrontParts(t, s, i);
    AllParts(t, base);
  }

  lemma FrontParts(t: Text, s: string, i: nat)
    requires i <= |s| && t.blanks == s[..i] && t.sign == SignOf(s[i..]) && After(t) == s[i..][|t.sign|..]
    requires (forall k :: 0 <= k < i ==> Blank(s[k])) && (i < |s| ==> !Blank(s[i]))
    ensures Whole(t) == s && forall k :: 0 <= k < |t.blanks| ==> Blank(t.blanks[k])
    ensures t.sign == "" && After(t) != "" ==> !Blank(After(t)[0]) && After(t)[0] != '-' && After(t)[0] != '+'
  {
    hide After, Blank, SignOf;
    var rest := s[i..];
    assert t.sign + After(t) == rest;
    assert s[..i] + rest == s;
    if t.sign == "" && rest != "" {
      assert rest[0] == s[i];
    }
  }

  lemma AllParts(t: Text, base: nat)
    requires (forall k :: 0 <= k < |t.blanks| ==> Blank(t.blanks[k])) && t.sign in {"", "-", "+"} && t.prefix in {"", "0x", "0X"}
    requires t.sign == "" && After(t) != "" ==> !Blank(After(t)[0]) && After(t)[0] != '-' && After(t)[0] != '+'
    requires t.prefix != "" ==> base == 0 || base == 16
    requires t.prefix == "" && (base == 0 || base == 16) ==> !Hex(t.digits + t.rest)
    requires forall i :: 0 <= i < |t.digits| ==> DigitIn(t.digits[i], BaseOf(t, base))
    requires t.rest != "" ==> !DigitIn(t.rest[0], BaseOf(t, base))
    ensures Parts(t, base)
  {
    hide After, Blank, BaseOf, DigitIn, Hex;
  }

  /** A sign in front, if there is one. */
  function SignOf(s: string): (sign: string)
    ensures sign in {"", "-", "+"} && |sign| <= |s| && sign + s[|sign|..] == s
    ensures sign == "" ==> s[|sign|..] == s && (s != "" ==> s[0] != '-' && s[0] != '+')
  {
    if s != "" && s[0] == '-' then assert "-" + s[1..] == s; "-"
    else if s != "" && s[0] == '+' then assert "+" + s[1..] == s; "+"
    else ""
  }

  /** The parts from the prefix on. */
  lemma SplitTail(blanks: string, sign: string, s: string, base: nat) returns (t: Text)
    requires ValidBase(base)
    ensures t.blanks == blanks && t.sign == sign && After(t) == s && t.prefix in {"", "0x", "0X"}
    ensures t.prefix != "" ==> base == 0 || base == 16
    ensures t.prefix == "" && (base == 0 || base == 16) ==> !Hex(t.digits + t.rest)
    ensures forall i :: 0 <= i < |t.digits| ==> DigitIn(t.digits[i], BaseOf(t, base))
    ensures t.rest != "" ==> !DigitIn(t.rest[0], BaseOf(t, base))
  {
    hide DigitRun, Blank, DigitIn, Hex;
    var prefix := if base == 0 || base == 16 then PrefixOf(s) else "";
    var s3 := s[|prefix|..];
    var b := if base != 0 then base else if prefix != "" then 16 else if s3 != "" && s3[0] == '0' then 8 else 10;
    var n := DigitRun(s3, b);
    t := Text(blanks, sign, prefix, s3[..n], s3[n..]);
    Rejoined(s, |prefix|, n);
  }

  function PrefixOf(s: string): (prefix: string)
    ensures prefix in {"", "0x", "0X"} && |prefix| <= |s| && prefix + s[|prefix|..] == s && (prefix == "" <==> !Hex(s))
  {
    if Hex(s) then assert s[..2] == [s[0], s[1]] && s[..2] + s[2..] == s; s[..2] else ""
  }

  lemma Rejoined(s: string, m: nat, n: nat)
    requires m <= |s| && n <= |s[m..]|
    ensures s[m..][..n] + s[m..][n..] == s[m..] && s[..m] + s[m..] == s && s[0..] == s && "" + s == s
  {
  }
}
