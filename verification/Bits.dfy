/** Unsigned machine words as naturals: powers of two, bitwise operators, arithmetic
    modulo a word size. */
module Bits {

  function Pow2(n: nat): (r: nat)
    ensures r >= 1
  {
    if n == 0 then 1 else 2 * Pow2(n - 1)
  }

  lemma {:induction false} Pow2Add(m: nat, n: nat)
    ensures Pow2(m + n) == Pow2(m) * Pow2(n)
  {
    if n > 0 {
      Pow2Add(m, n - 1);
    }
  }

  function BitAnd(x: nat, y: nat): nat {
    if x == 0 || y == 0 then 0 else (if x % 2 == 1 && y % 2 == 1 then 1 else 0) + 2 * BitAnd(x / 2, y / 2)
  }

  function BitOr(x: nat, y: nat): nat {
    if x == 0 then y else if y == 0 then x
    else (if x % 2 == 1 || y % 2 == 1 then 1 else 0) + 2 * BitOr(x / 2, y / 2)
  }

  function BitXor(x: nat, y: nat): nat {
    if x == 0 then y else if y == 0 then x
    else (if x % 2 != y % 2 then 1 else 0) + 2 * BitXor(x / 2, y / 2)
  }

  lemma {:induction false} BitAndCommutes(x: nat, y: nat)
    ensures BitAnd(x, y) == BitAnd(y, x)
  {
    if x != 0 && y != 0 {
      BitAndCommutes(x / 2, y / 2);
    }
  }

  lemma {:induction false} BitOrCommutes(x: nat, y: nat)
    ensures BitOr(x, y) == BitOr(y, x)
  {
    if x != 0 && y != 0 {
      BitOrCommutes(x / 2, y / 2);
    }
  }

  lemma {:induction false} BitXorCommutes(x: nat, y: nat)
    ensures BitXor(x, y) == BitXor(y, x)
  {
    if x != 0 && y != 0 {
      BitXorCommutes(x / 2, y / 2);
    }
  }

  lemma BitAndStep(x: nat, y: nat)
    ensures BitAnd(x, y) % 2 == (if x % 2 == 1 && y % 2 == 1 then 1 else 0) && BitAnd(x, y) / 2 == BitAnd(x / 2, y / 2)
  {
  }

  lemma BitOrStep(x: nat, y: nat)
    ensures BitOr(x, y) % 2 == (if x % 2 == 1 || y % 2 == 1 then 1 else 0) && BitOr(x, y) / 2 == BitOr(x / 2, y / 2)
  {
  }

  lemma BitXorStep(x: nat, y: nat)
    ensures BitXor(x, y) % 2 == (if x % 2 != y % 2 then 1 else 0) && BitXor(x, y) / 2 == BitXor(x / 2, y / 2)
  {
    hide BitXor;
    if x == 0 || y == 0 {
      BitXorZero(x, y);
      BitXorZero(x / 2, y / 2);
    } else {
      BitXorNonzero(x, y);
      Doubled(if x % 2 != y % 2 then 1 else 0, BitXor(x / 2, y / 2));
    }
  }

  lemma Doubled(b: nat, x: nat)
    requires b <= 1
    ensures (b + 2 * x) % 2 == b && (b + 2 * x) / 2 == x
  {
  }

  lemma BitXorZero(x: nat, y: nat)
    requires x == 0 || y == 0
    ensures BitXor(x, y) == x + y
  {
  }

  lemma BitXorNonzero(x: nat, y: nat)
    requires x != 0 && y != 0
    ensures BitXor(x, y) == (if x % 2 != y % 2 then 1 else 0) + 2 * BitXor(x / 2, y / 2)
  {
  }

  /** Words that agree in their last bit and in the rest are equal. */
  lemma Halves(x: nat, y: nat)
    requires x % 2 == y % 2 && x / 2 == y / 2
    ensures x == y
  {
  }

  lemma {:induction false} BitAndAssociates(x: nat, y: nat, z: nat)
    ensures BitAnd(BitAnd(x, y), z) == BitAnd(x, BitAnd(y, z))
  {
    if x != 0 {
      BitAndAssociates(x / 2, y / 2, z / 2);
      BitAndStep(x, y);
      BitAndStep(BitAnd(x, y), z);
      BitAndStep(y, z);
      BitAndStep(x, BitAnd(y, z));
      Halves(BitAnd(BitAnd(x, y), z), BitAnd(x, BitAnd(y, z)));
    }
  }

  lemma {:induction false} BitOrAssociates(x: nat, y: nat, z: nat)
    ensures BitOr(BitOr(x, y), z) == BitOr(x, BitOr(y, z))
  {
    if x != 0 {
      BitOrAssociates(x / 2, y / 2, z / 2);
      BitOrStep(x, y);
      BitOrStep(BitOr(x, y), z);
      BitOrStep(y, z);
      BitOrStep(x, BitOr(y, z));
      Halves(BitOr(BitOr(x, y), z), BitOr(x, BitOr(y, z)));
    }
  }

  lemma {:induction false} BitXorAssociates(x: nat, y: nat, z: nat)
    ensures BitXor(BitXor(x, y), z) == BitXor(x, BitXor(y, z))
  {
    if x != 0 {
      BitXorAssociates(x / 2, y / 2, z / 2);
      BitXorStep(x, y);
      BitXorStep(BitXor(x, y), z);
      BitXorStep(y, z);
      BitXorStep(x, BitXor(y, z));
      Halves(BitXor(BitXor(x, y), z), BitXor(x, BitXor(y, z)));
    }
  }

  /** Bitwise operators keep words of `n` bits. */
  lemma {:induction false} BitsBounded(x: nat, y: nat, n: nat)
    requires x < Pow2(n) && y < Pow2(n)
    ensures BitAnd(x, y) < Pow2(n) && BitOr(x, y) < Pow2(n) && BitXor(x, y) < Pow2(n)
  {
    if n > 0 {
      BitsBounded(x / 2, y / 2, n - 1);
    }
  }

  /** Masking with `n` ones takes the remainder modulo 2^n. */
  lemma {:induction false} BitAndOnes(x: nat, n: nat)
    ensures BitAnd(x, Pow2(n) - 1) == x % Pow2(n)
  {
    if n > 0 {
      var p := Pow2(n - 1);
      assert Pow2(n) == 2 * p;
      BitAndOnes(x / 2, n - 1);
      BitAndStep(x, 2 * p - 1);
      hide BitAnd, Pow2;
      assert (2 * p - 1) / 2 == p - 1;
      ModHalf(x, p);
      Halves(BitAnd(x, 2 * p - 1), x % (2 * p));
    }
  }

  lemma ModHalf(x: nat, p: nat)
    requires p > 0
    ensures x % (2 * p) == x % 2 + 2 * ((x / 2) % p)
  {
    var q, r := x / 2 / p, (x / 2) % p;
    assert x / 2 == q * p + r;
    assert x == (2 * p) * q + (x % 2 + 2 * r);
    ModUnique(x, 2 * p, q, x % 2 + 2 * r);
  }

  lemma ModUnique(x: int, m: nat, q: int, r: int)
    requires m > 0 && x == m * q + r && 0 <= r < m
    ensures x % m == r && x / m == q
  {
    var q', r' := x / m, x % m;
    var d := q - q';
    assert m * d == r' - r by {
      assert x == m * q' + r';
      assert m * d == m * q - m * q';
    }
    assert m * -d == -(m * d);
    if d >= 1 {
      AtLeast(m, d);
    } else if d <= -1 {
      AtLeast(m, -d);
    }
  }

  lemma AtLeast(m: nat, d: int)
    requires d >= 1
    ensures m * d >= m
  {
    assert m * d == m + m * (d - 1);
  }

  function Div(l: nat, r: nat): nat
    requires r > 0
  {
    l / r
  }

  lemma DivBounds(a: nat, b: nat)
    requires b > 0
    ensures 0 <= a / b <= a && (b == 1 ==> a / b == a) && (b > 1 && a > 0 ==> a / b < a)
  {
    var q := a / b;
    if b > 1 && q >= 1 {
      AtLeast(q, b - 1);
      assert q * b == q + q * (b - 1);
      assert a >= q * b;
    }
  }

  lemma DivMod(u: nat, b: nat)
    requires b > 0
    ensures Times(Div(u, b), b) + Mod(u, b) == u && Mod(u, b) < b
  {
    assert u / b * b == b * (u / b);
  }

  function Times(x: int, y: int): int {
    x * y
  }

  function Floor(x: int, m: nat): int
    requires m > 0
  {
    x / m
  }

  function Mod(x: int, m: nat): (r: nat)
    requires m > 0
    ensures r < m
  {
    x % m
  }

  lemma ModPlus(x: int, m: nat, k: int)
    requires m > 0
    ensures (x + m * k) % m == x % m
  {
    ModUnique(x + m * k, m, x / m + k, x % m);
  }

  lemma ModAdd(x: int, y: int, m: nat)
    requires m > 0
    ensures (x % m + y) % m == (x + y) % m && (x + y % m) % m == (x + y) % m
  {
    assert x % m + m * (x / m) == x && y % m + m * (y / m) == y;
    ModPlus(x % m + y, m, x / m);
    ModPlus(x + y % m, m, y / m);
  }

  lemma ModMul(x: int, y: int, m: nat)
    requires m > 0
    ensures ((x % m) * y) % m == (x * y) % m && (x * (y % m)) % m == (x * y) % m
  {
    var q, r := x / m, x % m;
    assert x * y == r * y + m * (q * y) by {
      assert x == r + m * q;
    }
    ModPlus(r * y, m, q * y);
    var q', r' := y / m, y % m;
    assert x * y == x * r' + m * (x * q') by {
      assert y == r' + m * q';
    }
    ModPlus(x * r', m, x * q');
  }

  /** A remainder by a multiple of `m` does not matter modulo `m`. */
  lemma ModMod(x: int, m: nat, k: nat)
    requires m > 0 && k > 0
    ensures m * k > 0 && (x % (m * k)) % m == x % m
  {
    var q := x / (m * k);
    assert x == x % (m * k) + m * (k * q);
    ModPlus(x % (m * k), m, k * q);
  }

  /** Ones in the binary form of a word. */
  function PopCount(u: nat): nat {
    if u == 0 then 0 else u % 2 + PopCount(u / 2)
  }

  /** A word with a single one is a power of two, and the other way round. */
  lemma OneBit(u: nat)
    ensures PopCount(u) == 1 <==> exists k: nat :: Pow2(k) == u
  {
    if PopCount(u) == 1 {
      var k := Exponent(u);
      assert Pow2(k) == u;
    }
    forall k: nat | Pow2(k) == u ensures PopCount(u) == 1 {
      PowerHasOneBit(k);
    }
  }

  lemma {:induction false} Exponent(u: nat) returns (k: nat)
    requires PopCount(u) == 1
    ensures u == Pow2(k)
  {
    if u % 2 == 1 {
      NoBits(u / 2);
      k := 0;
    } else {
      k := Exponent(u / 2);
      k := k + 1;
    }
  }

  lemma {:induction false} NoBits(u: nat)
    requires PopCount(u) == 0
    ensures u == 0
  {
    if u != 0 {
      NoBits(u / 2);
    }
  }

  lemma {:induction false} PowerHasOneBit(k: nat)
    ensures PopCount(Pow2(k)) == 1
  {
    hide PopCount;
    if k > 0 {
      PowerHasOneBit(k - 1);
      DoubledOnes(Pow2(k - 1));
    } else {
      OneInOne();
    }
  }

  lemma OneInOne()
    ensures PopCount(1) == 1
  {
  }

  lemma DoubledOnes(p: nat)
    ensures PopCount(2 * p) == PopCount(p)
  {
    assert 2 * p / 2 == p && 2 * p % 2 == 0;
  }

  /** Bit `k` of a number in two's complement. */
  function BitOf(x: int, k: nat): int {
    x / Pow2(k) % 2
  }

  lemma BitHalf(x: nat, k: nat)
    requires k > 0
    ensures BitOf(x, k) == BitOf(x / 2, k - 1)
  {
    var p := Pow2(k - 1);
    var q, r := x / 2 / p, (x / 2) % p;
    assert x / 2 == p * q + r;
    assert x == (2 * p) * q + (2 * r + x % 2);
    ModUnique(x, 2 * p, q, 2 * r + x % 2);
  }

  /** The bitwise operators, bit by bit. */
  lemma {:induction false} WordBits(x: nat, y: nat, k: nat)
    ensures BitOf(BitAnd(x, y), k) == 1 <==> BitOf(x, k) == 1 && BitOf(y, k) == 1
    ensures BitOf(BitOr(x, y), k) == 1 <==> BitOf(x, k) == 1 || BitOf(y, k) == 1
    ensures BitOf(BitXor(x, y), k) == 1 <==> BitOf(x, k) != BitOf(y, k)
    decreases k
  {
    BitAndStep(x, y);
    BitOrStep(x, y);
    BitXorStep(x, y);
    if k == 0 {
      assert Pow2(0) == 1;
    } else {
      WordBits(x / 2, y / 2, k - 1);
      BitHalf(x, k);
      BitHalf(y, k);
      BitHalf(BitAnd(x, y), k);
      BitHalf(BitOr(x, y), k);
      BitHalf(BitXor(x, y), k);
    }
  }
}
