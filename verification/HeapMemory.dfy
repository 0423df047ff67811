/** The memory below the break, and what the allocator keeps in it. */
module HeapMemory {
  import opened HeapLayout
  import Bits

  const UNIT: nat := 16                          // sizeof(Header)
  const NULL: int := 0
  const BASE: int := 1                           // the size-0 unit that closes the ring

  type Byte = b: nat | b < 256
  type Bytes = s: seq<Byte> | |s| == 16 witness seq(16, _ => 0)

  /** One unit of memory: a header, or bytes that nobody may read as a header. */
  datatype Unit = Hdr(next: int, size: nat) | Raw(bytes: Bytes)

  type Memory = seq<Unit>

  /** Little-endian value of some bytes. */
  function LittleEndian(s: seq<Byte>): nat {
    if s == [] then 0 else s[0] + 256 * LittleEndian(s[1..])
  }

  function ByteOfWord(w: int, k: nat): Byte
    decreases k
  {
    if k == 0 then w % 256 else ByteOfWord(w / 256, k - 1)
  }

  /** The bytes of a unit, whatever was last written there. */
  function ByteOf(u: Unit, k: nat): Byte
    requires k < UNIT
  {
    match u
    case Raw(b) => b[k]
    case Hdr(n, s) => if k < 8 then ByteOfWord(n, k) else ByteOfWord(s, k - 8)
  }

  /** A write to one field of the header view keeps the other field's bytes. */
  function WithSize(u: Unit, s: nat): Unit {
    Hdr(if u.Hdr? then u.next else LittleEndian(u.bytes[..8]), s)
  }

  function WithNext(u: Unit, n: int): Unit {
    Hdr(n, if u.Hdr? then u.size else LittleEndian(u.bytes[8..]))
  }

  function WithByte(u: Unit, k: nat, b: Byte): Unit
    requires k < UNIT
  {
    Raw(seq(UNIT, i requires 0 <= i < UNIT => if i == k then b else ByteOf(u, i)))
  }

  /** The bytes of a word, read again, are the word, and the other way round. */
  lemma {:induction false} WordRead(w: int, n: nat)
    requires w >= 0
    ensures LittleEndian(seq(n, i requires 0 <= i < n => ByteOfWord(w, i))) + Power256(n) * (w / Power256(n)) == w
    decreases n
  {
    var s := seq(n, i requires 0 <= i < n => ByteOfWord(w, i));
    if n > 0 {
      WordRead(w / 256, n - 1);
      var t := seq(n - 1, i requires 0 <= i < n - 1 => ByteOfWord(w / 256, i));
      assert s[1..] == t;
      var p := Power256(n - 1);
      DivTwice(w, p);
      assert 256 * (p * (w / 256 / p)) == 256 * p * (w / (256 * p));
    }
  }

  function Power256(n: nat): (p: nat)
    ensures p > 0
  {
    if n == 0 then 1 else 256 * Power256(n - 1)
  }

  lemma DivTwice(w: int, p: nat)
    requires w >= 0 && p > 0
    ensures w / 256 / p == w / (256 * p)
  {
    var q, r := w / 256 / p, w / 256 % p;
    assert w / 256 == p * q + r;
    assert w == (256 * p) * q + (256 * r + w % 256);
    Bits.ModUnique(w, 256 * p, q, 256 * r + w % 256);
  }

  lemma {:induction false} BytesRead(s: seq<Byte>, k: nat)
    requires k < |s|
    ensures ByteOfWord(LittleEndian(s), k) == s[k]
    decreases k
  {
    if k > 0 {
      BytesRead(s[1..], k - 1);
    }
  }

  /** A header is eight bytes for each of its fields, and writing a field or a byte leaves
      all the others. */
  lemma {:induction false} FieldsApart(u: Unit, n: nat, s: nat, b: Byte, j: nat, k: nat)
    requires j < 16 && k < 16
    ensures ByteOf(WithSize(u, s), k) == if k < 8 then ByteOf(u, k) else ByteOfWord(s, k - 8)
    ensures ByteOf(WithNext(u, n), k) == if k < 8 then ByteOfWord(n, k) else ByteOf(u, k)
    ensures ByteOf(WithByte(u, j, b), k) == if k == j then b else ByteOf(u, k)
  {
    if u.Raw? {
      if k < 8 {
        BytesRead(u.bytes[..8], k);
      } else {
        BytesRead(u.bytes[8..], k - 8);
      }
    }
  }

  /** Every block of the layout starts with a header that holds its size. */
  ghost predicate Headed(m: Memory, b: Layout, a: int) {
    b != [] ==> 0 <= a < |m| && m[a].Hdr? && m[a].size == b[0].size && Headed(m, b[1..], a + b[0].size)
  }

  lemma {:induction false} HeadedAppend(m: Memory, b: Layout, c: Layout, a: int)
    ensures Headed(m, b + c, a) <==> Headed(m, b, a) && Headed(m, c, a + Total(b))
  {
    if b == [] {
      assert b + c == c;
    } else {
      assert (b + c)[1..] == b[1..] + c;
      HeadedAppend(m, b[1..], c, a + b[0].size);
    }
  }

  /** Headers in a range survive when no size in it changes. */
  ghost predicate SizesKept(m: Memory, m': Memory, a: int, e: int) {
    |m| <= |m'| && forall u :: 0 <= u < |m| && a <= u < e && m[u].Hdr? ==> m'[u].Hdr? && m'[u].size == m[u].size
  }

  lemma {:induction false} HeadedKept(m: Memory, m': Memory, b: Layout, a: int)
    requires Shaped(b) && Headed(m, b, a) && SizesKept(m, m', a, a + Total(b))
    ensures Headed(m', b, a)
  {
    if b != [] {
      HeadedKept(m, m', b[1..], a + b[0].size);
    }
  }

  ghost predicate PointsTo(m: Memory, p: int, q: int) {
    0 <= p < |m| && m[p].Hdr? && m[p].next == q
  }

  function HeadOr(s: seq<int>, q: int): int {
    if s == [] then q else s[0]
  }

  /** Each node points to the following one, and the last one to `q`. */
  ghost predicate Chain(m: Memory, s: seq<int>, q: int) {
    s != [] ==> PointsTo(m, s[0], HeadOr(s[1..], q)) && Chain(m, s[1..], q)
  }

  lemma {:induction false} ChainAppend(m: Memory, s: seq<int>, t: seq<int>, q: int)
    ensures Chain(m, s + t, q) <==> Chain(m, s, HeadOr(t, q)) && Chain(m, t, q)
  {
    if s == [] {
      assert s + t == t;
    } else {
      assert (s + t)[1..] == s[1..] + t;
      ChainAppend(m, s[1..], t, q);
    }
  }

  lemma {:induction false} ChainAt(m: Memory, s: seq<int>, q: int, i: nat)
    requires Chain(m, s, q) && i < |s|
    ensures PointsTo(m, s[i], if i + 1 < |s| then s[i + 1] else q)
  {
    if i > 0 {
      ChainAt(m, s[1..], q, i - 1);
    }
  }

  /** Every unit in [lo, hi) that was a header still is one with the same `next`. */
  ghost predicate NextsKept(m: Memory, m': Memory, lo: int, hi: int) {
    |m| <= |m'| && forall u :: 0 <= u < |m| && lo <= u < hi && m[u].Hdr? ==> m'[u].Hdr? && m'[u].next == m[u].next
  }

  lemma {:induction false} ChainKept(m: Memory, m': Memory, s: seq<int>, q: int, lo: int, hi: int)
    requires Chain(m, s, q) && Rising(s, lo, hi) && NextsKept(m, m', lo, hi)
    ensures Chain(m', s, q)
  {
    if s != [] {
      ChainKept(m, m', s[1..], q, s[0] + 1, hi);
    }
  }

  /** Only the last node of a chain, and units from `hi` on, were pointed elsewhere. */
  lemma {:induction false} ChainRelinked(m: Memory, m': Memory, s: seq<int>, q: int, q': int, lo: int, hi: int)
    requires Chain(m, s, q) && Rising(s, lo, hi) && s != []
    requires NextsKept(m, m', lo, s[|s| - 1]) && PointsTo(m', s[|s| - 1], q')
    ensures Chain(m', s, q')
  {
    if |s| > 1 {
      RisingAt(s, lo, hi);
      ChainRelinked(m, m', s[1..], q, q', s[0] + 1, hi);
    }
  }

  /** The nodes of the free list: the base, then the free blocks by address.  The last
      one points back to the base. */
  function Nodes(b: Layout, lo: int): seq<int> {
    [BASE] + Frees(b, lo)
  }

  /** The whole invariant of the allocator. */
  ghost predicate Inv(m: Memory, lo: int, freep: int, b: Layout) {
    && BASE < lo && |m| == lo + Total(b)
    && Shaped(b)
    && Headed(m, b, lo)
    && m[BASE].Hdr? && m[BASE].size == 0
    && Chain(m, Nodes(b, lo), BASE)
    && freep in Nodes(b, lo)
  }
}
