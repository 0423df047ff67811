/** What each operation of the heap finds before its writes and reaches after them. */
module HeapProofs {
  import opened HeapLayout
  import opened HeapMemory
  import opened HeapSteps

  const SIZE_MAX: nat := 0xFFFF_FFFF_FFFF_FFFF
  const MAXADDR: int := 0xFFFF_FFFF_FFFF_FFFF
  const ERRADDR: int := -1
  const NALLOC: nat := 16
  const EINVAL: nat := 22
  const ENOMEM: nat := 12

  /** Units needed for `nbytes` of payload: one for the header and enough to hold it. */
  function Units(nbytes: nat): nat {
    (nbytes + UNIT - 1) / UNIT + 1
  }

  /** The product that `morecore` hands to `sbrk`, as a 64-bit size_t. */
  function RequestBytes(nunits: nat): nat {
    (nunits * UNIT) % (SIZE_MAX + 1)
  }

  /** `malloc` lets requests through whose size in bytes wraps around in `morecore`:
      its guard admits sizes up to SIZE_MAX - UNIT - 1, but the product is right below
      SIZE_MAX - 30 only. */
  lemma {:induction false} RequestBytesExact(nbytes: nat)
    requires nbytes <= SIZE_MAX - UNIT - 1
    ensures RequestBytes(Units(nbytes)) == Units(nbytes) * UNIT <==> nbytes < SIZE_MAX - 30
    ensures nbytes >= SIZE_MAX - 30 ==> RequestBytes(Units(nbytes)) == 0
  {
  }

  /** Units that `morecore` asks for. */
  function Core(n: nat): nat {
    if n < NALLOC then NALLOC else n
  }

  /** Sizes that the guards admit and whose byte count wraps around to 0. */
  predicate Wraps(nbytes: nat) {
    SIZE_MAX - 30 <= nbytes <= SIZE_MAX - UNIT - 1
  }

  lemma RequestExact(n: nat)
    ensures RequestBytes(n) % UNIT == 0 && RequestBytes(n) <= n * UNIT
    ensures RequestBytes(n) == n * UNIT <==> n * UNIT <= SIZE_MAX
  {
  }

  /** Units that malloc adds to the heap for a request of `n`. */
  ghost function Growth(b: Layout, n: nat): nat {
    if Fits(b, n) then 0 else Core(n)
  }

  /** The program owns one more block: `n` units at `h` that were nobody's. */
  ghost predicate Gained(m: Memory, own: set<(int, nat)>, own0: set<(int, nat)>, h: int, n: nat) {
    && 0 <= h < |m| && m[h].Hdr? && m[h].size == n
    && own == own0 + {(h, n)}
    && forall g, k :: (g, k) in own0 ==> g + k <= h || h + n <= g
  }

  /** Steps along a ring of `n` nodes from the node after `i` to node `j`. */
  function Ahead(i: int, j: int, n: int): int {
    if j > i then j - i - 1 else j - i - 1 + n
  }

  /** Malloc's scan is at node `i`; it meets `goal` no later than `home`, where `freep` is. */
  ghost predicate Scan(m: Memory, nodes: seq<int>, prev: int, freep: int, i: nat, home: nat, goal: nat) {
    && i < |nodes| && home < |nodes| && goal < |nodes|
    && prev == nodes[i] && freep == nodes[home] && Ahead(i, goal, |nodes|) <= Ahead(i, home, |nodes|)
  }

  /** Node `k` has fewer than `n` units. */
  ghost predicate Small(m: Memory, nodes: seq<int>, k: nat, n: nat) {
    k < |nodes| && 0 <= nodes[k] < |m| && m[nodes[k]].Hdr? && m[nodes[k]].size < n
  }

  ghost predicate Large(m: Memory, nodes: seq<int>, k: nat, n: nat) {
    k < |nodes| && 0 <= nodes[k] < |m| && m[nodes[k]].Hdr? && m[nodes[k]].size >= n
  }

  /** The nodes met between `home` and `i` are too small. */
  ghost predicate Passed(m: Memory, nodes: seq<int>, i: nat, home: nat, n: nat) {
    forall k: nat {:trigger Small(m, nodes, k, n)} ::
      k < |nodes| && Ahead(i, k, |nodes|) > Ahead(i, home, |nodes|) ==> Small(m, nodes, k, n)
  }

  /** The node after the i-th in the ring. */
  function NextIndex(nodes: seq<int>, i: nat): nat {
    if i + 1 < |nodes| then i + 1 else 0
  }

  lemma ScanAt(m: Memory, nodes: seq<int>, prev: int, freep: int, i: nat, home: nat, goal: nat)
    requires Scan(m, nodes, prev, freep, i, home, goal)
    ensures i < |nodes| && home < |nodes| && goal < |nodes| && prev == nodes[i] && freep == nodes[home]
    ensures NextIndex(nodes, i) == home ==> goal == home
  {
  }

  /** One more node was too small. */
  lemma ScanOn(m: Memory, nodes: seq<int>, prev: int, freep: int, i: nat, home: nat, goal: nat, n: nat)
    requires Scan(m, nodes, prev, freep, i, home, goal) && Small(m, nodes, NextIndex(nodes, i), n)
    requires nodes[NextIndex(nodes, i)] != freep && (goal == home || Large(m, nodes, goal, n))
    ensures var ci := NextIndex(nodes, i);
            && Scan(m, nodes, nodes[ci], freep, ci, home, goal) && Ahead(ci, goal, |nodes|) < Ahead(i, goal, |nodes|)
            && Ahead(ci, goal, |nodes|) >= 0 && (Passed(m, nodes, i, home, n) ==> Passed(m, nodes, ci, home, n))
  {
  }

  lemma ScanStart(m: Memory, nodes: seq<int>, freep: int, home: nat, goal: nat, n: nat)
    requires home < |nodes| && goal < |nodes| && nodes[home] == freep
    ensures Scan(m, nodes, freep, freep, home, home, goal) && Passed(m, nodes, home, home, n)
    ensures Ahead(home, goal, |nodes|) >= 0
  {
  }

  lemma IndexOf(m: Memory, lo: int, freep: int, b: Layout) returns (i: nat)
    requires Inv(m, lo, freep, b)
    ensures i < |Nodes(b, lo)| && Nodes(b, lo)[i] == freep
  {
    i :| i < |Nodes(b, lo)| && Nodes(b, lo)[i] == freep;
  }

  lemma NodeIndexUnique(m: Memory, lo: int, freep: int, b: Layout, i: nat, j: nat)
    requires Inv(m, lo, freep, b) && i < |Nodes(b, lo)| && j < |Nodes(b, lo)| && Nodes(b, lo)[i] == Nodes(b, lo)[j]
    ensures i == j
  {
    NodesRise(b, lo);
    RisingAt(Nodes(b, lo), BASE, lo + Total(b));
  }

  /** Where a free block is in its layout and in the free list. */
  lemma TakePrologue(m: Memory, lo: int, freep: int, b: Layout, ci: nat, nunits: nat) returns (l: Layout, r: Layout)
    requires Inv(m, lo, freep, b) && Large(m, Nodes(b, lo), ci, nunits) && nunits >= 1
    ensures Fits(b, nunits)
    ensures var cur := Nodes(b, lo)[ci];
            && ci >= 1 && b == l + [Block(m[cur].size, true)] + r && cur == lo + Total(l)
            && View(m, lo, freep, l, Block(m[cur].size, true), r) && cur + m[cur].size <= |m|
            && NodeBelow(l, lo) == Nodes(b, lo)[ci - 1] && NodeBelow(l, lo) < cur && PointsTo(m, NodeBelow(l, lo), cur)
  {
    var n;
    l, n, r := FindFree(b, lo, ci - 1);
    FitsAround(l, Block(n, true), r, nunits);
    Cut(m, lo, freep, l, Block(n, true), r);
    NodesAround(l, Block(n, true), r, lo);
    NodesTop(l, lo);
    NodeBelowLinks(m, l, lo, lo + Total(l));
  }

  /** A large enough block is a node of the free list. */
  lemma FitNode(m: Memory, lo: int, freep: int, b: Layout, n: nat) returns (k: nat)
    requires Inv(m, lo, freep, b) && Fits(b, n) && n >= 1
    ensures Large(m, Nodes(b, lo), k, n)
  {
    hide Headed, Chain, Shaped, Frees, Total, Fits;
    var l, x, r := FindFit(b, n);
    Cut(m, lo, freep, l, x, r);
    NodesAround(l, x, r, lo);
    k := |Nodes(l, lo)|;
  }

  lemma {:induction false} FindFit(b: Layout, n: nat) returns (l: Layout, x: Block, r: Layout)
    requires Fits(b, n)
    ensures b == l + [x] + r && x.free && x.size >= n
  {
    if b[0].free && b[0].size >= n {
      l, x, r := [], b[0], b[1..];
    } else {
      l, x, r := FindFit(b[1..], n);
      l := [b[0]] + l;
    }
  }

  /** After a full turn of the ring every block is known to be too small. */
  lemma AllTooSmall(m: Memory, lo: int, freep: int, b: Layout, i: nat, home: nat, n: nat)
    requires Inv(m, lo, freep, b) && i < |Nodes(b, lo)| && n >= 1
    requires Passed(m, Nodes(b, lo), i, home, n) && Small(m, Nodes(b, lo), home, n)
    requires home == if i + 1 < |Nodes(b, lo)| then i + 1 else 0
    ensures !Fits(b, n)
  {
    if Fits(b, n) {
      var k := FitNode(m, lo, freep, b, n);
      FullTurn(m, Nodes(b, lo), i, home, k, n);
    }
  }

  lemma FullTurn(m: Memory, nodes: seq<int>, i: nat, home: nat, k: nat, n: nat)
    requires i < |nodes| && k < |nodes| && home == if i + 1 < |nodes| then i + 1 else 0
    requires Passed(m, nodes, i, home, n) && Small(m, nodes, home, n)
    ensures Small(m, nodes, k, n)
  {
    assert k != home ==> Ahead(i, k, |nodes|) > Ahead(i, home, |nodes|);
  }

  /** The layout once `n` units of a free block of `s` belong to the program. */
  function Taken(l: Layout, s: nat, n: nat, r: Layout): Layout
    requires n <= s
  {
    if s == n then l + [Block(n, false)] + r else l + [Block(s - n, true)] + [Block(n, false)] + r
  }

  lemma TakeEpilogue(m: Memory, m': Memory, lo: int, freep: int, b: Layout, l: Layout, s: nat, n: nat, r: Layout)
    requires View(m, lo, freep, l, Block(s, true), r) && b == l + [Block(s, true)] + r && 1 <= n <= s
    requires var h, p, c := lo + Total(l), NodeBelow(l, lo), lo + Total(l) + s - n;
             && 0 <= p < |m| && m[p].Hdr? && h < |m| && m[h].Hdr? && c < |m|
             && (s == n ==> SameBut(m, m', h, p) && m'[h] == Hdr(NULL, n) && m'[p] == Hdr(m[h].next, m[p].size))
             && (s > n ==> SameBut(m, m', h, c) && m'[h] == Hdr(m[h].next, s - n) && m'[c] == Hdr(NULL, n))
    ensures Inv(m', lo, NodeBelow(l, lo), Taken(l, s, n, r))
    ensures var c := lo + Total(l) + s - n;
            && Live(Taken(l, s, n, r), lo) == Live(b, lo) + {(c, n)}
            && forall g, k :: (g, k) in Live(b, lo) ==> Kept(m, m', g, k) && (g + k <= c || c + n <= g)
  {
    hide View, Inv, Live, Headed, Chain, Shaped, Frees, Kept;
    assert Inv(m', lo, NodeBelow(l, lo), Taken(l, s, n, r)) by {
      if s == n {
        TakeWhole(m, m', lo, freep, l, n, r);
        Glue(m', lo, NodeBelow(l, lo), l, Block(n, false), r);
      } else {
        TakeTail(m, m', lo, freep, l, s - n, n, r);
        Glue(m', lo, NodeBelow(l, lo), l + [Block(s - n, true)], Block(n, false), r);
      }
    }
    LiveAround(l, Block(s, true), r, lo);
    TakenLive(l, s, n, r, lo);
    FreeViewShape(m, lo, freep, l, s, r);
    LiveBounds(l, lo);
    LiveBounds(r, lo + Total(l) + s);
    LiveKept(m, m', lo, l, r, lo + Total(l) + s);
  }

  lemma TakenLive(l: Layout, s: nat, n: nat, r: Layout, lo: int)
    requires n <= s
    ensures var h := lo + Total(l);
            Live(Taken(l, s, n, r), lo) == Live(l, lo) + {(h + s - n, n)} + Live(r, h + s)
  {
    if s == n {
      LiveAround(l, Block(n, false), r, lo);
    } else {
      LiveAround(l + [Block(s - n, true)], Block(n, false), r, lo);
      LiveAppend(l, [Block(s - n, true)], lo);
      TotalAppend(l, [Block(s - n, true)]);
    }
  }

  lemma FreeViewShape(m: Memory, lo: int, freep: int, l: Layout, s: nat, r: Layout)
    requires View(m, lo, freep, l, Block(s, true), r)
    ensures s >= 1 && BASE < lo && Shaped(l) && Shaped(r)
    ensures |m| == lo + Total(l) + s + Total(r) && NodeBelow(l, lo) in Nodes(l, lo)
  {
  }

  /** A new block above the old break belongs to nobody yet but the allocator. */
  lemma Grown(m: Memory, m': Memory, lo: int, freep: int, b: Layout, n: nat)
    requires Inv(m, lo, freep, b) && n >= 1
    requires |m'| == |m| + n && (forall u :: 0 <= u < |m| ==> m'[u] == m[u])
    requires m'[|m|].Hdr? && m'[|m|].size == n
    ensures var b' := b + [Block(n, false)];
            && Inv(m', lo, freep, b') && freep > 0
            && Live(b', lo) == Live(b, lo) + {(|m|, n)} && Live(b', lo) - {(|m|, n)} == Live(b, lo)
    ensures forall h, k :: (h, k) in Live(b, lo) ==> Kept(m, m', h, k)
  {
    Grow(m, m', lo, freep, b, n);
    Glue(m', lo, freep, b, Block(n, false), []);
    assert b + [Block(n, false)] + [] == b + [Block(n, false)];
    LiveAppend(b, [Block(n, false)], lo);
    LiveBounds(b, lo);
    NodePositive(m', lo, freep, b + [Block(n, false)]);
  }

  lemma NodePositive(m: Memory, lo: int, freep: int, b: Layout)
    requires Inv(m, lo, freep, b)
    ensures freep > 0
  {
    FreesInside(b, lo);
    RisingIn(Frees(b, lo), lo, lo + Total(b));
  }

  lemma KeptTwice(m0: Memory, m1: Memory, m2: Memory, own: set<(int, nat)>)
    requires forall h, k :: (h, k) in own ==> Kept(m0, m1, h, k) && Kept(m1, m2, h, k)
    ensures forall h, k :: (h, k) in own ==> Kept(m0, m2, h, k)
  {
  }

  lemma {:induction false} FitsLess(b: Layout, n: nat, k: nat)
    requires Fits(b, n) && k <= n
    ensures Fits(b, k)
  {
    if !(b[0].free && b[0].size >= n) {
      FitsLess(b[1..], n, k);
    }
  }

  /** Units that hold `n` bytes. */
  function UnitsOf(n: nat): nat {
    (n + UNIT - 1) / UNIT
  }

  function Min(a: int, b: int): int {
    if a < b then a else b
  }

  /** Byte `k` of the payload that starts at unit `p`. */
  function PayloadByte(m: Memory, p: int, k: nat): Byte
    requires 0 <= p && p + k / UNIT < |m|
  {
    ByteOf(m[p + k / UNIT], k % UNIT)
  }

  /** The first `n` bytes at `q` in `m'` are those at `p` in `m`. */
  ghost predicate BytesKept(m: Memory, m': Memory, p: int, q: int, n: int) {
    && 0 <= p && 0 <= q && (n > 0 ==> p + (n - 1) / UNIT < |m| && q + (n - 1) / UNIT < |m'|)
    && forall k: nat {:trigger PayloadByte(m', q, k)} :: k < n ==> PayloadByte(m', q, k) == PayloadByte(m, p, k)
  }

  /** Bytes that a block of `n` units has for the program. */
  function Capacity(n: nat): nat {
    if n == 0 then 0 else (n - 1) * UNIT
  }

  /** Of the first `cap` bytes at `p` only number `k` changed, if it is one of them. */
  ghost predicate Stored(m: Memory, m': Memory, p: int, cap: nat, k: nat, value: Byte) {
    && |m| == |m'| && 0 <= p && p + cap / UNIT <= |m| && cap % UNIT == 0
    && forall j: nat {:trigger PayloadByte(m', p, j)} :: j < cap ==> PayloadByte(m', p, j) == if j == k then value else PayloadByte(m, p, j)
  }

  lemma PayloadStored(m: Memory, p: int, n: nat, k: nat, value: Byte)
    requires 0 <= p && n >= 1 && p + n - 1 <= |m|
    ensures k >= Capacity(n) ==> Stored(m, m, p, Capacity(n), k, value)
    ensures k < Capacity(n) ==>
              Stored(m, m[p + k / UNIT := WithByte(m[p + k / UNIT], k % UNIT, value)], p, Capacity(n), k, value)
  {
  }

  lemma CopiedByte(m: Memory, m0: Memory, m1: Memory, src: int, dst: int, k: nat, n: nat)
    requires k < n && |m0| == |m| && BytesKept(m, m0, src, dst, k)
    requires 0 <= dst && dst + UnitsOf(n) <= |m| && 0 <= src && src + UnitsOf(n) <= |m|
    requires dst + UnitsOf(n) <= src || src + UnitsOf(n) <= dst
    requires forall u :: 0 <= u < |m| && !(dst <= u < dst + UnitsOf(n)) ==> m0[u] == m[u]
    requires m1 == m0[dst + k / UNIT := WithByte(m0[dst + k / UNIT], k % UNIT, ByteOf(m0[src + k / UNIT], k % UNIT))]
    ensures BytesKept(m, m1, src, dst, k + 1)
  {
    forall j: nat {:trigger PayloadByte(m1, dst, j)} | j < k + 1
      ensures PayloadByte(m1, dst, j) == PayloadByte(m, src, j)
    {
      if j < k {
        assert PayloadByte(m0, dst, j) == PayloadByte(m, src, j);
      }
    }
  }

  /** The owned blocks other than the one behind `ptr`. */
  ghost function Others(own: set<(int, nat)>, ptr: int, m: Memory): set<(int, nat)>
    requires ptr == NULL || (0 <= ptr - 1 < |m| && m[ptr - 1].Hdr?)
  {
    if ptr == NULL then own else own - {(ptr - 1, m[ptr - 1].size)}
  }

  lemma SamePayload(m: Memory, m': Memory, h: int, n: nat, bytes: int)
    requires 0 <= h && n >= 1 && h + n <= |m| && h + n <= |m'| && forall u :: h < u < h + n ==> m'[u] == m[u]
    requires bytes <= (n - 1) * UNIT
    ensures BytesKept(m, m', h + 1, h + 1, bytes)
  {
  }

  /** The block behind `ptr` became the one behind `res`, with room for `nbytes`: as many
      bytes as both hold are the same, and no other owned block changed. */
  ghost predicate Resized(m: Memory, own: set<(int, nat)>, m': Memory, own': set<(int, nat)>, ptr: int, res: int, nbytes: nat)
    requires 0 <= ptr - 1 < |m| && m[ptr - 1].Hdr?
  {
    && Gained(m', own', Others(own, ptr, m), res - 1, Units(nbytes))
    && BytesKept(m, m', ptr, res, Min(nbytes, (m[ptr - 1].size - 1) * UNIT))
    && forall h, n :: (h, n) in Others(own, ptr, m) ==> Kept(m, m', h, n)
  }

  /** A block that has the right size already. */
  lemma Unchanged(m: Memory, lo: int, freep: int, b: Layout, h: int, nbytes: nat)
    requires Inv(m, lo, freep, b) && 0 <= h < |m| && m[h].Hdr? && (h, m[h].size) in Live(b, lo) && m[h].size == Units(nbytes)
    ensures Resized(m, Live(b, lo), m, Live(b, lo), h + 1, h + 1, nbytes)
  {
    hide Inv, Live, Kept, BytesKept;
    OwnedApart(m, lo, freep, b, h, Units(nbytes));
    AllKept(m, lo, freep, b);
    SamePayload(m, m, h, Units(nbytes), Min(nbytes, (Units(nbytes) - 1) * UNIT));
  }

  lemma GrewResized(m: Memory, m': Memory, own: set<(int, nat)>, own': set<(int, nat)>, h: int, n: nat, nbytes: nat)
    requires GrewInPlace(m, m', own, own', h, n, Units(nbytes))
    requires 0 <= h < |m| && m[h].Hdr? && m[h].size == n && m'[h].Hdr? && m'[h].size == Units(nbytes)
    ensures Resized(m, own, m', own', h + 1, h + 1, nbytes)
  {
    SamePayload(m, m', h, n, Min(nbytes, (n - 1) * UNIT));
  }

  lemma BytesTwice(m0: Memory, m1: Memory, m2: Memory, p: int, q: int, s: int, n: int)
    requires BytesKept(m0, m1, p, q, n) && BytesKept(m1, m2, q, s, n)
    ensures BytesKept(m0, m2, p, s, n)
  {
    forall k: nat {:trigger PayloadByte(m2, s, k)} | k < n ensures PayloadByte(m2, s, k) == PayloadByte(m0, p, k) {
      assert PayloadByte(m1, q, k) == PayloadByte(m0, p, k);
    }
  }

  lemma OwnedApart(m: Memory, lo: int, freep: int, b: Layout, h: int, n: nat)
    requires Inv(m, lo, freep, b) && (h, n) in Live(b, lo)
    ensures forall g, k :: (g, k) in Live(b, lo) - {(h, n)} ==> g + k <= h || h + n <= g
    ensures Live(b, lo) == Live(b, lo) - {(h, n)} + {(h, n)}
    ensures n >= 1 && lo <= h && h + n <= |m| && BASE < lo
  {
    LiveInside(b, lo, h, n);
  }

  lemma KeptUnits(m: Memory, m': Memory, h: int, n: nat)
    requires Kept(m, m', h, n)
    ensures 0 <= h && h + n <= |m| && h + n <= |m'| && forall u :: h <= u < h + n ==> m'[u] == m[u]
  {
  }

  function Shrunk(l: Layout, n: nat, k: nat, r: Layout): Layout
    requires k <= n
  {
    l + [Block(k, false)] + [Block(n - k, false)] + r
  }

  lemma ShrinkEpilogue(m: Memory, m': Memory, lo: int, freep: int, b: Layout, l: Layout, n: nat, k: nat, r: Layout)
    requires View(m, lo, freep, l, Block(n, false), r) && b == l + [Block(n, false)] + r && 1 <= k < n
    requires var h := lo + Total(l);
             && SameBut(m, m', h, h + k) && 0 <= h < h + k < |m|
             && m'[h].Hdr? && m'[h].size == k && m'[h + k].Hdr? && m'[h + k].size == n - k
    ensures var h := lo + Total(l);
            && Inv(m', lo, freep, Shrunk(l, n, k, r))
            && Live(Shrunk(l, n, k, r), lo) == Live(b, lo) - {(h, n)} + {(h, k), (h + k, n - k)}
            && (h, n) !in Live(b, lo) - {(h, n)} && (forall g, j :: (g, j) in Live(b, lo) - {(h, n)} ==> (g + j <= h || h + n <= g))
    ensures forall g, j :: (g, j) in Live(b, lo) - {(lo + Total(l), n)} ==> Kept(m, m', g, j)
  {
    hide View, Inv, Live, Headed, Chain, Shaped, Frees, Kept, Total;
    var h := lo + Total(l);
    CutLive(m, m', lo, freep, l, k, n - k, r);
    Glue(m', lo, freep, l + [Block(k, false)], Block(n - k, false), r);
    ShrunkLive(l, n, k, r, lo);
    ViewShape(m, lo, freep, l, n, r);
    OthersLive(l, n, r, lo);
    LiveBounds(l, lo);
    LiveBounds(r, h + n);
    LiveKept(m, m', lo, l, r, h + n);
  }

  lemma ShrunkLive(l: Layout, n: nat, k: nat, r: Layout, lo: int)
    requires k <= n
    ensures var h := lo + Total(l);
            Live(Shrunk(l, n, k, r), lo) == Live(l, lo) + Live(r, h + n) + {(h, k), (h + k, n - k)}
  {
    var h := lo + Total(l);
    LiveAround(l + [Block(k, false)], Block(n - k, false), r, lo);
    LiveAppend(l, [Block(k, false)], lo);
    TotalAppend(l, [Block(k, false)]);
    assert h + k + (n - k) == h + n;
  }

  /** The layout once a live block of `n` units swallowed the free one above it. */
  function Swallowed(l: Layout, n: nat, r: Layout): Layout
    requires FirstFree(r)
  {
    l + [Block(n + r[0].size, false)] + r[1..]
  }

  lemma WholeEpilogue(m: Memory, m': Memory, lo: int, freep: int, b: Layout, l: Layout, n: nat, r: Layout)
    requires View(m, lo, freep, l, Block(n, false), r) && b == l + [Block(n, false)] + r && FirstFree(r)
    requires var h, p := lo + Total(l), NodeBelow(l, lo);
             && SameBut(m, m', h, p) && 0 <= p < h && h + n < |m| && m[p].Hdr? && m[h + n].Hdr?
             && m'[h].Hdr? && m'[h].size == n + r[0].size && m'[p] == Hdr(m[h + n].next, m[p].size)
    ensures Inv(m', lo, NodeBelow(l, lo), Swallowed(l, n, r))
    ensures GrewInPlace(m, m', Live(b, lo), Live(Swallowed(l, n, r), lo), lo + Total(l), n, n + r[0].size)
  {
    hide View, Inv, Live, Headed, Chain, Shaped, Frees, Kept, ViewFree;
    var h, f := lo + Total(l), r[0].size;
    PopView(m, lo, freep, l, n, r);
    AbsorbNext(m, m', lo, l, n, f, r[1..]);
    Glue(m', lo, NodeBelow(l, lo), l, Block(n + f, false), r[1..]);
    LiveAround(l, Block(n + f, false), r[1..], lo);
    GrowEpilogue(m, m', lo, freep, l, n, r);
  }

  /** What growing a live block of `n` units at `h` to `k` in place comes to. */
  ghost predicate GrewInPlace(m: Memory, m': Memory, own: set<(int, nat)>, own': set<(int, nat)>, h: int, n: nat, k: nat) {
    && own' == own - {(h, n)} + {(h, k)}
    && (forall g, j :: (g, j) in own - {(h, n)} ==> Kept(m, m', g, j) && (g + j <= h || h + k <= g))
    && 1 <= n <= k && 0 <= h && h + n <= |m| && |m'| == |m| && forall u :: h < u < h + n ==> m'[u] == m[u]
  }

  /** The other live blocks, when only free memory between `l` and `r` was written. */
  lemma GrowEpilogue(m: Memory, m': Memory, lo: int, freep: int, l: Layout, n: nat, r: Layout)
    requires View(m, lo, freep, l, Block(n, false), r) && FirstFree(r) && |m'| == |m|
    requires var h := lo + Total(l);
             forall u :: 0 <= u < |m| && m'[u] != m[u] ==> u in Nodes(l, lo) || u == h || h + n < u < h + n + r[0].size
    ensures var h, b := lo + Total(l), l + [Block(n, false)] + r;
            && Live(b, lo) - {(h, n)} == Live(l, lo) + Live(r[1..], h + n + r[0].size)
            && n >= 1 && 0 <= h && h + n <= |m| && (forall u :: h < u < h + n ==> m'[u] == m[u])
            && forall g, j :: (g, j) in Live(b, lo) - {(h, n)} ==>
                                Kept(m, m', g, j) && (g + j <= h || h + n + r[0].size <= g)
  {
    hide View, Inv, Live, Headed, Chain, Shaped, Frees, Kept;
    var h, e := lo + Total(l), lo + Total(l) + n + r[0].size;
    ViewShape(m, lo, freep, l, n, r);
    OthersLive(l, n, r, lo);
    PopFree(m, r, h + n);
    LiveBounds(l, lo);
    LiveBounds(r[1..], e);
    NodesTop(l, lo);
    LiveKept(m, m', lo, l, r[1..], e);
  }

  /** The layout once a live block of `n` units has `k`, taken from the free one above. */
  function Widened(l: Layout, n: nat, k: nat, r: Layout): Layout
    requires FirstFree(r) && n <= k <= n + r[0].size
  {
    l + [Block(k, false)] + [Block(n + r[0].size - k, true)] + r[1..]
  }

  lemma PartEpilogue(m: Memory, m': Memory, lo: int, freep: int, b: Layout, l: Layout, n: nat, k: nat, r: Layout)
    requires View(m, lo, freep, l, Block(n, false), r) && b == l + [Block(n, false)] + r && FirstFree(r)
    requires n < k < n + r[0].size
    requires var h, p := lo + Total(l), NodeBelow(l, lo);
             && |m'| == |m| && (forall u :: 0 <= u < |m| && u != h && u != p && u != h + k ==> m'[u] == m[u])
             && 0 <= p < h && h + k < |m| && m[p].Hdr? && m[h + n].Hdr?
             && m'[h].Hdr? && m'[h].size == k && m'[p] == Hdr(h + k, m[p].size)
             && m'[h + k] == Hdr(m[h + n].next, n + r[0].size - k)
    ensures Inv(m', lo, lo + Total(l) + k, Widened(l, n, k, r))
    ensures GrewInPlace(m, m', Live(b, lo), Live(Widened(l, n, k, r), lo), lo + Total(l), n, k)
  {
    hide View, Inv, Live, Headed, Chain, Shaped, Frees, Kept, ViewFree;
    var h, f := lo + Total(l), r[0].size;
    PopView(m, lo, freep, l, n, r);
    AbsorbPart(m, m', lo, l, n, f, k, r[1..]);
    Glue(m', lo, h + k, l + [Block(k, false)], Block(n + f - k, true), r[1..]);
    WidenedLive(l, n, k, r, lo);
    GrowEpilogue(m, m', lo, freep, l, n, r);
  }

  lemma WidenedLive(l: Layout, n: nat, k: nat, r: Layout, lo: int)
    requires FirstFree(r) && n <= k <= n + r[0].size
    ensures var h := lo + Total(l);
            Live(Widened(l, n, k, r), lo) == Live(l, lo) + {(h, k)} + Live(r[1..], h + n + r[0].size)
  {
    var h := lo + Total(l);
    LiveAround(l + [Block(k, false)], Block(n + r[0].size - k, true), r[1..], lo);
    LiveAppend(l, [Block(k, false)], lo);
    TotalAppend(l, [Block(k, false)]);
    assert h + k + (n + r[0].size - k) == h + n + r[0].size;
  }

  /** Writes to a live block's payload disturb neither the allocator nor other blocks. */
  lemma PayloadWritten(m: Memory, m': Memory, lo: int, freep: int, b: Layout, h: int, n: nat)
    requires Inv(m, lo, freep, b) && (h, n) in Live(b, lo)
    requires |m'| == |m| && forall u :: 0 <= u < |m| && !(h < u < h + n) ==> m'[u] == m[u]
    ensures Inv(m', lo, freep, b)
    ensures forall g, k :: (g, k) in Live(b, lo) && (g, k) != (h, n) ==> Kept(m, m', g, k)
    ensures 0 <= h && h + n <= |m|
  {
    hide Inv, View, Live, Headed, Chain, Shaped, Frees, Kept;
    var l, r := FindLive(b, lo, h, n);
    Cut(m, lo, freep, l, Block(n, false), r);
    ViewRewritten(m, m', lo, freep, l, n, r);
    Glue(m', lo, freep, l, Block(n, false), r);
    ViewShape(m, lo, freep, l, n, r);
    OthersLive(l, n, r, lo);
    LiveKept(m, m', lo, l, r, h + n);
  }

  lemma ViewRewritten(m: Memory, m': Memory, lo: int, freep: int, l: Layout, n: nat, r: Layout)
    requires View(m, lo, freep, l, Block(n, false), r)
    requires var h := lo + Total(l);
             |m'| == |m| && forall u :: 0 <= u < |m| && !(h < u < h + n) ==> m'[u] == m[u]
    ensures View(m', lo, freep, l, Block(n, false), r)
  {
    hide Headed, Chain, Shaped, Frees, Total;
    var q := NodeAbove(r, lo + Total(l) + n);
    NodeBelowLinks(m, l, lo, q);
    NodeBelowTouches(m, l, lo);
    BelowKept(m, m', lo, l, q, q);
    AboveKept(m, m', r, lo + Total(l) + n);
  }

  lemma AllKept(m: Memory, lo: int, freep: int, b: Layout)
    requires Inv(m, lo, freep, b)
    ensures forall h, n :: (h, n) in Live(b, lo) ==> Kept(m, m, h, n)
  {
    LiveBounds(b, lo);
  }

  /** What free finds around the block it gets. */
  lemma FreePrologue(m: Memory, lo: int, freep: int, b: Layout, l: Layout, n: nat, r: Layout)
    requires Inv(m, lo, freep, b) && b == l + [Block(n, false)] + r
    ensures var h, p := lo + Total(l), NodeBelow(l, lo);
            && View(m, lo, freep, l, Block(n, false), r) && BASE < lo && Shaped(b)
            && h !in Nodes(b, lo) && 0 <= p < h && h + n <= |m|
            && PointsTo(m, p, NodeAbove(r, h + n)) && (NodeAbove(r, h + n) == h + n <==> FirstFree(r))
            && (p + m[p].size == h <==> LastFree(l))
            && (FirstFree(r) ==> h + n + r[0].size <= |m| && r[0].size >= 1 && m[h + n].Hdr? && m[h + n].size == r[0].size)
  {
    hide Headed, Chain, Frees, Shaped, Total, Live;
    var h := lo + Total(l);
    Cut(m, lo, freep, l, Block(n, false), r);
    NodesSides(l, Block(n, false), r, lo);
    NodeBelowLinks(m, l, lo, NodeAbove(r, h + n));
    NodeAboveTouches(r, h + n);
    NodeBelowTouches(m, l, lo);
    NodesTop(l, lo);
    if FirstFree(r) {
      PopFree(m, r, h + n);
    }
  }

  lemma FreeEpilogue(m: Memory, m': Memory, lo: int, freep: int, b: Layout, l: Layout, n: nat, r: Layout)
    requires View(m, lo, freep, l, Block(n, false), r) && b == l + [Block(n, false)] + r
    requires var p := NodeBelow(l, lo); 0 <= p < |m| && m[p].Hdr?
    requires var e := lo + Total(l) + n;
             && (FirstFree(r) ==> e < |m| && m[e].Hdr? && FreeWrites(m, m', lo, l, m[e].next, n + r[0].size))
             && (!FirstFree(r) ==> FreeWrites(m, m', lo, l, m[NodeBelow(l, lo)].next, n))
    ensures Inv(m', lo, NodeBelow(l, lo), Freed(l, n, r))
    ensures Live(Freed(l, n, r), lo) == Live(b, lo) - {(lo + Total(l), n)}
    ensures Fits(Freed(l, n, r), n)
    ensures forall g, k :: (g, k) in Live(Freed(l, n, r), lo) ==> Kept(m, m', g, k)
  {
    hide Inv, View, Headed, Chain, Frees, JoinBelow, Fits, Live, Kept;
    assert Inv(m', lo, NodeBelow(l, lo), Freed(l, n, r)) by {
      if FirstFree(r) {
        FreeJoined(m, m', lo, freep, l, n, r);
      } else {
        FreeAlone(m, m', lo, freep, l, n, r);
      }
    }
    FreedFits(l, n, r);
    FreedLive(l, n, r, lo);
    ViewShape(m, lo, freep, l, n, r);
    OthersLive(l, n, r, lo);
    LiveKept(m, m', lo, l, r, lo + Total(l) + n);
  }

  lemma ViewShape(m: Memory, lo: int, freep: int, l: Layout, n: nat, r: Layout)
    requires View(m, lo, freep, l, Block(n, false), r)
    ensures n >= 1 && BASE < lo && Shaped(l + [Block(n, false)] + r) && Shaped(l) && Shaped(r)
    ensures |m| == lo + Total(l) + n + Total(r) && NodeBelow(l, lo) in Nodes(l, lo)
  {
    Around(l, Block(n, false), r, lo);
  }

  /** Where a node of the free list points. */
  lemma NodeLinks(m: Memory, lo: int, freep: int, b: Layout, i: nat)
    requires Inv(m, lo, freep, b) && i < |Nodes(b, lo)|
    ensures var nodes := Nodes(b, lo);
            && PointsTo(m, nodes[i], if i + 1 < |nodes| then nodes[i + 1] else BASE)
            && nodes[0] == BASE <= nodes[i] && (i + 1 < |nodes| ==> nodes[i] < nodes[i + 1])
  {
    NodesRise(b, lo);
    RisingAt(Nodes(b, lo), BASE, lo + Total(b));
    ChainAt(m, Nodes(b, lo), BASE, i);
  }

  lemma Between(b: Layout, lo: int, i: nat, hp: int)
    requires BASE < lo && Shaped(b) && i < |Nodes(b, lo)| && Nodes(b, lo)[i] < hp
    requires i + 1 < |Nodes(b, lo)| ==> hp < Nodes(b, lo)[i + 1]
    ensures forall x :: x in Nodes(b, lo) ==> x <= Nodes(b, lo)[i] || hp < x
  {
    var nodes := Nodes(b, lo);
    NodesRise(b, lo);
    RisingAt(nodes, BASE, lo + Total(b));
    forall x | x in nodes ensures x <= nodes[i] || hp < x {
      var j :| 0 <= j < |nodes| && nodes[j] == x;
      if j > i {
        assert nodes[i + 1] <= x;
      }
    }
  }

  lemma {:induction false} IndexBelow(s: seq<int>, x: int) returns (i: nat)
    requires s != [] && s[0] < x && x !in s
    ensures i < |s| && s[i] < x && (i + 1 < |s| ==> x < s[i + 1])
  {
    if |s| == 1 || x < s[1] {
      i := 0;
    } else {
      i := IndexBelow(s[1..], x);
      i := i + 1;
    }
  }

  /** The nodes below a live block, and the ones above it. */
  lemma NodesSides(l: Layout, x: Block, r: Layout, lo: int)
    requires BASE < lo && Shaped(l + [x] + r) && !x.free
    ensures var h := lo + Total(l);
            var f := Frees(r, h + x.size);
            && Nodes(l + [x] + r, lo) == Nodes(l, lo) + f
            && (forall y :: y in f ==> h < y)
            && NodeBelow(l, lo) in Nodes(l, lo) && NodeBelow(l, lo) < h
    ensures forall y :: y in Nodes(l, lo) ==> y <= NodeBelow(l, lo)
  {
    var h := lo + Total(l);
    NodesAround(l, x, r, lo);
    assert [] + Frees(r, h + x.size) == Frees(r, h + x.size);
    Around(l, x, r, lo);
    FreesInside(r, h + x.size);
    RisingIn(Frees(r, h + x.size), h + x.size, h + x.size + Total(r));
    NodesTop(l, lo);
  }

  lemma NodesTop(l: Layout, lo: int)
    requires BASE < lo && Shaped(l)
    ensures NodeBelow(l, lo) < lo + Total(l)
    ensures forall y :: y in Nodes(l, lo) ==> y <= NodeBelow(l, lo)
  {
    NodesRise(l, lo);
    RisingAt(Nodes(l, lo), BASE, lo + Total(l));
    forall y | y in Nodes(l, lo) ensures y <= NodeBelow(l, lo) {
      var i :| 0 <= i < |Nodes(l, lo)| && Nodes(l, lo)[i] == y;
    }
  }

  /** A node below `hp` with no node in between is the one the layout below ends with. */
  lemma {:induction false} NodeBelowUnique(l: Layout, x: Block, r: Layout, lo: int, p: int)
    requires BASE < lo && Shaped(l + [x] + r) && !x.free
    requires p in Nodes(l + [x] + r, lo) && p < lo + Total(l)
    requires forall y :: y in Nodes(l + [x] + r, lo) ==> y <= p || lo + Total(l) < y
    ensures p == NodeBelow(l, lo)
  {
    NodesSides(l, x, r, lo);
    var f := Frees(r, lo + Total(l) + x.size);
    assert p !in f && p in Nodes(l, lo);
    assert NodeBelow(l, lo) in Nodes(l, lo) + f;
  }
}
