/** What the writes of free, malloc and realloc do to the invariant. */
module HeapSteps {
  import opened HeapLayout
  import opened HeapMemory

  ghost predicate SameBut(m: Memory, m': Memory, a: int, b: int) {
    |m'| == |m| && forall u :: 0 <= u < |m| && u != a && u != b ==> m'[u] == m[u]
  }

  /** The last node of the free list below the end of layout `l`. */
  function NodeBelow(l: Layout, lo: int): int {
    Nodes(l, lo)[|Nodes(l, lo)| - 1]
  }

  /** The first node of the free list from the start of layout `r`, or the base. */
  function NodeAbove(r: Layout, a: int): int {
    HeadOr(Frees(r, a), BASE)
  }

  /** The node below an address ends there exactly when the block below it is free. */
  lemma {:induction false} NodeBelowTouches(m: Memory, l: Layout, lo: int)
    requires BASE < lo && Shaped(l) && Headed(m, l, lo) && |m| > BASE && m[BASE].Hdr? && m[BASE].size == 0
    ensures var p := NodeBelow(l, lo);
            && (p == BASE || lo <= p < lo + Total(l)) && p < |m| && m[p].Hdr?
            && p + m[p].size <= lo + Total(l)
            && (p + m[p].size == lo + Total(l) <==> LastFree(l))
            && (LastFree(l) ==> p == lo + Total(l) - l[|l| - 1].size)
    decreases |l|
  {
    hide Headed, Shaped, Frees, Live, Total;
    if l == [] {
      NothingBelow(lo);
    } else {
      var k, x := l[..|l| - 1], l[|l| - 1];
      assert l == k + [x];
      PushBlock(m, k, x, lo);
      NodeBelowTouches(m, k, lo);
    }
  }

  lemma NothingBelow(lo: int)
    ensures Nodes([], lo) == [BASE] && Total([]) == 0
  {
  }

  lemma NodeAboveTouches(r: Layout, a: int)
    requires Shaped(r) && BASE < a
    ensures NodeAbove(r, a) == a <==> FirstFree(r)
  {
    FreesInside(r, a);
    RisingIn(Frees(r, a), a, a + Total(r));
  }

  lemma NodesRise(l: Layout, lo: int)
    requires Shaped(l) && BASE < lo
    ensures Rising(Nodes(l, lo), BASE, lo + Total(l))
  {
    FreesInside(l, lo);
    RisingWiden(Frees(l, lo), lo, BASE + 1, lo + Total(l));
    assert Nodes(l, lo)[1..] == Frees(l, lo);
  }

  lemma PushBlock(m: Memory, l: Layout, x: Block, lo: int)
    ensures Total(l + [x]) == Total(l) + x.size
    ensures Nodes(l + [x], lo) == Nodes(l, lo) + if x.free then [lo + Total(l)] else []
    ensures Live(l + [x], lo) == Live(l, lo) + if x.free then {} else {(lo + Total(l), x.size)}
    ensures Shaped(l + [x]) <==> Shaped(l) && x.size >= 1 && !(LastFree(l) && x.free)
    ensures var h := lo + Total(l);
            Headed(m, l + [x], lo) <==> Headed(m, l, lo) && 0 <= h < |m| && m[h].Hdr? && m[h].size == x.size
  {
    TotalAppend(l, [x]);
    FreesAppend(l, [x], lo);
    LiveAppend(l, [x], lo);
    ShapedAppend(l, [x]);
    HeadedAppend(m, l, [x], lo);
  }

  /** A live block of `k` units on top of the layout below. */
  lemma PushLive(m: Memory, lo: int, l: Layout, k: nat, q: int)
    requires Shaped(l) && Headed(m, l, lo) && Chain(m, Nodes(l, lo), q) && k >= 1
    requires var h := lo + Total(l); 0 <= h < |m| && m[h].Hdr? && m[h].size == k
    ensures var t := l + [Block(k, false)];
            && Shaped(t) && !LastFree(t) && Headed(m, t, lo) && Chain(m, Nodes(t, lo), q)
            && Total(t) == Total(l) + k && Nodes(t, lo) == Nodes(l, lo)
  {
    PushBlock(m, l, Block(k, false), lo);
    assert Nodes(l + [Block(k, false)], lo) == Nodes(l, lo);
  }

  lemma PopFree(m: Memory, r: Layout, e: int)
    requires FirstFree(r)
    ensures Frees(r, e) == [e] + Frees(r[1..], e + r[0].size)
    ensures Total(r) == r[0].size + Total(r[1..])
    ensures Live(r, e) == Live(r[1..], e + r[0].size)
    ensures Shaped(r) ==> r[0].size >= 1 && Shaped(r[1..]) && !FirstFree(r[1..])
    ensures Headed(m, r, e) ==> 0 <= e < |m| && m[e].Hdr? && m[e].size == r[0].size && Headed(m, r[1..], e + r[0].size)
    ensures Chain(m, Frees(r, e), BASE) ==>
              PointsTo(m, e, NodeAbove(r[1..], e + r[0].size)) && Chain(m, Frees(r[1..], e + r[0].size), BASE)
  {
    assert Frees(r, e)[1..] == Frees(r[1..], e + r[0].size);
  }

  /** The invariant of a heap laid out as `l`, then block `x`, then `r`. */
  ghost predicate View(m: Memory, lo: int, freep: int, l: Layout, x: Block, r: Layout) {
    var h := lo + Total(l);
    && BASE < lo && |m| == h + x.size + Total(r)
    && m[BASE].Hdr? && m[BASE].size == 0
    && Shaped(l) && Shaped(r) && x.size >= 1
    && (x.free ==> !LastFree(l) && !FirstFree(r))
    && Headed(m, l, lo) && m[h].Hdr? && m[h].size == x.size && Headed(m, r, h + x.size)
    && Chain(m, Nodes(l, lo), if x.free then h else NodeAbove(r, h + x.size))
    && (x.free ==> m[h].next == NodeAbove(r, h + x.size))
    && Chain(m, Frees(r, h + x.size), BASE)
    && (freep in Nodes(l, lo) || (x.free && freep == h) || freep in Frees(r, h + x.size))
  }

  lemma Cut(m: Memory, lo: int, freep: int, l: Layout, x: Block, r: Layout)
    requires Inv(m, lo, freep, l + [x] + r)
    ensures View(m, lo, freep, l, x, r)
  {
    hide Headed, Chain, Shaped, Frees, Total;
    var h := lo + Total(l);
    NodesAround(l, x, r, lo);
    ChainAround(m, Nodes(l, lo), if x.free then [h] else [], Frees(r, h + x.size));
    Around(l, x, r, lo);
    HeadedAround(m, l, x, r, lo);
  }

  lemma Glue(m: Memory, lo: int, freep: int, l: Layout, x: Block, r: Layout)
    requires View(m, lo, freep, l, x, r)
    ensures Inv(m, lo, freep, l + [x] + r)
  {
    hide Headed, Chain, Shaped, Frees, Total;
    HeadedAround(m, l, x, r, lo);
    GlueChain(m, lo, freep, l, x, r);
    Around(l, x, r, lo);
  }

  lemma GlueChain(m: Memory, lo: int, freep: int, l: Layout, x: Block, r: Layout)
    requires View(m, lo, freep, l, x, r)
    ensures Chain(m, Nodes(l + [x] + r, lo), BASE) && freep in Nodes(l + [x] + r, lo)
  {
    hide Headed, Chain, Shaped, Frees, Total;
    NodesAround(l, x, r, lo);
    ChainAround(m, Nodes(l, lo), if x.free then [lo + Total(l)] else [], Frees(r, lo + Total(l) + x.size));
  }

  lemma ChainAround(m: Memory, p: seq<int>, mid: seq<int>, f: seq<int>)
    requires |mid| <= 1
    ensures Chain(m, p + (mid + f), BASE) <==>
              && Chain(m, p, HeadOr(mid, HeadOr(f, BASE)))
              && (mid != [] ==> PointsTo(m, mid[0], HeadOr(f, BASE)))
              && Chain(m, f, BASE)
  {
    ChainAppend(m, p, mid + f, BASE);
    if mid == [] {
      assert mid + f == f;
    } else {
      assert (mid + f)[1..] == f;
    }
  }

  lemma HeadedAround(m: Memory, l: Layout, x: Block, r: Layout, lo: int)
    ensures var h := lo + Total(l);
            Headed(m, l + [x] + r, lo) <==>
              && Headed(m, l, lo) && 0 <= h < |m| && m[h].Hdr? && m[h].size == x.size
              && Headed(m, r, h + x.size)
  {
    HeadedAppend(m, l, [x], lo);
    HeadedAppend(m, l + [x], r, lo);
    TotalAppend(l, [x]);
  }

  lemma NodesAround(l: Layout, x: Block, r: Layout, lo: int)
    ensures var h := lo + Total(l);
            Nodes(l + [x] + r, lo) == Nodes(l, lo) + ((if x.free then [h] else []) + Frees(r, h + x.size))
  {
    FreesAppend(l, [x], lo);
    FreesAppend(l + [x], r, lo);
    TotalAppend(l, [x]);
  }

  /** Below a block only the last node's link was written. */
  lemma BelowKept(m: Memory, m': Memory, lo: int, l: Layout, q: int, q': int)
    requires BASE < lo && lo + Total(l) <= |m| <= |m'| && m[BASE].Hdr? && m[BASE].size == 0
    requires Shaped(l) && Headed(m, l, lo) && Chain(m, Nodes(l, lo), q)
    requires forall u :: 0 <= u < lo + Total(l) && m'[u] != m[u] ==> u == NodeBelow(l, lo)
    requires var p := NodeBelow(l, lo); 0 <= p < |m| && m[p].Hdr? && m'[p] == Hdr(q', m[p].size)
    ensures Headed(m', l, lo) && Chain(m', Nodes(l, lo), q')
    ensures m'[BASE].Hdr? && m'[BASE].size == 0
    ensures NodeBelow(l, lo) < lo + Total(l)
  {
    NodeBelowTouches(m, l, lo);
    HeadedKept(m, m', l, lo);
    NodesRise(l, lo);
    ChainRelinked(m, m', Nodes(l, lo), q, q', BASE, lo + Total(l));
  }

  /** Above a block nothing was written. */
  lemma AboveKept(m: Memory, m': Memory, r: Layout, e: int)
    requires Shaped(r) && Headed(m, r, e) && Chain(m, Frees(r, e), BASE)
    requires 0 <= e && e + Total(r) <= |m| <= |m'| && forall u :: e <= u < |m| ==> m'[u] == m[u]
    ensures Headed(m', r, e) && Chain(m', Frees(r, e), BASE)
  {
    hide Headed, Chain, Frees, Shaped, Total, Rising, SizesKept, NextsKept;
    SameAbove(m, m', e, e + Total(r));
    HeadedKept(m, m', r, e);
    FreesInside(r, e);
    ChainKept(m, m', Frees(r, e), BASE, e, e + Total(r));
  }

  lemma SameAbove(m: Memory, m': Memory, e: int, t: int)
    requires 0 <= e && |m| <= |m'| && forall u :: e <= u < |m| ==> m'[u] == m[u]
    ensures SizesKept(m, m', e, t) && NextsKept(m, m', e, t)
  {
  }

  /** A heap laid out as `l`, a live block of `n` units, a free one of `f`, then `r`. */
  ghost predicate ViewFree(m: Memory, lo: int, l: Layout, n: nat, f: nat, r: Layout) {
    var h := lo + Total(l);
    && BASE < lo && |m| == h + n + f + Total(r)
    && m[BASE].Hdr? && m[BASE].size == 0
    && Shaped(l) && Shaped(r) && !FirstFree(r) && n >= 1 && f >= 1
    && Headed(m, l, lo) && m[h].Hdr? && m[h].size == n
    && m[h + n] == Hdr(NodeAbove(r, h + n + f), f) && Headed(m, r, h + n + f)
    && Chain(m, Nodes(l, lo), h + n) && Chain(m, Frees(r, h + n + f), BASE)
  }

  lemma PopView(m: Memory, lo: int, freep: int, l: Layout, n: nat, r: Layout)
    requires View(m, lo, freep, l, Block(n, false), r) && FirstFree(r)
    ensures ViewFree(m, lo, l, n, r[0].size, r[1..])
  {
    PopFree(m, r, lo + Total(l) + n);
  }

  lemma NodeBelowLinks(m: Memory, l: Layout, lo: int, q: int)
    requires Chain(m, Nodes(l, lo), q)
    ensures PointsTo(m, NodeBelow(l, lo), q)
  {
    ChainAt(m, Nodes(l, lo), q, |Nodes(l, lo)| - 1);
  }

  /** Free: a block that touches no free block became a node of its own. */
  lemma LinkBlock(m: Memory, m': Memory, lo: int, freep: int, l: Layout, n: nat, r: Layout)
    requires View(m, lo, freep, l, Block(n, false), r) && !LastFree(l) && !FirstFree(r)
    requires var h, p := lo + Total(l), NodeBelow(l, lo);
             && SameBut(m, m', h, p) && 0 <= p < |m| && m[p].Hdr?
             && m'[h] == Hdr(m[p].next, n) && m'[p] == Hdr(h, m[p].size)
    ensures View(m', lo, NodeBelow(l, lo), l, Block(n, true), r)
  {
    hide Headed, Chain, Shaped, Frees, Total;
    var h, e := lo + Total(l), lo + Total(l) + n;
    NodeBelowLinks(m, l, lo, NodeAbove(r, e));
    BelowKept(m, m', lo, l, NodeAbove(r, e), h);
    AboveKept(m, m', r, e);
  }

  /** Free: a block swallowed the free block that starts where it ends; also what
      realloc does when that is just enough. */
  lemma AbsorbNext(m: Memory, m': Memory, lo: int, l: Layout, n: nat, f: nat, r: Layout)
    requires ViewFree(m, lo, l, n, f, r)
    requires var h, p := lo + Total(l), NodeBelow(l, lo);
             && SameBut(m, m', h, p) && 0 <= p < |m| && m[p].Hdr?
             && m'[h].Hdr? && m'[h].size == n + f && m'[p] == Hdr(m[h + n].next, m[p].size)
    ensures View(m', lo, NodeBelow(l, lo), l, Block(n + f, false), r)
  {
    hide Headed, Chain, Shaped, Frees, Total;
    var e := lo + Total(l) + n + f;
    BelowKept(m, m', lo, l, lo + Total(l) + n, NodeAbove(r, e));
    AboveKept(m, m', r, e);
  }

  /** A heap laid out as `k`, a free block of `s` units, a live one of `n`, then `r`. */
  ghost predicate FreeView(m: Memory, lo: int, k: Layout, s: nat, n: nat, r: Layout) {
    var p := lo + Total(k);
    && BASE < lo && |m| == p + s + n + Total(r)
    && m[BASE].Hdr? && m[BASE].size == 0
    && Shaped(k) && !LastFree(k) && Shaped(r) && s >= 1 && n >= 1
    && Headed(m, k, lo) && Headed(m, r, p + s + n)
    && m[p] == Hdr(NodeAbove(r, p + s + n), s)
    && Chain(m, Nodes(k, lo), p) && Chain(m, Frees(r, p + s + n), BASE)
  }

  lemma PopBelow(m: Memory, lo: int, freep: int, l: Layout, k: Layout, s: nat, n: nat, r: Layout)
    requires View(m, lo, freep, l, Block(n, false), r) && l == k + [Block(s, true)]
    ensures FreeView(m, lo, k, s, n, r)
    ensures NodeBelow(l, lo) == lo + Total(k) && Total(l) == Total(k) + s
  {
    hide Headed, Chain, Shaped, Frees, Total;
    var q := NodeAbove(r, lo + Total(l) + n);
    PopLast(m, lo, l, k, s);
    NodeBelowLinks(m, l, lo, q);
    ChainAppend(m, Nodes(k, lo), [lo + Total(k)], q);
  }

  lemma PopLast(m: Memory, lo: int, l: Layout, k: Layout, s: nat)
    requires Shaped(l) && Headed(m, l, lo) && l == k + [Block(s, true)]
    ensures Headed(m, k, lo) && Shaped(k) && !LastFree(k) && Total(k) + s == Total(l) && s >= 1
    ensures var p := lo + Total(k); 0 <= p < |m| && m[p].Hdr? && m[p].size == s && Nodes(l, lo) == Nodes(k, lo) + [p]
  {
    PushBlock(m, k, Block(s, true), lo);
  }

  /** Free: a block was swallowed by the free block that ends where it starts. */
  lemma JoinPrevious(m: Memory, m': Memory, lo: int, k: Layout, s: nat, n: nat, r: Layout)
    requires FreeView(m, lo, k, s, n, r) && !FirstFree(r)
    requires var p := lo + Total(k);
             && SameBut(m, m', p + s, p) && m'[p] == Hdr(m[p].next, s + n)
    ensures View(m', lo, lo + Total(k), k, Block(s + n, true), r)
  {
    hide Headed, Chain, Shaped, Frees, Total;
    var p := lo + Total(k);
    assert Headed(m', k, lo) && Chain(m', Nodes(k, lo), p) && m'[BASE].Hdr? && m'[BASE].size == 0 by {
      NodeBelowLinks(m, k, lo, p);
      NodeBelowTouches(m, k, lo);
      BelowKept(m, m', lo, k, p, p);
    }
    assert Headed(m', r, p + s + n) && Chain(m', Frees(r, p + s + n), BASE) by {
      AboveKept(m, m', r, p + s + n);
    }
    assert lo + Total(k) + Block(s + n, true).size == p + s + n;
  }

  /** Malloc: a free block of the right size left the list. */
  lemma TakeWhole(m: Memory, m': Memory, lo: int, freep: int, l: Layout, n: nat, r: Layout)
    requires View(m, lo, freep, l, Block(n, true), r)
    requires var h, p := lo + Total(l), NodeBelow(l, lo);
             && SameBut(m, m', h, p) && 0 <= p < |m| && m[p].Hdr? && m[h].Hdr?
             && m'[h].Hdr? && m'[h].size == n && m'[p] == Hdr(m[h].next, m[p].size)
    ensures View(m', lo, NodeBelow(l, lo), l, Block(n, false), r)
  {
    hide Headed, Chain, Shaped, Frees, Total;
    BelowKept(m, m', lo, l, lo + Total(l), m[lo + Total(l)].next);
    AboveKept(m, m', r, lo + Total(l) + n);
  }

  /** Malloc: the upper `n` units of a free block became a block of their own. */
  lemma TakeTail(m: Memory, m': Memory, lo: int, freep: int, l: Layout, k: nat, n: nat, r: Layout)
    requires View(m, lo, freep, l, Block(k + n, true), r) && k >= 1 && n >= 1
    requires var h := lo + Total(l);
             && SameBut(m, m', h, h + k) && m[h].Hdr? && m'[h] == Hdr(m[h].next, k)
             && m'[h + k].Hdr? && m'[h + k].size == n
    ensures View(m', lo, NodeBelow(l, lo), l + [Block(k, true)], Block(n, false), r)
  {
    hide Headed, Shaped, Frees, Total;
    var h, e := lo + Total(l), lo + Total(l) + k + n;
    NodeBelowLinks(m, l, lo, h);
    NodeBelowTouches(m, l, lo);
    BelowKept(m, m', lo, l, h, h);
    AboveKept(m, m', r, e);
    PushBlock(m', l, Block(k, true), lo);
    ChainAppend(m', Nodes(l, lo), [h], NodeAbove(r, e));
  }

  /** Realloc: a live block was cut after `k` units. */
  lemma CutLive(m: Memory, m': Memory, lo: int, freep: int, l: Layout, k: nat, n: nat, r: Layout)
    requires View(m, lo, freep, l, Block(k + n, false), r) && k >= 1 && n >= 1
    requires var h := lo + Total(l);
             && SameBut(m, m', h, h + k) && m'[h].Hdr? && m'[h].size == k && m'[h + k].Hdr? && m'[h + k].size == n
    ensures View(m', lo, freep, l + [Block(k, false)], Block(n, false), r)
  {
    hide Headed, Chain, Shaped, Frees, Total;
    var e := lo + Total(l) + k + n;
    NodeBelowLinks(m, l, lo, NodeAbove(r, e));
    NodeBelowTouches(m, l, lo);
    BelowKept(m, m', lo, l, NodeAbove(r, e), NodeAbove(r, e));
    AboveKept(m, m', r, e);
    PushLive(m', lo, l, k, NodeAbove(r, e));
  }

  /** Realloc: a live block took the lower part of the free block that follows it. */
  lemma AbsorbPart(m: Memory, m': Memory, lo: int, l: Layout, n: nat, f: nat, k: nat, r: Layout)
    requires ViewFree(m, lo, l, n, f, r) && n < k < n + f
    requires var h, p := lo + Total(l), NodeBelow(l, lo);
             && |m'| == |m| && (forall u :: 0 <= u < |m| && u != h && u != p && u != h + k ==> m'[u] == m[u])
             && 0 <= p < |m| && m[p].Hdr?
             && m'[h].Hdr? && m'[h].size == k && m'[p] == Hdr(h + k, m[p].size)
             && m'[h + k] == Hdr(m[h + n].next, n + f - k)
    ensures View(m', lo, lo + Total(l) + k, l + [Block(k, false)], Block(n + f - k, true), r)
  {
    hide Headed, Chain, Shaped, Frees, Total;
    var h, e := lo + Total(l), lo + Total(l) + n + f;
    assert Headed(m', l, lo) && Chain(m', Nodes(l, lo), h + k) && m'[BASE].Hdr? && m'[BASE].size == 0 by {
      NodeBelowTouches(m, l, lo);
      BelowKept(m, m', lo, l, h + n, h + k);
    }
    assert Headed(m', r, e) && Chain(m', Frees(r, e), BASE) by {
      NodeBelowTouches(m, l, lo);
      AboveKept(m, m', r, e);
    }
    PushLive(m', lo, l, k, h + k);
    assert lo + Total(l + [Block(k, false)]) + Block(n + f - k, true).size == e;
  }

  /** Morecore: a block of new units follows the old break. */
  lemma Grow(m: Memory, m': Memory, lo: int, freep: int, b: Layout, n: nat)
    requires Inv(m, lo, freep, b) && n >= 1
    requires |m'| == |m| + n && (forall u :: 0 <= u < |m| ==> m'[u] == m[u])
    requires m'[|m|].Hdr? && m'[|m|].size == n
    ensures View(m', lo, freep, b, Block(n, false), [])
  {
    NodeBelowLinks(m, b, lo, BASE);
    BelowKept(m, m', lo, b, BASE, BASE);
  }

  /** The units of block `h`, header included, hold the same in `m` and `m'`. */
  ghost predicate Kept(m: Memory, m': Memory, h: int, n: nat) {
    0 <= h && h + n <= |m| && h + n <= |m'| && forall u :: h <= u < h + n ==> m'[u] == m[u]
  }

  /** Writes to nodes of the free list and to the units between the two layouts leave
      every live block in them as it was. */
  lemma LiveKept(m: Memory, m': Memory, lo: int, l: Layout, r: Layout, e: int)
    requires BASE < lo && Shaped(l) && Shaped(r) && lo + Total(l) <= e && e + Total(r) <= |m| <= |m'|
    requires forall u :: 0 <= u < |m| && m'[u] != m[u] ==> u in Nodes(l, lo) || lo + Total(l) <= u < e
    ensures forall g, k :: (g, k) in Live(l, lo) + Live(r, e) ==> Kept(m, m', g, k)
  {
    FreesInside(l, lo);
    RisingIn(Frees(l, lo), lo, lo + Total(l));
    forall g, k | (g, k) in Live(l, lo) + Live(r, e) ensures Kept(m, m', g, k) {
      if (g, k) in Live(l, lo) {
        LiveInside(l, lo, g, k);
      } else {
        LiveInside(r, e, g, k);
      }
    }
  }

  /** The writes of free: to the block's header and to the node below it, with `n'`
      units and link `nx` once the block was joined with the one above. */
  ghost predicate FreeWrites(m: Memory, m': Memory, lo: int, l: Layout, nx: int, n': nat) {
    var h, p := lo + Total(l), NodeBelow(l, lo);
    && SameBut(m, m', h, p) && 0 <= p < h < |m| && m[p].Hdr?
    && m'[h] == Hdr(nx, n')
    && m'[p] == if LastFree(l) then Hdr(nx, m[p].size + n') else Hdr(h, m[p].size)
  }

  lemma FreeAlone(m: Memory, m': Memory, lo: int, freep: int, l: Layout, n: nat, r: Layout)
    requires View(m, lo, freep, l, Block(n, false), r) && !FirstFree(r)
    requires var p := NodeBelow(l, lo);
             0 <= p < |m| && m[p].Hdr? && FreeWrites(m, m', lo, l, m[p].next, n)
    ensures Inv(m', lo, NodeBelow(l, lo), JoinBelow(l, n, r))
  {
    hide Headed, Chain, Shaped, Frees, Total;
    if LastFree(l) {
      var k, s := l[..|l| - 1], l[|l| - 1].size;
      assert l == k + [Block(s, true)];
      PopBelow(m, lo, freep, l, k, s, n, r);
      JoinPrevious(m, m', lo, k, s, n, r);
      Glue(m', lo, NodeBelow(l, lo), k, Block(s + n, true), r);
    } else {
      LinkBlock(m, m', lo, freep, l, n, r);
      Glue(m', lo, NodeBelow(l, lo), l, Block(n, true), r);
    }
  }

  lemma FreeJoined(m: Memory, m': Memory, lo: int, freep: int, l: Layout, n: nat, r: Layout)
    requires View(m, lo, freep, l, Block(n, false), r) && FirstFree(r)
    requires var e := lo + Total(l) + n;
             e < |m| && m[e].Hdr? && FreeWrites(m, m', lo, l, m[e].next, n + r[0].size)
    ensures Inv(m', lo, NodeBelow(l, lo), Freed(l, n, r))
  {
    hide View, ViewFree, Inv, Headed, Chain, Shaped, Total, Frees, JoinBelow;
    PopView(m, lo, freep, l, n, r);
    FreeJoinedPopped(m, m', lo, l, n, r[0].size, r[1..]);
  }

  lemma FreeJoinedPopped(m: Memory, m': Memory, lo: int, l: Layout, n: nat, f: nat, r: Layout)
    requires ViewFree(m, lo, l, n, f, r)
    requires FreeWrites(m, m', lo, l, m[lo + Total(l) + n].next, n + f)
    ensures Inv(m', lo, NodeBelow(l, lo), JoinBelow(l, n + f, r))
  {
    hide View, Inv, Headed, Chain, Shaped, Total, Frees, JoinBelow;
    var p := NodeBelow(l, lo);
    var m1 := m'[p := Hdr(m[lo + Total(l) + n].next, m[p].size)];
    AbsorbNext(m, m1, lo, l, n, f, r);
    FreeAlone(m1, m', lo, p, l, n + f, r);
  }
}
