/** How the heap is cut into blocks.  A layout lists the blocks upwards from an address;
    each one starts where the one before it ends, so nothing between the first unit and
    the last is lost or owned twice.  Addresses and sizes count header-sized units. */
module HeapLayout {

  datatype Block = Block(size: nat, free: bool)

  type Layout = seq<Block>

  function Total(b: Layout): nat {
    if b == [] then 0 else b[0].size + Total(b[1..])
  }

  /** Addresses of the free blocks of a layout that starts at `a`, upwards. */
  function Frees(b: Layout, a: int): seq<int> {
    if b == [] then [] else (if b[0].free then [a] else []) + Frees(b[1..], a + b[0].size)
  }

  /** The blocks the program owns: address and size of each. */
  function Live(b: Layout, a: int): set<(int, nat)> {
    if b == [] then {} else (if b[0].free then {} else {(a, b[0].size)}) + Live(b[1..], a + b[0].size)
  }

  /** The free blocks of a layout: address and size of each. */
  function Available(b: Layout, a: int): set<(int, nat)> {
    if b == [] then {} else (if b[0].free then {(a, b[0].size)} else {}) + Available(b[1..], a + b[0].size)
  }

  /** A free block of at least `k` units starts at `e`. */
  ghost predicate RoomAbove(b: Layout, a: int, e: int, k: int) {
    exists s: nat :: (e, s) in Available(b, a) && s >= k
  }

  /** Every block has units, and no two free blocks touch. */
  ghost predicate Shaped(b: Layout) {
    b != [] ==>
      && b[0].size >= 1
      && (|b| > 1 && b[0].free ==> !b[1].free)
      && Shaped(b[1..])
  }

  lemma {:induction false} TotalAppend(b: Layout, c: Layout)
    ensures Total(b + c) == Total(b) + Total(c)
  {
    if b == [] {
      assert b + c == c;
    } else {
      assert (b + c)[1..] == b[1..] + c;
      TotalAppend(b[1..], c);
    }
  }

  lemma {:induction false} FreesAppend(b: Layout, c: Layout, a: int)
    ensures Frees(b + c, a) == Frees(b, a) + Frees(c, a + Total(b))
  {
    if b == [] {
      assert b + c == c;
    } else {
      assert (b + c)[1..] == b[1..] + c;
      FreesAppend(b[1..], c, a + b[0].size);
    }
  }

  lemma {:induction false} LiveAppend(b: Layout, c: Layout, a: int)
    ensures Live(b + c, a) == Live(b, a) + Live(c, a + Total(b))
  {
    if b == [] {
      assert b + c == c;
    } else {
      assert (b + c)[1..] == b[1..] + c;
      LiveAppend(b[1..], c, a + b[0].size);
    }
  }

  lemma {:induction false} ShapedAppend(b: Layout, c: Layout)
    ensures Shaped(b + c) <==>
              Shaped(b) && Shaped(c) && (b != [] && c != [] ==> !(b[|b| - 1].free && c[0].free))
  {
    if b == [] {
      assert b + c == c;
    } else {
      assert (b + c)[1..] == b[1..] + c;
      ShapedAppend(b[1..], c);
    }
  }

  /** `f` rises strictly from `lo` or above to below `hi`. */
  ghost predicate Rising(f: seq<int>, lo: int, hi: int) {
    f != [] ==> lo <= f[0] < hi && Rising(f[1..], f[0] + 1, hi)
  }

  lemma {:induction false} RisingAt(f: seq<int>, lo: int, hi: int)
    requires Rising(f, lo, hi)
    ensures forall i :: 0 <= i < |f| ==> lo <= f[i] < hi
    ensures forall i, j :: 0 <= i < j < |f| ==> f[i] < f[j]
  {
    if f != [] {
      RisingAt(f[1..], f[0] + 1, hi);
      forall i | 1 <= i < |f| ensures f[0] < f[i] < hi {
        assert f[i] == f[1..][i - 1];
      }
      forall i, j | 1 <= i < j < |f| ensures f[i] < f[j] {
        assert f[i] == f[1..][i - 1] && f[j] == f[1..][j - 1];
      }
    }
  }

  lemma {:induction false} RisingIn(f: seq<int>, lo: int, hi: int)
    requires Rising(f, lo, hi)
    ensures forall x :: x in f ==> lo <= x < hi
  {
    if f != [] {
      RisingIn(f[1..], f[0] + 1, hi);
      assert f == [f[0]] + f[1..];
    }
  }

  lemma {:induction false} RisingWiden(f: seq<int>, lo: int, lo': int, hi: int)
    requires Rising(f, lo, hi) && lo' <= lo
    ensures Rising(f, lo', hi)
  {
  }

  /** The free list rises and stays inside the layout. */
  lemma {:induction false} FreesInside(b: Layout, a: int)
    requires Shaped(b)
    ensures Rising(Frees(b, a), a, a + Total(b))
    ensures b != [] ==> (b[0].free <==> Frees(b, a) != [] && Frees(b, a)[0] == a)
  {
    if b != [] {
      var a' := a + b[0].size;
      var g := Frees(b[1..], a');
      FreesInside(b[1..], a');
      RisingWiden(g, a', a + 1, a + Total(b));
      if b[0].free {
        assert Frees(b, a)[1..] == g;
      } else {
        assert Frees(b, a) == g;
      }
    }
  }

  /** The blocks below and above a given live one. */
  lemma {:induction false} FindLive(b: Layout, a: int, h: int, n: nat) returns (l: Layout, r: Layout)
    requires (h, n) in Live(b, a)
    ensures b == l + [Block(n, false)] + r && h == a + Total(l)
  {
    if !b[0].free && (h, n) == (a, b[0].size) {
      l, r := [], b[1..];
    } else {
      l, r := FindLive(b[1..], a + b[0].size, h, n);
      l := [b[0]] + l;
    }
  }

  lemma {:induction false} AvailableAppend(b: Layout, c: Layout, a: int)
    ensures Available(b + c, a) == Available(b, a) + Available(c, a + Total(b))
  {
    if b == [] {
      assert b + c == c;
    } else {
      assert (b + c)[1..] == b[1..] + c;
      AvailableAppend(b[1..], c, a + b[0].size);
    }
  }

  lemma {:induction false} AvailableInside(b: Layout, a: int)
    requires Shaped(b)
    ensures forall h, n :: (h, n) in Available(b, a) ==> a <= h && n >= 1 && h + n <= a + Total(b)
  {
    if b != [] {
      AvailableInside(b[1..], a + b[0].size);
    }
  }

  /** What is free right above a live block is the next block of the layout. */
  lemma RoomNext(l: Layout, n: nat, r: Layout, a: int, k: int)
    requires Shaped(l + [Block(n, false)] + r)
    ensures RoomAbove(l + [Block(n, false)] + r, a, a + Total(l) + n, k) <==> FirstFree(r) && r[0].size >= k
  {
    hide Available, Shaped, Total;
    var x, e := Block(n, false), a + Total(l) + n;
    Around(l, x, r, a);
    AvailableAround(l, n, r, a);
    AvailableInside(l, a);
    AvailableFirst(r, e);
    assert forall s: nat :: (e, s) in Available(l + [x] + r, a) <==> FirstFree(r) && s == r[0].size;
    if FirstFree(r) && r[0].size >= k {
      assert (e, r[0].size) in Available(l + [x] + r, a);
    }
  }

  lemma AvailableAround(l: Layout, n: nat, r: Layout, a: int)
    ensures Available(l + [Block(n, false)] + r, a) == Available(l, a) + Available(r, a + Total(l) + n)
  {
    TotalAppend(l, [Block(n, false)]);
    AvailableAppend(l, [Block(n, false)], a);
    AvailableAppend(l + [Block(n, false)], r, a);
    NoneOfLive(n, a + Total(l));
  }

  lemma NoneOfLive(n: nat, a: int)
    ensures Available([Block(n, false)], a) == {}
  {
  }

  lemma AvailableFirst(r: Layout, e: int)
    requires Shaped(r)
    ensures forall s: nat :: (e, s) in Available(r, e) <==> FirstFree(r) && s == r[0].size
  {
    if r != [] {
      AvailableInside(r[1..], e + r[0].size);
    }
  }

  /** What a layout is made of, around one of its blocks. */
  lemma Around(l: Layout, m: Block, r: Layout, a: int)
    ensures Total(l + [m] + r) == Total(l) + m.size + Total(r)
    ensures var h := a + Total(l);
            && Frees(l + [m] + r, a) == Frees(l, a) + (if m.free then [h] else []) + Frees(r, h + m.size)
            && Live(l + [m] + r, a) == Live(l, a) + (if m.free then {} else {(h, m.size)}) + Live(r, h + m.size)
    ensures Shaped(l + [m] + r) <==>
              && Shaped(l) && Shaped(r) && m.size >= 1
              && (l != [] && m.free ==> !l[|l| - 1].free) && (r != [] && m.free ==> !r[0].free)
  {
    TotalAppend(l, [m]);
    TotalAppend(l + [m], r);
    FreesAppend(l, [m], a);
    FreesAppend(l + [m], r, a);
    LiveAppend(l, [m], a);
    LiveAppend(l + [m], r, a);
    ShapedAppend(l, [m]);
    ShapedAppend(l + [m], r);
  }

  lemma {:induction false} LiveBounds(b: Layout, a: int)
    requires Shaped(b)
    ensures forall h, n :: (h, n) in Live(b, a) ==> a <= h && n >= 1 && h + n <= a + Total(b)
  {
    if b != [] {
      LiveBounds(b[1..], a + b[0].size);
    }
  }

  /** A live block holds no free header and no other live block's header. */
  lemma LiveInside(b: Layout, a: int, h: int, n: nat)
    requires Shaped(b) && (h, n) in Live(b, a)
    ensures a <= h && n >= 1 && h + n <= a + Total(b)
    ensures forall f :: f in Frees(b, a) ==> f < h || h + n <= f
    ensures forall g, k :: (g, k) in Live(b, a) ==> (g, k) == (h, n) || g + k <= h || h + n <= g
  {
    hide Live, Frees, Shaped, Total;
    var l, r := FindLive(b, a, h, n);
    Around(l, Block(n, false), r, a);
    LiveBounds(b, a);
    LiveBounds(l, a);
    LiveBounds(r, h + n);
    FreesInside(l, a);
    FreesInside(r, h + n);
    RisingIn(Frees(l, a), a, h);
    RisingIn(Frees(r, h + n), h + n, a + Total(b));
  }

  /** The blocks below and above a given node of the free list. */
  lemma {:induction false} FindFree(b: Layout, a: int, k: nat) returns (l: Layout, n: nat, r: Layout)
    requires k < |Frees(b, a)|
    ensures b == l + [Block(n, true)] + r && Frees(b, a)[k] == a + Total(l) && |Frees(l, a)| == k
  {
    if b[0].free && k == 0 {
      l, n, r := [], b[0].size, b[1..];
    } else {
      l, n, r := FindFree(b[1..], a + b[0].size, if b[0].free then k - 1 else k);
      l := [b[0]] + l;
    }
  }

  predicate LastFree(l: Layout) {
    l != [] && l[|l| - 1].free
  }

  predicate FirstFree(r: Layout) {
    r != [] && r[0].free
  }

  /** The layout after a live block of `n` units between `l` and `r` was freed. */
  function Freed(l: Layout, n: nat, r: Layout): Layout {
    if FirstFree(r) then JoinBelow(l, n + r[0].size, r[1..]) else JoinBelow(l, n, r)
  }

  function JoinBelow(l: Layout, n: nat, r: Layout): Layout {
    if LastFree(l) then l[..|l| - 1] + [Block(l[|l| - 1].size + n, true)] + r else l + [Block(n, true)] + r
  }

  /** Some free block has room for `n` units. */
  ghost predicate Fits(b: Layout, n: nat) {
    b != [] && ((b[0].free && b[0].size >= n) || Fits(b[1..], n))
  }

  lemma {:induction false} FitsAppend(b: Layout, c: Layout, n: nat)
    ensures Fits(b + c, n) <==> Fits(b, n) || Fits(c, n)
  {
    if b == [] {
      assert b + c == c;
    } else {
      assert (b + c)[1..] == b[1..] + c;
      FitsAppend(b[1..], c, n);
    }
  }

  lemma FitsAround(l: Layout, x: Block, r: Layout, n: nat)
    ensures Fits(l + [x] + r, n) <==> Fits(l, n) || (x.free && x.size >= n) || Fits(r, n)
  {
    FitsAppend(l, [x], n);
    FitsAppend(l + [x], r, n);
  }

  /** The live blocks other than one. */
  lemma OthersLive(l: Layout, n: nat, r: Layout, a: int)
    requires Shaped(l + [Block(n, false)] + r)
    ensures var h := a + Total(l);
            Live(l, a) + Live(r, h + n) == Live(l + [Block(n, false)] + r, a) - {(h, n)}
  {
    Around(l, Block(n, false), r, a);
    LiveBounds(l, a);
    LiveBounds(r, a + Total(l) + n);
  }

  /** Freeing a block leaves the live blocks on either side of it. */
  lemma FreedLive(l: Layout, n: nat, r: Layout, a: int)
    ensures Live(Freed(l, n, r), a) == Live(l, a) + Live(r, a + Total(l) + n)
  {
    if FirstFree(r) {
      JoinBelowLive(l, n + r[0].size, r[1..], a);
      assert Live(r, a + Total(l) + n) == Live(r[1..], a + Total(l) + n + r[0].size);
      assert a + Total(l) + (n + r[0].size) == a + Total(l) + n + r[0].size;
    } else {
      JoinBelowLive(l, n, r, a);
    }
  }

  lemma JoinBelowLive(l: Layout, n: nat, r: Layout, a: int)
    ensures Live(JoinBelow(l, n, r), a) == Live(l, a) + Live(r, a + Total(l) + n)
  {
    if LastFree(l) {
      var k, x := l[..|l| - 1], l[|l| - 1];
      assert l == k + [x];
      TotalAppend(k, [x]);
      LiveAppend(k, [x], a);
      LiveAround(k, Block(x.size + n, true), r, a);
      assert a + Total(k) + (x.size + n) == a + Total(l) + n;
    } else {
      LiveAround(l, Block(n, true), r, a);
    }
  }

  lemma LiveAround(l: Layout, x: Block, r: Layout, a: int)
    ensures var h := a + Total(l);
            Live(l + [x] + r, a) == Live(l, a) + (if x.free then {} else {(h, x.size)}) + Live(r, h + x.size)
  {
    LiveAppend(l, [x], a);
    LiveAppend(l + [x], r, a);
    TotalAppend(l, [x]);
  }

  lemma FreedFits(l: Layout, n: nat, r: Layout)
    ensures Fits(Freed(l, n, r), n)
  {
    var n', r' := if FirstFree(r) then n + r[0].size else n, if FirstFree(r) then r[1..] else r;
    if LastFree(l) {
      FitsAround(l[..|l| - 1], Block(l[|l| - 1].size + n', true), r', n);
    } else {
      FitsAround(l, Block(n', true), r', n);
    }
  }
}
