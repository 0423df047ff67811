/** The C library's heap: malloc, free and realloc over a circular, address-ordered
    list of free blocks, on a machine with a 64-bit size_t. */
module Heap {
  import opened HeapLayout
  import opened HeapMemory
  import opened HeapSteps
  import opened HeapProofs

  class Heap {
    var mem: Memory        // all units below the break
    var freep: int
    var errno: nat
    var asked: nat         // how often the system was asked for memory
    const lo: int          // where the heap starts
    const grants: nat -> bool   // what the system answers each time
    ghost var blocks: Layout

    ghost predicate Valid()
      reads this
    {
      Inv(mem, lo, freep, blocks)
    }

    /** The blocks the program owns: header address and size in units. */
    ghost function Owned(): set<(int, nat)>
      reads this
    {
      Live(blocks, lo)
    }

    ghost predicate Owns(ptr: int)
      reads this
    {
      0 <= ptr - 1 < |mem| && mem[ptr - 1].Hdr? && (ptr - 1, mem[ptr - 1].size) in Owned()
    }

    /** Does the system move the break up by `inc` bytes when it is asked next? */
    ghost predicate Grants(inc: nat)
      reads this
    {
      |mem| * UNIT < MAXADDR - inc && grants(asked)
    }

    /** Does a request of a size that the guards admit get memory: from the free list, or
        from the system? */
    ghost predicate Serves(nbytes: nat)
      reads this
    {
      Fits(blocks, Units(nbytes)) || (!Wraps(nbytes) && Grants(Core(Units(nbytes)) * UNIT))
    }

    /** Does it get to a header at the break, with no memory there? */
    ghost predicate Strays(nbytes: nat)
      reads this
    {
      !Fits(blocks, Units(nbytes)) && Wraps(nbytes) && Grants(0)
    }

    /** Does the block behind `ptr` get its new size where it is? */
    ghost predicate InPlace(ptr: int, nbytes: nat)
      requires Owns(ptr)
      reads this
    {
      var h, n := ptr - 1, mem[ptr - 1].size;
      Units(nbytes) <= n || RoomAbove(blocks, lo, h + n, Units(nbytes) - n)
    }

    constructor (start: int, grants: nat -> bool)
      requires BASE < start
      ensures Valid() && Owned() == {} && lo == start && this.grants == grants && asked == 0
    {
      lo := start;
      this.grants, asked := grants, 0;
      mem := seq(start, _ => Raw(seq(16, _ => 0)))[BASE := Hdr(BASE, 0)];
      freep := BASE;
      errno := 0;
      blocks := [];
      new;
      assert mem[BASE] == Hdr(BASE, 0) && Nodes(blocks, lo) == [BASE];
      assert Chain(mem, [BASE], BASE);
    }

    /** The node after which `hp` belongs in address order, from any `freep`. */
    method PrevChunk(hp: int) returns (p: int)
      requires Valid() && lo <= hp && hp !in Nodes(blocks, lo)
      ensures p in Nodes(blocks, lo) && p < hp
      ensures forall x :: x in Nodes(blocks, lo) ==> x <= p || hp < x
    {
      ghost var nodes := Nodes(blocks, lo);
      ghost var n := |nodes|;
      ghost var goal := IndexBelow(nodes, hp);
      p := freep;
      ghost var i :| 0 <= i < n && nodes[i] == freep;
      while true
        invariant 0 <= i < n && p == nodes[i]
        decreases if i <= goal then goal - i else goal - i + n
      {
        NodeLinks(mem, lo, freep, blocks, i);
        if p < hp && hp < mem[p].next {
          break;
        }
        if mem[p].next <= p && (hp < mem[p].next || hp > p) {
          break;
        }
        p := mem[p].next;
        i := if i + 1 < n then i + 1 else 0;
      }
      Between(blocks, lo, i, hp);
    }

    /** Gives a block back, joined with the free blocks it touches on either side. */
    method Free(ptr: int)
      requires Valid() && (ptr == NULL || Owns(ptr))
      modifies `mem, `freep, `blocks
      ensures Valid() && |mem| == |old(mem)|
      ensures ptr == NULL ==> mem == old(mem) && freep == old(freep) && blocks == old(blocks)
      ensures ptr != NULL ==> Owned() == old(Owned()) - {(ptr - 1, old(mem)[ptr - 1].size)}
      ensures ptr != NULL ==> Fits(blocks, old(mem)[ptr - 1].size)
      ensures forall h, n :: (h, n) in Owned() ==> Kept(old(mem), mem, h, n)
    {
      hide Inv, View, Nodes, Frees, Live, Total, Freed, Fits, Shaped, Headed, Chain, Kept, FirstFree, LastFree;
      if ptr == NULL {
        AllKept(mem, lo, freep, blocks);
        return;
      }
      var hp := ptr - 1;
      ghost var n := mem[hp].size;
      ghost var l, r := FindLive(blocks, lo, hp, n);
      FreePrologue(mem, lo, freep, blocks, l, n, r);
      var prev := PrevChunk(hp);
      NodeBelowUnique(l, Block(n, false), r, lo, prev);
      var next := mem[prev].next;

      if hp + mem[hp].size == next {
        mem := mem[hp := WithSize(mem[hp], mem[hp].size + mem[next].size)];
        mem := mem[hp := WithNext(mem[hp], mem[next].next)];
      } else {
        mem := mem[hp := WithNext(mem[hp], next)];
      }
      assert mem == old(mem)[hp := mem[hp]] && mem[prev] == old(mem)[prev];

      if prev + mem[prev].size == hp {
        mem := mem[prev := WithSize(mem[prev], mem[prev].size + mem[hp].size)];
        mem := mem[prev := WithNext(mem[prev], mem[hp].next)];
      } else {
        mem := mem[prev := WithNext(mem[prev], hp)];
      }

      freep := prev;
      FreeEpilogue(old(mem), mem, lo, old(freep), old(blocks), l, n, r);
      blocks := Freed(l, n, r);
    }

    /** Moves the break up by `inc` bytes, if the system lets it. */
    method Sbrk(inc: nat) returns (start: int)
      requires inc % UNIT == 0
      modifies `mem, `asked
      ensures start != ERRADDR <==> old(Grants(inc))
      ensures start != ERRADDR <==> |old(mem)| * 16 < 0xFFFF_FFFF_FFFF_FFFF - inc && grants(old(asked))
      ensures start == ERRADDR ==> mem == old(mem)
      ensures start != ERRADDR ==>
                && start == |old(mem)| && |mem| == start + inc / UNIT
                && forall u :: 0 <= u < start ==> mem[u] == old(mem)[u]
      ensures asked <= old(asked) + 1
    {
      if |mem| * UNIT >= MAXADDR - inc {
        return ERRADDR;
      }
      asked := asked + 1;
      if !grants(asked - 1) {
        return ERRADDR;
      }
      start := |mem|;
      mem := mem + seq(inc / UNIT, _ => Raw(seq(16, _ => 0)));
    }

    /** Gets at least `n` new units and frees them into the list.  A byte count that wrapped
        gets fewer: `stray` when the header would be written without the block's memory. */
    method MoreCore(n: nat) returns (p: int, stray: bool)
      requires Valid()
      modifies `mem, `freep, `blocks, `asked
      ensures Core(n) == if n < 16 then 16 else n
      ensures p != NULL <==> Core(n) * UNIT <= SIZE_MAX && old(Grants(Core(n) * UNIT))
      ensures stray <==> Core(n) * UNIT > SIZE_MAX && old(Grants(RequestBytes(Core(n))))
      ensures !stray ==> Valid() && forall h, k :: (h, k) in Owned() ==> Kept(old(mem), mem, h, k)
      ensures p == NULL && !stray ==> mem == old(mem) && freep == old(freep) && blocks == old(blocks)
      ensures p != NULL ==>
                && p == freep && Owned() == old(Owned()) && Fits(blocks, n) && |mem| == |old(mem)| + Core(n)
      ensures stray ==>
                && freep == old(freep) && blocks == old(blocks)
                && (RequestBytes(Core(n)) == 0 ==> mem == old(mem))
      ensures asked <= old(asked) + 1
    {
      hide Inv, View, Nodes, Frees, Live, Total, Fits, Shaped, Headed, Chain, Kept;
      AllKept(mem, lo, freep, blocks);
      var nunits := n;
      if nunits < NALLOC {
        nunits := NALLOC;
      }
      RequestExact(nunits);
      var rawmem := Sbrk(RequestBytes(nunits));
      if rawmem == ERRADDR {
        return NULL, false;
      }
      if RequestBytes(nunits) < nunits * UNIT {
        return NULL, true;
      }
      var hp := rawmem;
      mem := mem[hp := WithSize(mem[hp], nunits)];
      Grown(old(mem), mem, lo, freep, blocks, nunits);
      blocks := blocks + [Block(nunits, false)];
      ghost var m1 := mem;
      Free(hp + 1);
      KeptTwice(old(mem), m1, mem, Owned());
      FitsLess(blocks, nunits, n);
      NodePositive(mem, lo, freep, blocks);
      return freep, false;
    }

    /** Takes `nunits` units off the free block `cur` that follows `prev` in the list:
        the whole block or its upper part. */
    method TakeBlock(prev: int, block: int, nunits: nat, ghost ci: nat) returns (ptr: int)
      requires Valid() && nunits >= 1 && Large(mem, Nodes(blocks, lo), ci, nunits) && block == Nodes(blocks, lo)[ci]
      requires ci >= 1 ==> prev == Nodes(blocks, lo)[ci - 1]
      modifies `mem, `freep, `blocks
      ensures Valid() && ptr != NULL && |mem| == |old(mem)| && Fits(old(blocks), nunits)
      ensures Gained(mem, Owned(), old(Owned()), ptr - 1, nunits)
      ensures forall h, n :: (h, n) in old(Owned()) ==> Kept(old(mem), mem, h, n)
    {
      hide Inv, View, Nodes, Frees, Live, Total, Fits, Shaped, Headed, Chain, Kept;
      ghost var l, r := TakePrologue(mem, lo, freep, blocks, ci, nunits);
      ghost var size := mem[block].size;
      var cur := block;
      if mem[cur].size == nunits {
        mem := mem[prev := WithNext(mem[prev], mem[cur].next)];
      } else {
        mem := mem[cur := WithSize(mem[cur], mem[cur].size - nunits)];
        cur := cur + mem[cur].size;
        mem := mem[cur := WithSize(mem[cur], nunits)];
      }
      mem := mem[cur := WithNext(mem[cur], NULL)];
      freep := prev;
      TakeEpilogue(old(mem), mem, lo, old(freep), blocks, l, size, nunits, r);
      blocks := Taken(l, size, nunits, r);
      return cur + 1;
    }

    /** Gets a block with room for `nbytes`: the first free one after `freep` that is
        large enough, whole or its upper part, or new memory when there is none. */
    method Malloc(nbytes: nat) returns (ptr: int, stray: bool)
      requires Valid()
      modifies `mem, `freep, `blocks, `asked
      ensures Valid()
      ensures ptr != NULL <==> 0 < nbytes <= 0xFFFF_FFFF_FFFF_FFEE && old(Serves(nbytes))
      ensures stray <==> 0 < nbytes <= 0xFFFF_FFFF_FFFF_FFEE && old(Strays(nbytes))
      ensures ptr == NULL ==> mem == old(mem) && freep == old(freep) && blocks == old(blocks)
      ensures ptr != NULL ==>
                && |mem| == |old(mem)| + Growth(old(blocks), Units(nbytes))
                && Gained(mem, Owned(), old(Owned()), ptr - 1, Units(nbytes))
      ensures forall h, n :: (h, n) in old(Owned()) ==> Kept(old(mem), mem, h, n)
      ensures asked <= old(asked) + 1
    {
      hide Inv, View, Nodes, Frees, Live, Total, Fits, Shaped, Headed, Chain, Kept, Scan, Passed, Ahead, Gained;
      AllKept(mem, lo, freep, blocks);
      stray := false;
      if nbytes == 0 || nbytes > SIZE_MAX - UNIT - 1 {
        return NULL, false;
      }
      RequestBytesExact(nbytes);
      var nunits := (nbytes + UNIT - 1) / UNIT + 1;
      var prev := freep;
      ghost var home: nat := IndexOf(mem, lo, freep, blocks);
      ghost var i: nat, goal: nat, grown := home, home, false;
      ScanStart(mem, Nodes(blocks, lo), freep, home, goal, nunits);
      while true
        invariant Valid() && Scan(mem, Nodes(blocks, lo), prev, freep, i, home, goal)
        invariant asked <= old(asked) + 1 && Owned() == old(Owned())
        invariant !grown ==> mem == old(mem) && freep == old(freep) && blocks == old(blocks) && asked == old(asked)
        invariant !grown ==> goal == home && Passed(mem, Nodes(blocks, lo), i, home, nunits)
        invariant grown ==> Large(mem, Nodes(blocks, lo), goal, nunits) && !Fits(old(blocks), nunits)
        invariant grown ==> |mem| == |old(mem)| + Growth(old(blocks), nunits)
        invariant grown ==> old(Serves(nbytes)) && !old(Strays(nbytes))
        invariant forall h, n :: (h, n) in Owned() ==> Kept(old(mem), mem, h, n)
        decreases !grown, Ahead(i, goal, |Nodes(blocks, lo)|)
      {
        ghost var nodes, ci := Nodes(blocks, lo), NextIndex(Nodes(blocks, lo), i);
        ScanAt(mem, nodes, prev, freep, i, home, goal);
        NodeLinks(mem, lo, freep, blocks, i);
        var cur := mem[prev].next;
        NodeLinks(mem, lo, freep, blocks, ci);
        if mem[cur].size >= nunits {
          ghost var m1 := mem;
          ptr := TakeBlock(prev, cur, nunits, ci);
          KeptTwice(old(mem), m1, mem, old(Owned()));
          return ptr, false;
        }

        if cur == freep {
          NodeIndexUnique(mem, lo, freep, blocks, ci, home);
          AllTooSmall(mem, lo, freep, blocks, i, ci, nunits);
          ghost var m1 := mem;
          cur, stray := MoreCore(nunits);
          if cur == NULL {
            return NULL, stray;
          }
          KeptTwice(old(mem), m1, mem, Owned());
          goal := FitNode(mem, lo, freep, blocks, nunits);
          home := IndexOf(mem, lo, freep, blocks);
          ScanStart(mem, Nodes(blocks, lo), freep, home, goal, nunits);
          ci, grown := home, true;
        } else {
          ScanOn(mem, nodes, prev, freep, i, home, goal, nunits);
        }
        prev := cur;
        i := ci;
      }
    }

    /** Copies `n` bytes between payloads that share no unit. */
    method MemCpy(dst: int, src: int, n: nat)
      requires 0 <= dst && dst + UnitsOf(n) <= |mem| && 0 <= src && src + UnitsOf(n) <= |mem|
      requires dst + UnitsOf(n) <= src || src + UnitsOf(n) <= dst
      modifies `mem
      ensures |mem| == |old(mem)| && BytesKept(old(mem), mem, src, dst, n)
      ensures forall u :: 0 <= u < |mem| && !(dst <= u < dst + UnitsOf(n)) ==> mem[u] == old(mem)[u]
    {
      hide ByteOf;
      for k := 0 to n
        invariant |mem| == |old(mem)| && BytesKept(old(mem), mem, src, dst, k)
        invariant forall u :: 0 <= u < |mem| && !(dst <= u < dst + UnitsOf(n)) ==> mem[u] == old(mem)[u]
      {
        ghost var m0 := mem;
        mem := mem[dst + k / UNIT := WithByte(mem[dst + k / UNIT], k % UNIT, ByteOf(mem[src + k / UNIT], k % UNIT))];
        CopiedByte(old(mem), m0, mem, src, dst, k, n);
      }
    }

    /** What the program may do with a block it owns: write a byte of its payload. */
    method Store(ptr: int, k: nat, value: Byte)
      requires Valid() && ptr != NULL && Owns(ptr)
      modifies `mem
      ensures Valid() && |mem| == |old(mem)| && mem[ptr - 1] == old(mem)[ptr - 1]
      ensures Stored(old(mem), mem, ptr, Capacity(mem[ptr - 1].size), k, value)
      ensures forall h, n :: (h, n) in Owned() - {(ptr - 1, mem[ptr - 1].size)} ==> Kept(old(mem), mem, h, n)
    {
      hide Inv, Live, Kept, Stored;
      ghost var n := mem[ptr - 1].size;
      OwnedApart(mem, lo, freep, blocks, ptr - 1, n);
      PayloadStored(mem, ptr, n, k, value);
      if k < (mem[ptr - 1].size - 1) * UNIT {
        mem := mem[ptr + k / UNIT := WithByte(mem[ptr + k / UNIT], k % UNIT, value)];
      }
      PayloadWritten(old(mem), mem, lo, freep, blocks, ptr - 1, n);
    }

    /** Realloc: gives the units of a block past the first `nunits` back. */
    method Shrink(ptr: int, nbytes: nat)
      requires Valid() && ptr != NULL && Owns(ptr) && 0 < nbytes && Units(nbytes) < mem[ptr - 1].size
      modifies `mem, `freep, `blocks
      ensures Valid() && |mem| == |old(mem)| && Resized(old(mem), old(Owned()), mem, Owned(), ptr, ptr, nbytes)
    {
      hide Inv, View, Nodes, Frees, Live, Total, Fits, Shaped, Headed, Chain, Kept, BytesKept;
      var oh, nunits := ptr - 1, Units(nbytes);
      ghost var n := mem[oh].size;
      ghost var l, r := FindLive(blocks, lo, oh, n);
      FreePrologue(mem, lo, freep, blocks, l, n, r);
      var cut := oh + nunits;
      mem := mem[cut := WithSize(mem[cut], mem[oh].size - nunits)];
      mem := mem[oh := WithSize(mem[oh], nunits)];
      ShrinkEpilogue(old(mem), mem, lo, freep, blocks, l, n, nunits, r);
      blocks := Shrunk(l, n, nunits, r);
      ghost var m1 := mem;
      Free(cut + 1);
      KeptTwice(old(mem), m1, mem, old(Owned()) - {(oh, n)});
      KeptUnits(m1, mem, oh, nunits);
      SamePayload(old(mem), mem, oh, nunits, Min(nbytes, (n - 1) * UNIT));
    }

    /** Realloc, when the free block `next` right above has just the units missing. */
    method ExtendWhole(oh: int, prev: int, next: int, nbytes: nat, ghost l: Layout, ghost n: nat, ghost r: Layout)
      requires Valid() && View(mem, lo, freep, l, Block(n, false), r) && blocks == l + [Block(n, false)] + r
      requires FirstFree(r) && Units(nbytes) == n + r[0].size && oh == lo + Total(l) && prev == NodeBelow(l, lo)
      requires next == oh + n && next + r[0].size <= |mem| && r[0].size >= 1
      requires 0 <= prev < oh && mem[prev].Hdr? && mem[oh].Hdr? && mem[oh].size == n && mem[next].Hdr?
      modifies `mem, `freep, `blocks
      ensures Valid() && |mem| == |old(mem)|
      ensures Resized(old(mem), old(Owned()), mem, Owned(), oh + 1, oh + 1, nbytes)
    {
      hide Inv, View, Live, Total, Kept, Resized, GrewInPlace, NodeBelow, Swallowed;
      mem := mem[oh := WithSize(mem[oh], Units(nbytes))];
      mem := mem[prev := WithNext(mem[prev], mem[next].next)];
      freep := prev;
      WholeEpilogue(old(mem), mem, lo, old(freep), blocks, l, n, r);
      blocks := Swallowed(l, n, r);
      GrewResized(old(mem), mem, old(Owned()), Owned(), oh, n, nbytes);
    }

    /** Realloc, when the free block `next` right above has more units than are missing. */
    method ExtendPart(oh: int, prev: int, next: int, nbytes: nat, ghost l: Layout, ghost n: nat, ghost r: Layout)
      requires Valid() && View(mem, lo, freep, l, Block(n, false), r) && blocks == l + [Block(n, false)] + r
      requires FirstFree(r) && n < Units(nbytes) < n + r[0].size && oh == lo + Total(l) && prev == NodeBelow(l, lo)
      requires next == oh + n && next + r[0].size <= |mem|
      requires 0 <= prev < oh && mem[prev].Hdr? && mem[oh].Hdr? && mem[oh].size == n
      requires mem[next].Hdr? && mem[next].size == r[0].size
      modifies `mem, `freep, `blocks
      ensures Valid() && |mem| == |old(mem)|
      ensures Resized(old(mem), old(Owned()), mem, Owned(), oh + 1, oh + 1, nbytes)
    {
      hide Inv, View, Live, Total, Kept, Resized, GrewInPlace, NodeBelow, Widened;
      var nunits := Units(nbytes);
      var rest := oh + nunits;
      var avail := mem[oh].size + mem[next].size;
      mem := mem[oh := WithSize(mem[oh], nunits)];
      mem := mem[prev := WithNext(mem[prev], rest)];
      mem := mem[rest := WithNext(mem[rest], mem[next].next)];
      mem := mem[rest := WithSize(mem[rest], avail - nunits)];
      freep := rest;
      PartEpilogue(old(mem), mem, lo, old(freep), blocks, l, n, nunits, r);
      blocks := Widened(l, n, nunits, r);
      GrewResized(old(mem), mem, old(Owned()), Owned(), oh, n, nbytes);
    }

    /** Realloc: takes the units that are missing from the free block right above, if
        there is one and it has enough. */
    method Extend(ptr: int, nbytes: nat) returns (done: bool)
      requires Valid() && ptr != NULL && Owns(ptr) && Units(nbytes) > mem[ptr - 1].size
      modifies `mem, `freep, `blocks
      ensures Valid() && |mem| == |old(mem)|
      ensures done <==> old(InPlace(ptr, nbytes))
      ensures !done ==> mem == old(mem) && freep == old(freep) && blocks == old(blocks)
      ensures done ==> Resized(old(mem), old(Owned()), mem, Owned(), ptr, ptr, nbytes)
    {
      hide Resized, Inv, View, Nodes, Frees, Live, Total, Shaped, Headed, Chain, RoomAbove;
      var oh, nunits := ptr - 1, Units(nbytes);
      ghost var n := mem[oh].size;
      ghost var l, r := FindLive(blocks, lo, oh, n);
      FreePrologue(mem, lo, freep, blocks, l, n, r);
      var prev := PrevChunk(oh);
      NodeBelowUnique(l, Block(n, false), r, lo, prev);
      var next := mem[prev].next;
      RoomNext(l, n, r, lo, Units(nbytes) - n);

      if oh + mem[oh].size == next {
        var avail := mem[oh].size + mem[next].size;
        if avail == nunits {
          ExtendWhole(oh, prev, next, nbytes, l, n, r);
          return true;
        }
        if nunits < avail {
          ExtendPart(oh, prev, next, nbytes, l, n, r);
          return true;
        }
      }
      return false;
    }

    /** Realloc: copies a block's bytes to a larger one and frees it. */
    method Move(ptr: int, nbytes: nat) returns (res: int, stray: bool)
      requires Valid() && ptr != NULL && Owns(ptr) && 0 < nbytes <= 0xFFFF_FFFF_FFFF_FFEE
      requires Units(nbytes) > mem[ptr - 1].size
      modifies `mem, `freep, `blocks, `asked
      ensures Valid() && asked <= old(asked) + 1
      ensures (res != NULL <==> old(Serves(nbytes))) && (stray <==> old(Strays(nbytes)))
      ensures res == NULL ==> mem == old(mem) && freep == old(freep) && blocks == old(blocks)
      ensures res != NULL ==> |mem| == |old(mem)| + Growth(old(blocks), Units(nbytes))
      ensures res != NULL ==> res != ptr && Resized(old(mem), old(Owned()), mem, Owned(), ptr, res, nbytes)
    {
      hide Inv, View, Nodes, Frees, Live, Total, Fits, Shaped, Headed, Chain, Kept, BytesKept;
      var oh := ptr - 1;
      ghost var k, own := mem[oh].size, Owned();
      OwnedApart(mem, lo, freep, blocks, oh, k);
      res, stray := Malloc(nbytes);
      if res == NULL {
        return;
      }
      ghost var m1, nunits := mem, Units(nbytes);
      KeptUnits(old(mem), m1, oh, k);
      var n := (mem[oh].size - 1) * UNIT;
      if n > nbytes {
        n := nbytes;
      }
      SamePayload(old(mem), m1, oh, k, n);
      OwnedApart(mem, lo, freep, blocks, res - 1, nunits);
      MemCpy(res, ptr, n);
      PayloadWritten(m1, mem, lo, freep, blocks, res - 1, nunits);
      KeptTwice(old(mem), m1, mem, own);
      BytesTwice(old(mem), m1, mem, ptr, ptr, res, n);
      ghost var m2 := mem;
      Free(ptr);
      KeptTwice(old(mem), m2, mem, own - {(oh, k)});
      KeptUnits(m2, mem, res - 1, nunits);
      SamePayload(m2, mem, res - 1, nunits, n);
      BytesTwice(old(mem), m2, mem, ptr, res, res, n);
    }

    /** Changes the size of a block: in place when it shrinks or the memory right above
        it is free and enough, else by moving it. */
    method Realloc(ptr: int, nbytes: nat) returns (res: int, stray: bool)
      requires Valid() && (ptr == NULL || Owns(ptr))
      modifies this
      ensures Valid() && asked <= old(asked) + 1
      ensures nbytes == 0 ==> res == NULL && errno == 22
      ensures nbytes > 0xFFFF_FFFF_FFFF_FFEE ==> res == NULL && errno == 12
      ensures 0 < nbytes <= 0xFFFF_FFFF_FFFF_FFEE ==> errno == old(errno)
      ensures res != NULL <==>
                0 < nbytes <= 0xFFFF_FFFF_FFFF_FFEE && ((ptr != NULL && old(InPlace(ptr, nbytes))) || old(Serves(nbytes)))
      ensures stray <==>
                0 < nbytes <= 0xFFFF_FFFF_FFFF_FFEE && !(ptr != NULL && old(InPlace(ptr, nbytes))) && old(Strays(nbytes))
      ensures res != NULL && ptr != NULL ==> (res == ptr <==> old(InPlace(ptr, nbytes)))
      ensures res == NULL ==> mem == old(mem) && freep == old(freep) && blocks == old(blocks)
      ensures res != NULL && ptr == NULL ==> Gained(mem, Owned(), old(Owned()), res - 1, Units(nbytes))
      ensures res != NULL && ptr == NULL ==> forall h, n :: (h, n) in old(Owned()) ==> Kept(old(mem), mem, h, n)
      ensures res != NULL && ptr != NULL ==> Resized(old(mem), old(Owned()), mem, Owned(), ptr, res, nbytes)
      ensures |mem| <= |old(mem)| + Core(Units(nbytes))
    {
      stray := false;
      if nbytes == 0 {
        errno := EINVAL;
        return NULL, false;
      }
      if nbytes > SIZE_MAX - UNIT - 1 {
        errno := ENOMEM;
        return NULL, false;
      }
      if ptr == NULL {
        res, stray := Malloc(nbytes);
        return;
      }

      hide Inv, Live, Resized, Gained, RoomAbove, Fits;
      var nunits, oh := (nbytes + UNIT - 1) / UNIT + 1, ptr - 1;
      if mem[oh].size == nunits {
        Unchanged(mem, lo, freep, blocks, oh, nbytes);
        return ptr, false;
      }
      if nunits < mem[oh].size {
        Shrink(ptr, nbytes);
        return ptr, false;
      }
      var done := Extend(ptr, nbytes);
      if done {
        return ptr, false;
      }
      res, stray := Move(ptr, nbytes);
    }
  }
}
