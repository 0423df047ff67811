/** What holds of the heap in every state that malloc, free and realloc can reach. */
module HeapTheorems {
  import opened HeapLayout
  import opened HeapMemory
  import opened HeapSteps
  import opened HeapProofs
  import opened Heap

  ghost predicate Holds(block: (int, nat), u: int) {
    block.0 <= u < block.0 + block.1
  }

  lemma {:induction false} BlocksInside(b: Layout, a: int)
    requires Shaped(b)
    ensures forall x :: x in Available(b, a) + Live(b, a) ==> a <= x.0 && x.0 + x.1 <= a + Total(b)
  {
    if b != [] {
      BlocksInside(b[1..], a + b[0].size);
    }
  }

  /** Free and live blocks together tile the memory obtained from the system: each unit
      belongs to exactly one of them. */
  lemma {:induction false} EveryUnitHasOneOwner(b: Layout, a: int, u: int) returns (owner: (int, nat))
    requires Shaped(b) && a <= u < a + Total(b)
    ensures owner in Available(b, a) + Live(b, a) && Holds(owner, u)
    ensures forall x :: x in Available(b, a) + Live(b, a) && Holds(x, u) ==> x == owner
    ensures !(owner in Available(b, a) && owner in Live(b, a))
  {
    var a' := a + b[0].size;
    BlocksInside(b[1..], a');
    if u < a' {
      owner := (a, b[0].size);
    } else {
      owner := EveryUnitHasOneOwner(b[1..], a', u);
    }
  }

  lemma StartNotFree(b: Layout, a: int)
    requires Shaped(b) && !FirstFree(b)
    ensures a !in Frees(b, a)
  {
    var f := Frees(b, a);
    FreesInside(b, a);
    if f != [] {
      RisingIn(f, f[0], a + Total(b));
    }
  }

  /** The nodes of the free list are the base and exactly the free blocks, and no free
      block ends where another starts. */
  lemma {:induction false} FreeNodes(b: Layout, a: int)
    requires Shaped(b)
    ensures forall x :: x in Available(b, a) ==> x.0 in Frees(b, a) && x.0 + x.1 !in Frees(b, a)
    ensures forall f :: f in Frees(b, a) ==> exists x :: x in Available(b, a) && x.0 == f
  {
    if b != [] {
      var a' := a + b[0].size;
      FreeNodes(b[1..], a');
      FreesInside(b[1..], a');
      RisingIn(Frees(b[1..], a'), a', a + Total(b));
      BlocksInside(b[1..], a');
      if b[0].free {
        StartNotFree(b[1..], a');
      }
      forall f | f in Frees(b, a) ensures exists x :: x in Available(b, a) && x.0 == f {
        if f == a && b[0].free {
          assert (a, b[0].size) in Available(b, a);
        } else {
          var x :| x in Available(b[1..], a') && x.0 == f;
          assert x in Available(b, a);
        }
      }
    }
  }

  /** The free list of a valid heap: one cycle through the base and `freep`, rising in
      address but for one wrap to the base. */
  lemma {:induction false} OneRisingCycle(m: Memory, lo: int, freep: int, b: Layout, i: nat)
    requires Inv(m, lo, freep, b) && i < |Nodes(b, lo)|
    ensures var nodes := Nodes(b, lo);
            && nodes[0] == BASE && freep in nodes
            && PointsTo(m, nodes[i], if i + 1 < |nodes| then nodes[i + 1] else BASE)
            && (i + 1 < |nodes| ==> nodes[i] < nodes[i + 1])
  {
    NodeLinks(m, lo, freep, b, i);
  }

  /** Where a request strays, the code goes on to write a header at the break: whatever the
      free list becomes, no heap with that memory has the block that the header announces. */
  lemma {:induction false} StrayLoses(m: Memory, lo: int, freep: int, b: Layout, nbytes: nat, next: int, freep': int, b': Layout)
    requires Inv(m, lo, freep, b) && Wraps(nbytes)
    requires (|m|, Units(nbytes)) in Available(b', lo) + Live(b', lo)
    ensures !Inv(m + [Hdr(next, Units(nbytes))], lo, freep', b')
  {
    if Inv(m + [Hdr(next, Units(nbytes))], lo, freep', b') {
      BlocksInside(b', lo);
    }
  }

  /** What a program may ask of the heap; blocks are named by the order it got them in. */
  datatype Call =
    | CallMalloc(nbytes: nat)
    | CallFree(i: nat)
    | CallRealloc(i: nat, nbytes: nat)
    | CallStore(i: nat, offset: nat, value: Byte)

  /** `p` points behind the header of an owned block. */
  ghost predicate Behind(m: Memory, own: set<(int, nat)>, p: int) {
    0 <= p - 1 < |m| && m[p - 1].Hdr? && (p - 1, m[p - 1].size) in own
  }

  /** `held` are pointers to all the owned blocks, each once. */
  ghost predicate Holding(held: seq<int>, m: Memory, own: set<(int, nat)>) {
    && (forall p :: p in held ==> Behind(m, own, p))
    && (forall x :: x in own ==> x.0 + 1 in held && Behind(m, {x}, x.0 + 1))
    && (forall i, j :: 0 <= i < j < |held| ==> held[i] != held[j])
  }

  /** A size whose byte count does not wrap around. */
  predicate Askable(c: Call) {
    match c
    case CallMalloc(n) => !Wraps(n)
    case CallRealloc(_, n) => !Wraps(n)
    case _ => true
  }

  /** A call that names one of `count` blocks, or asks for a size that the guards admit. */
  predicate Servable(c: Call, count: nat) {
    match c
    case CallMalloc(n) => 0 < n <= SIZE_MAX - UNIT - 1
    case CallFree(i) => i < count
    case CallRealloc(i, n) => i < count && 0 < n <= SIZE_MAX - UNIT - 1
    case CallStore(i, _, _) => i < count
  }

  /** Units that a call may add to the heap. */
  function Demand(c: Call): nat {
    match c
    case CallMalloc(n) => Core(Units(n))
    case CallRealloc(_, n) => Core(Units(n))
    case _ => 0
  }

  function TotalDemand(calls: seq<Call>): nat {
    if calls == [] then 0 else TotalDemand(calls[..|calls| - 1]) + Demand(calls[|calls| - 1])
  }

  /** What the program knows of a block: the size it asked for and the bytes it stored. */
  datatype Content = Content(nbytes: nat, bytes: map<int, Byte>)

  function Without<T>(s: seq<T>, i: nat): seq<T>
    requires i < |s|
  {
    s[..i] + s[i + 1..]
  }

  /** What the program expects of its blocks after a call that was served, or was not. */
  function After(es: seq<Content>, c: Call, served: bool): seq<Content> {
    match c
    case CallMalloc(n) => if served then es + [Content(n, map[])] else es
    case CallFree(i) => if i < |es| then Without(es, i) else es
    case CallRealloc(i, n) =>
      if served && i < |es| then Without(es, i) + [Resize(es[i], n)] else es
    case CallStore(i, k, v) =>
      if i < |es| && k < Capacity(Units(es[i].nbytes)) then es[i := es[i].(bytes := es[i].bytes[k := v])] else es
  }

  function Resize(e: Content, n: nat): Content {
    Content(n, map k | k in e.bytes && k < n :: e.bytes[k])
  }

  function Expected(calls: seq<Call>, served: seq<bool>): seq<Content>
    requires |calls| == |served|
  {
    if calls == [] then []
    else
      var n := |calls| - 1;
      After(Expected(calls[..n], served[..n]), calls[n], served[n])
  }

  /** The block behind `p` has the size that was asked for, and the bytes that were stored. */
  ghost predicate Has(m: Memory, p: int, e: Content) {
    && 0 <= p - 1 < |m| && m[p - 1].Hdr? && m[p - 1].size == Units(e.nbytes) && p - 1 + m[p - 1].size <= |m|
    && forall k {:trigger k in e.bytes} :: k in e.bytes ==>
         0 <= k < Capacity(Units(e.nbytes)) && PayloadByte(m, p, k) == e.bytes[k]
  }

  ghost predicate AllHave(m: Memory, held: seq<int>, es: seq<Content>) {
    |held| == |es| && forall i :: 0 <= i < |held| ==> Has(m, held[i], es[i])
  }

  /** The header of a block is kept with it. */
  lemma BehindKept(m: Memory, m': Memory, own: set<(int, nat)>, p: int)
    requires Behind(m, own, p) && forall h, k :: (h, k) in own ==> Kept(m, m', h, k) && k >= 1
    ensures Behind(m', own, p) && m'[p - 1] == m[p - 1]
  {
    assert Kept(m, m', p - 1, m[p - 1].size);
  }

  lemma HoldingKept(held: seq<int>, m: Memory, m': Memory, own: set<(int, nat)>)
    requires Holding(held, m, own)
    requires forall h, k :: (h, k) in own ==> Kept(m, m', h, k) && k >= 1
    ensures Holding(held, m', own)
  {
    hide Kept;
    forall p | p in held ensures Behind(m', own, p) {
      BehindKept(m, m', own, p);
    }
    forall x | x in own ensures Behind(m', {x}, x.0 + 1) {
      BehindKept(m, m', {x}, x.0 + 1);
    }
  }

  lemma HoldingGained(held: seq<int>, m: Memory, own: set<(int, nat)>, m': Memory, own': set<(int, nat)>, res: int, n: nat)
    requires Holding(held, m, own) && Gained(m', own', own, res - 1, n) && n >= 1
    requires forall h, k :: (h, k) in own ==> Kept(m, m', h, k) && k >= 1
    ensures Holding(held + [res], m', own')
  {
    hide Kept;
    HoldingKept(held, m, m', own);
    assert res !in held;
  }

  lemma HoldingLost(held: seq<int>, m: Memory, own: set<(int, nat)>, i: nat)
    requires Holding(held, m, own) && i < |held|
    ensures Behind(m, own, held[i])
    ensures Holding(held[..i] + held[i + 1..], m, own - {(held[i] - 1, m[held[i] - 1].size)})
  {
    assert held[i] in held;
    WithoutIndex(held, i);
  }

  lemma WithoutIndex(s: seq<int>, i: nat)
    requires i < |s| && forall j, k :: 0 <= j < k < |s| ==> s[j] != s[k]
    ensures var t := s[..i] + s[i + 1..];
            && (forall x :: x in t <==> x in s && x != s[i])
            && (forall j, k :: 0 <= j < k < |t| ==> t[j] != t[k])
  {
    var t := s[..i] + s[i + 1..];
    assert forall j :: 0 <= j < |t| ==> t[j] == s[if j < i then j else j + 1];
    forall x | x in s && x != s[i] ensures x in t {
      var j :| 0 <= j < |s| && s[j] == x;
      assert t[if j < i then j else j - 1] == x;
    }
  }

  lemma OwnedInside(heap: Heap)
    requires heap.Valid()
    ensures forall h, k :: (h, k) in heap.Owned() ==> k >= 1 && h + k <= |heap.mem|
  {
    LiveBounds(heap.blocks, heap.lo);
  }

  /** A system that never refuses, and room for `units` units in the address space. */
  ghost predicate Ample(heap: Heap, units: nat) {
    (forall k :: heap.grants(k)) && units * UNIT < MAXADDR
  }

  /** A system that never refuses serves every request that the address space holds. */
  lemma Granted(heap: Heap, n: nat)
    requires Ample(heap, |heap.mem| + Core(Units(n)))
    ensures heap.Serves(n)
  {
    hide Fits;
  }

  lemma HasKept(m: Memory, m': Memory, p: int, e: Content)
    requires Has(m, p, e) && Kept(m, m', p - 1, m[p - 1].size) && m[p - 1].size >= 1
    ensures Has(m', p, e)
  {
    forall k | k in e.bytes ensures 0 <= k < Capacity(Units(e.nbytes)) && PayloadByte(m', p, k) == e.bytes[k] {
      assert PayloadByte(m', p, k) == PayloadByte(m, p, k);
    }
  }

  lemma AllHaveKept(m: Memory, m': Memory, held: seq<int>, es: seq<Content>, own: set<(int, nat)>)
    requires AllHave(m, held, es) && Holding(held, m, own)
    requires forall h, k :: (h, k) in own ==> Kept(m, m', h, k) && k >= 1
    ensures AllHave(m', held, es)
  {
    hide Has, Kept;
    forall i | 0 <= i < |held| ensures Has(m', held[i], es[i]) {
      assert held[i] in held && Behind(m, own, held[i]);
      HasKept(m, m', held[i], es[i]);
    }
  }

  lemma AllHaveWithout(m: Memory, held: seq<int>, es: seq<Content>, i: nat)
    requires AllHave(m, held, es) && i < |held|
    ensures AllHave(m, Without(held, i), Without(es, i))
  {
    hide Has;
  }

  lemma AllHaveMore(m: Memory, held: seq<int>, es: seq<Content>, p: int, e: Content)
    requires AllHave(m, held, es) && Has(m, p, e)
    ensures AllHave(m, held + [p], es + [e])
  {
    hide Has;
  }

  /** A block that was resized keeps the bytes that both sizes hold. */
  lemma HasResized(m: Memory, own: set<(int, nat)>, m': Memory, own': set<(int, nat)>, p: int, q: int, e: Content, n: nat)
    requires Has(m, p, e) && Resized(m, own, m', own', p, q, n) && q - 1 + Units(n) <= |m'|
    ensures Has(m', q, Resize(e, n))
  {
    var f := Resize(e, n);
    forall k | k in f.bytes ensures 0 <= k < Capacity(Units(n)) && PayloadByte(m', q, k) == f.bytes[k] {
      assert k in e.bytes;
      assert PayloadByte(m', q, k) == PayloadByte(m, p, k);
    }
  }

  lemma HasStored(m: Memory, m': Memory, p: int, e: Content, k: nat, v: Byte)
    requires Has(m, p, e) && 0 <= p - 1 < |m| == |m'| && m'[p - 1] == m[p - 1]
    requires Stored(m, m', p, Capacity(Units(e.nbytes)), k, v)
    ensures Has(m', p, if k < Capacity(Units(e.nbytes)) then e.(bytes := e.bytes[k := v]) else e)
  {
    var f := if k < Capacity(Units(e.nbytes)) then e.(bytes := e.bytes[k := v]) else e;
    forall j | j in f.bytes ensures 0 <= j < Capacity(Units(e.nbytes)) && PayloadByte(m', p, j) == f.bytes[j] {
      assert j != k ==> j in e.bytes;
    }
  }

  method ServeMalloc(heap: Heap, n: nat, held0: seq<int>, ghost es: seq<Content>)
    returns (held: seq<int>, ok: bool, stray: bool)
    requires heap.Valid() && Holding(held0, heap.mem, heap.Owned()) && AllHave(heap.mem, held0, es)
    modifies heap
    ensures heap.Valid() && Holding(held, heap.mem, heap.Owned())
    ensures AllHave(heap.mem, held, After(es, CallMalloc(n), ok))
    ensures (ok ==> Servable(CallMalloc(n), |held0|)) && (stray ==> Wraps(n))
    ensures Servable(CallMalloc(n), |held0|) && Ample(heap, |old(heap.mem)| + Core(Units(n))) ==> ok
    ensures |heap.mem| <= |old(heap.mem)| + Core(Units(n))
  {
    hide Inv, Live, Kept, Fits, Holding, AllHave, Gained;
    OwnedInside(heap);
    ghost var m, own := heap.mem, heap.Owned();
    if Ample(heap, |heap.mem| + Core(Units(n))) {
      Granted(heap, n);
    }
    var res;
    res, stray := heap.Malloc(n);
    held, ok := held0, res != NULL;
    if ok {
      OwnedInside(heap);
      HoldingGained(held0, m, own, heap.mem, heap.Owned(), res, Units(n));
      AllHaveKept(m, heap.mem, held0, es, own);
      GainedInside(heap.mem, heap.Owned(), own, res, n);
      AllHaveMore(heap.mem, held0, es, res, Content(n, map[]));
      held := held0 + [res];
    }
  }

  /** A block that was just given. */
  lemma GainedInside(m: Memory, own: set<(int, nat)>, own0: set<(int, nat)>, p: int, n: nat)
    requires Gained(m, own, own0, p - 1, Units(n)) && forall h, k :: (h, k) in own ==> h + k <= |m|
    ensures Has(m, p, Content(n, map[])) && p - 1 + Units(n) <= |m|
  {
    assert (p - 1, Units(n)) in own;
  }

  method ServeFree(heap: Heap, i: nat, held0: seq<int>, ghost es: seq<Content>) returns (held: seq<int>)
    requires heap.Valid() && Holding(held0, heap.mem, heap.Owned()) && AllHave(heap.mem, held0, es) && i < |held0|
    modifies heap
    ensures heap.Valid() && Holding(held, heap.mem, heap.Owned()) && |heap.mem| == |old(heap.mem)|
    ensures AllHave(heap.mem, held, After(es, CallFree(i), true))
  {
    hide Inv, Live, Kept, Fits, Holding, Has;
    ghost var m := heap.mem;
    HoldingLost(held0, m, heap.Owned(), i);
    AllHaveWithout(m, held0, es, i);
    heap.Free(held0[i]);
    OwnedInside(heap);
    held := Without(held0, i);
    HoldingKept(held, m, heap.mem, heap.Owned());
    AllHaveKept(m, heap.mem, held, Without(es, i), heap.Owned());
  }

  method ServeRealloc(heap: Heap, i: nat, n: nat, held0: seq<int>, ghost es: seq<Content>)
    returns (held: seq<int>, ok: bool, stray: bool)
    requires heap.Valid() && Holding(held0, heap.mem, heap.Owned()) && AllHave(heap.mem, held0, es) && i < |held0|
    modifies heap
    ensures heap.Valid() && Holding(held, heap.mem, heap.Owned())
    ensures AllHave(heap.mem, held, After(es, CallRealloc(i, n), ok))
    ensures (ok ==> 0 < n <= SIZE_MAX - UNIT - 1) && (stray ==> Wraps(n))
    ensures 0 < n <= SIZE_MAX - UNIT - 1 && Ample(heap, |old(heap.mem)| + Core(Units(n))) ==> ok
    ensures |heap.mem| <= |old(heap.mem)| + Core(Units(n))
  {
    hide Inv, Live, Kept, Fits, Holding, AllHave, Gained, BytesKept, Has, Resize, RoomAbove;
    OwnedInside(heap);
    ghost var m, own := heap.mem, heap.Owned();
    if Ample(heap, |heap.mem| + Core(Units(n))) {
      Granted(heap, n);
    }
    var p, res := held0[i], NULL;
    HoldingLost(held0, m, own, i);
    AllHaveWithout(m, held0, es, i);
    HasAt(m, held0, es, i);
    res, stray := heap.Realloc(p, n);
    held, ok := held0, res != NULL;
    if ok {
      OwnedInside(heap);
      held := Without(held0, i);
      ghost var rest := Others(own, p, m);
      HoldingGained(held, m, rest, heap.mem, heap.Owned(), res, Units(n));
      AllHaveKept(m, heap.mem, held, Without(es, i), rest);
      ResizedInside(m, own, heap.mem, heap.Owned(), p, res, es[i], n);
      AllHaveMore(heap.mem, held, Without(es, i), res, Resize(es[i], n));
      held := held + [res];
    }
  }

  lemma HasAt(m: Memory, held: seq<int>, es: seq<Content>, i: nat)
    requires AllHave(m, held, es) && i < |held|
    ensures |es| == |held| && Has(m, held[i], es[i])
  {
  }

  lemma ResizedInside(m: Memory, own: set<(int, nat)>, m': Memory, own': set<(int, nat)>, p: int, q: int, e: Content, n: nat)
    requires Has(m, p, e) && 0 <= p - 1 < |m| && m[p - 1].Hdr? && Resized(m, own, m', own', p, q, n)
    requires forall h, k :: (h, k) in own' ==> h + k <= |m'|
    ensures Has(m', q, Resize(e, n))
  {
    hide BytesKept, Kept, Has;
    assert (q - 1, Units(n)) in own';
    HasResized(m, own, m', own', p, q, e, n);
  }

  method ServeStore(heap: Heap, i: nat, k: nat, v: Byte, held: seq<int>, ghost es: seq<Content>)
    requires heap.Valid() && Holding(held, heap.mem, heap.Owned()) && AllHave(heap.mem, held, es) && i < |held|
    modifies heap
    ensures heap.Valid() && Holding(held, heap.mem, heap.Owned()) && |heap.mem| == |old(heap.mem)|
    ensures AllHave(heap.mem, held, After(es, CallStore(i, k, v), true))
  {
    hide Inv, Live, Kept, Fits, Holding, AllHave, Has, Stored;
    OwnedInside(heap);
    ghost var m, own := heap.mem, heap.Owned();
    var p := held[i];
    HoldingLost(held, m, own, i);
    AllHaveWithout(m, held, es, i);
    HasAt(m, held, es, i);
    heap.Store(p, k, v);
    HoldingStored(held, m, heap.mem, own, p);
    ghost var rest := own - {(p - 1, m[p - 1].size)};
    AllHaveKept(m, heap.mem, Without(held, i), Without(es, i), rest);
    SizeOf(m, p, es[i]);
    HasStored(m, heap.mem, p, es[i], k, v);
    AllHaveBack(heap.mem, held, es, i, After(es, CallStore(i, k, v), true));
  }

  lemma SizeOf(m: Memory, p: int, e: Content)
    requires Has(m, p, e)
    ensures 0 <= p - 1 < |m| && m[p - 1].Hdr? && m[p - 1].size == Units(e.nbytes)
  {
  }

  lemma AllHaveBack(m: Memory, held: seq<int>, es: seq<Content>, i: nat, fs: seq<Content>)
    requires i < |held| == |es| == |fs| && AllHave(m, Without(held, i), Without(es, i)) && Has(m, held[i], fs[i])
    requires forall j :: 0 <= j < |es| && j != i ==> fs[j] == es[j]
    ensures AllHave(m, held, fs)
  {
    hide Has;
    var h, e := Without(held, i), Without(es, i);
    forall j | 0 <= j < |held| ensures Has(m, held[j], fs[j]) {
      if j != i {
        var k := if j < i then j else j - 1;
        assert Has(m, h[k], e[k]);
      }
    }
  }

  /** Serves one call. */
  method Serve(heap: Heap, call: Call, held0: seq<int>, ghost es: seq<Content>) returns (held: seq<int>, ok: bool, stray: bool)
    requires heap.Valid() && Holding(held0, heap.mem, heap.Owned()) && AllHave(heap.mem, held0, es)
    modifies heap
    ensures heap.Valid() && Holding(held, heap.mem, heap.Owned())
    ensures AllHave(heap.mem, held, After(es, call, ok))
    ensures (ok ==> Servable(call, |held0|)) && (stray ==> !Askable(call))
    ensures Servable(call, |held0|) && Ample(heap, |old(heap.mem)| + Demand(call)) ==> ok
    ensures |heap.mem| <= |old(heap.mem)| + Demand(call)
  {
    hide Inv, Live, Holding, Has;
    assert |held0| == |es|;
    hide AllHave;
    held, ok, stray := held0, false, false;
    match call
    case CallMalloc(n) =>
      held, ok, stray := ServeMalloc(heap, n, held0, es);
    case CallFree(i) =>
      if i < |held| {
        held := ServeFree(heap, i, held0, es);
        ok := true;
      }
    case CallRealloc(i, n) =>
      if i < |held| {
        held, ok, stray := ServeRealloc(heap, i, n, held0, es);
      }
    case CallStore(i, k, v) =>
      if i < |held| {
        ServeStore(heap, i, k, v, held0, es);
        ok := true;
      }
  }

  lemma Extended(calls: seq<Call>, c: nat, served: seq<bool>, ok: bool)
    requires c < |calls| && |served| == c
    ensures Expected(calls[..c + 1], served + [ok]) == After(Expected(calls[..c], served), calls[c], ok)
    ensures TotalDemand(calls[..c + 1]) == TotalDemand(calls[..c]) + Demand(calls[c])
  {
    hide After, Demand;
    assert calls[..c + 1][..c] == calls[..c] && (served + [ok])[..c] == served;
  }

  lemma {:induction false} DemandPrefix(calls: seq<Call>, c: nat)
    requires c <= |calls|
    ensures TotalDemand(calls[..c]) <= TotalDemand(calls)
  {
    hide Demand;
    if c < |calls| {
      var init := calls[..|calls| - 1];
      assert init[..c] == calls[..c];
      DemandPrefix(init, c);
    } else {
      assert calls[..c] == calls;
    }
  }

  /** Only calls that make sense were served, and with ample memory all of them. */
  ghost predicate Answered(calls: seq<Call>, served: seq<bool>, ample: bool) {
    |served| <= |calls| && forall i :: 0 <= i < |served| ==>
      var servable := Servable(calls[i], |Expected(calls[..i], served[..i])|);
      (served[i] ==> servable) && (ample && servable ==> served[i])
  }

  lemma AnsweredMore(calls: seq<Call>, served: seq<bool>, ok: bool, ample: bool)
    requires Answered(calls, served, ample) && |served| < |calls|
    requires var servable := Servable(calls[|served|], |Expected(calls[..|served|], served)|);
             (ok ==> servable) && (ample && servable ==> ok)
    ensures Answered(calls, served + [ok], ample)
  {
    hide Servable, Expected;
    var t := served + [ok];
    assert forall i :: 0 <= i <= |served| ==> t[..i] == served[..i];
    assert served[..|served|] == served;
  }

  lemma NothingHeld(m: Memory)
    ensures Holding([], m, {}) && AllHave(m, [], [])
  {
  }

  /** Any sequence of calls, with writes to payloads in between, keeps the heap valid; the
      program owns exactly the blocks it was given and has not given back, and each of them
      holds the bytes last stored in it.  Only calls that make sense are served, and all of
      them are if the system never refuses and the address space is large enough. */
  method Session(heap: Heap, calls: seq<Call>) returns (held: seq<int>, served: seq<bool>, stray: bool)
    requires heap.Valid() && heap.Owned() == {}
    modifies heap
    ensures heap.Valid() && Holding(held, heap.mem, heap.Owned())
    ensures |served| <= |calls| && AllHave(heap.mem, held, Expected(calls[..|served|], served))
    ensures Answered(calls, served, Ample(heap, |old(heap.mem)| + TotalDemand(calls)))
    ensures if stray then served != [] && !Askable(calls[|served| - 1]) else |served| == |calls|
  {
    hide Inv, Live, Holding, AllHave, Servable, Askable, Demand, After, Answered;
    held, served, stray := [], [], false;
    ghost var es: seq<Content>, ample := [], Ample(heap, |heap.mem| + TotalDemand(calls));
    NothingHeld(heap.mem);
    NothingAnswered(calls, ample);
    for c := 0 to |calls|
      invariant heap.Valid() && Holding(held, heap.mem, heap.Owned()) && AllHave(heap.mem, held, es)
      invariant |served| == c && es == Expected(calls[..c], served) && !stray && |held| == |es|
      invariant |heap.mem| <= |old(heap.mem)| + TotalDemand(calls[..c])
      invariant Answered(calls, served, ample)
    {
      var ok;
      DemandPrefix(calls, c + 1);
      Extended(calls, c, served, true);
      held, ok, stray := Serve(heap, calls[c], held, es);
      Extended(calls, c, served, ok);
      AnsweredMore(calls, served, ok, ample);
      es := After(es, calls[c], ok);
      served := served + [ok];
      SameCount(heap.mem, held, es);
      if stray {
        return;
      }
    }
  }

  lemma NothingAnswered(calls: seq<Call>, ample: bool)
    ensures Answered(calls, [], ample) && Expected(calls[..0], []) == [] && TotalDemand(calls[..0]) == 0
  {
  }

  lemma SameCount(m: Memory, held: seq<int>, es: seq<Content>)
    requires AllHave(m, held, es)
    ensures |held| == |es|
  {
  }

  /** Storing into one block leaves every header as it was. */
  lemma HoldingStored(held: seq<int>, m: Memory, m': Memory, own: set<(int, nat)>, p: int)
    requires Holding(held, m, own) && Behind(m, own, p) && |m'| == |m| && m'[p - 1] == m[p - 1]
    requires forall h, k :: (h, k) in own - {(p - 1, m[p - 1].size)} ==> Kept(m, m', h, k) && k >= 1
    ensures Holding(held, m', own)
  {
    hide Kept;
    forall q | q in held ensures Behind(m', own, q) {
      BehindStored(m, m', own, p, own, q);
    }
    forall x | x in own ensures Behind(m', {x}, x.0 + 1) {
      BehindStored(m, m', own, p, {x}, x.0 + 1);
    }
  }

  lemma BehindStored(m: Memory, m': Memory, own: set<(int, nat)>, p: int, some: set<(int, nat)>, q: int)
    requires Behind(m, own, p) && |m'| == |m| && m'[p - 1] == m[p - 1] && some <= own && Behind(m, some, q)
    requires forall h, k :: (h, k) in own - {(p - 1, m[p - 1].size)} ==> Kept(m, m', h, k) && k >= 1
    ensures Behind(m', some, q)
  {
    if q != p {
      var h, k := q - 1, m[q - 1].size;
      assert (h, k) in own - {(p - 1, m[p - 1].size)};
      assert Kept(m, m', h, k);
    }
  }
}
