/** The collision lists and the list of all symbols as sequences of cells, and what linking,
    unlinking and freeing a symbol does to them. */
module Cc1Tables {
  import opened Chains
  import opened Cc1Scopes

  type Infos = map<int, Info>

  function View(info: Infos, chain: seq<int>): (v: seq<Entry>)
    requires forall c :: c in chain ==> c in info
    ensures |v| == |chain|
  {
    if chain == [] then []
    else
      var c := chain[0];
      assert c in chain;
      [Entry(c, info[c])] + View(info, chain[1..])
  }

  /** The symbols of a collision list are declared, hashed there, and their depths fall. */
  predicate BucketOk(info: Infos, declared: set<int>, chain: seq<int>, b: int, ctx: int) {
    && (forall c :: c in chain ==> c in info && c in declared && Slot(info[c].name) == b)
    && NoDup(chain) && Falling(View(info, chain), ctx)
  }

  /** The list of all symbols: none of them twice, their depths fall. */
  predicate ListOk(info: Infos, list: seq<int>, ctx: int) {
    && (forall c :: c in list ==> c in info) && NoDup(list) && Falling(View(info, list), ctx)
  }

  /** The views of all collision lists. */
  function Views(info: Infos, chains: seq<seq<int>>): (v: seq<seq<Entry>>)
    requires forall b :: 0 <= b < |chains| ==> forall c :: c in chains[b] ==> c in info
    ensures |v| == |chains| && forall b :: 0 <= b < |chains| ==> v[b] == View(info, chains[b])
  {
    if chains == [] then []
    else
      assert forall b :: 0 <= b < |chains[1..]| ==> chains[1..][b] == chains[b + 1];
      [View(info, chains[0])] + Views(info, chains[1..])
  }

  lemma SlotBounds(name: string)
    ensures 0 <= Slot(name) < NR_SYM_HASH
  {
  }

  lemma {:induction false} ViewFrame(info: Infos, info': Infos, chain: seq<int>)
    requires forall c :: c in chain ==> c in info && c in info' && info'[c] == info[c]
    ensures View(info', chain) == View(info, chain)
  {
    if chain != [] {
      ViewFrame(info, info', chain[1..]);
    }
  }

  lemma BucketFrame(info: Infos, info': Infos, declared: set<int>, declared': set<int>, chain: seq<int>, b: int, ctx: int)
    requires BucketOk(info, declared, chain, b, ctx) && declared <= declared'
    requires forall c :: c in info && c in declared ==> c in info' && info'[c] == info[c]
    ensures BucketOk(info', declared', chain, b, ctx) && View(info', chain) == View(info, chain)
  {
    ViewFrame(info, info', chain);
  }

  lemma AllViewsSame(info: Infos, info': Infos, declared: set<int>, declared': set<int>, chains: seq<seq<int>>, ctx: int)
    requires declared <= declared' && forall c :: c in info && c in declared ==> c in info' && info'[c] == info[c]
    requires forall b :: 0 <= b < |chains| ==> BucketOk(info, declared, chains[b], b, ctx)
    ensures forall b :: 0 <= b < |chains| ==> forall c :: c in chains[b] ==> c in info && c in info'
    ensures Views(info', chains) == Views(info, chains)
  {
    forall b | 0 <= b < |chains| ensures View(info', chains[b]) == View(info, chains[b]) && forall c :: c in chains[b] ==> c in info && c in info' {
      BucketFrame(info, info', declared, declared', chains[b], b, ctx);
    }
  }

  lemma ListFrame(info: Infos, info': Infos, list: seq<int>, ctx: int)
    requires ListOk(info, list, ctx) && forall c :: c in list && c in info ==> c in info' && info'[c] == info[c]
    ensures ListOk(info', list, ctx)
  {
    ViewFrame(info, info', list);
  }

  lemma ListPush(info: Infos, list: seq<int>, ctx: int, c: int)
    requires ListOk(info, list, ctx) && c in info && info[c].ctx == ctx && c !in list
    ensures ListOk(info, [c] + list, ctx)
  {
    assert ([c] + list)[1..] == list;
    var v := View(info, [c] + list);
    assert v == [Entry(c, info[c])] + View(info, list) && v[1..] == View(info, list);
  }

  lemma Added(s: Scopes, t: Scopes, e: Entry)
    requires |s.buckets| == |t.buckets| == NR_SYM_HASH && t.ctx == s.ctx
    requires forall b :: 0 <= b < NR_SYM_HASH ==>
               t.buckets[b] == if b == Slot(e.info.name) then [e] + s.buckets[b] else s.buckets[b]
    ensures t == Step(s, Add(e))
  {
    assert t.buckets == Step(s, Add(e)).buckets;
  }

  lemma Closed(s: Scopes, t: Scopes)
    requires |s.buckets| == |t.buckets| == NR_SYM_HASH && t.ctx == s.ctx - 1
    requires forall b :: 0 <= b < NR_SYM_HASH ==> t.buckets[b] == Outer(s.buckets[b], s.ctx)
    ensures t == Step(s, Pop)
  {
    assert t.buckets == Step(s, Pop).buckets;
  }

  lemma NotInBuckets(info: Infos, declared: set<int>, chains: seq<seq<int>>, ctx: int, sym: int)
    requires sym !in declared && forall b :: 0 <= b < |chains| ==> BucketOk(info, declared, chains[b], b, ctx)
    ensures forall b :: 0 <= b < |chains| ==> sym !in chains[b]
  {
  }

  lemma LinkedOther(links: Links, links': Links, p: int, chain: seq<int>, c: int)
    requires Linked(links, p, chain) && c !in chain && c in links' && links' == links[c := links'[c]]
    ensures Linked(links', p, chain)
  {
    CellsLinked(links, p, chain);
    LinkedFrame(links, links', p, chain);
  }

  lemma BucketPush(info: Infos, declared: set<int>, chain: seq<int>, b: int, ctx: int, c: int)
    requires BucketOk(info, declared, chain, b, ctx) && c in info && c in declared && info[c].ctx == ctx && Slot(info[c].name) == b
    requires c !in chain
    ensures BucketOk(info, declared, [c] + chain, b, ctx)
    ensures forall x :: x in chain ==> x in info
    ensures View(info, [c] + chain) == [Entry(c, info[c])] + View(info, chain)
  {
    assert ([c] + chain)[1..] == chain;
    var v := View(info, [c] + chain);
    assert v[1..] == View(info, chain);
  }

  lemma BucketCells(info: Infos, declared: set<int>, chain: seq<int>, b: int, ctx: int)
    requires BucketOk(info, declared, chain, b, ctx)
    ensures forall c :: c in chain ==> c in info && c in declared && Slot(info[c].name) == b
  {
  }

  lemma BucketNoDup(info: Infos, declared: set<int>, chain: seq<int>, b: int, ctx: int)
    requires BucketOk(info, declared, chain, b, ctx)
    ensures NoDup(chain)
  {
  }

  lemma OtherBucket(info: Infos, declared: set<int>, chain: seq<int>, b: int, ctx: int, c: int)
    requires BucketOk(info, declared, chain, b, ctx) && c in info && Slot(info[c].name) != b
    ensures c !in chain
  {
  }

  lemma RemoveKeeps(chain: seq<int>, sym: int, c: int)
    requires NoDup(chain) && c in chain && c != sym
    ensures c in Remove(chain, sym)
  {
    RemoveNoDup(chain, sym);
  }

  /** A collision list stays one without any of its symbols, and closing the block gives the
      same as with it, if the symbol belongs to the block. */
  lemma BucketWithout(info: Infos, declared: set<int>, chain: seq<int>, b: int, ctx: int, sym: int)
    requires BucketOk(info, declared, chain, b, ctx)
    ensures BucketOk(info, declared - {sym}, Remove(chain, sym), b, ctx)
  {
    RemoveNoDup(chain, sym);
    FallingWithout(info, chain, ctx, sym);
  }

  lemma {:induction false} FallingWithout(info: Infos, chain: seq<int>, bound: int, sym: int)
    requires (forall c :: c in chain ==> c in info) && Falling(View(info, chain), bound)
    ensures Falling(View(info, Remove(chain, sym)), bound)
  {
    if chain != [] {
      var c, t, v := chain[0], chain[1..], View(info, chain);
      assert v[1..] == View(info, t);
      if c == sym {
        FallingRaised(View(info, t), info[c].ctx, bound);
      } else {
        FallingWithout(info, t, info[c].ctx, sym);
        var w := View(info, [c] + Remove(t, sym));
        assert ([c] + Remove(t, sym))[1..] == Remove(t, sym) && w[1..] == View(info, Remove(t, sym));
      }
    }
  }

  lemma AbsentBuckets(info: Infos, declared: set<int>, chains: seq<seq<int>>, ctx: int, sym: int)
    requires sym !in declared && forall b :: 0 <= b < |chains| ==> BucketOk(info, declared, chains[b], b, ctx)
    ensures forall b :: 0 <= b < |chains| ==> Remove(chains[b], sym) == chains[b]
  {
    forall b | 0 <= b < |chains| ensures Remove(chains[b], sym) == chains[b] {
      RemoveAbsent(chains[b], sym);
    }
  }

  lemma ListRest(info: Infos, list: seq<int>, ctx: int)
    requires ListOk(info, list, ctx) && list != []
    ensures ListOk(info - {list[0]}, list[1..], ctx)
  {
    var t, v := list[1..], View(info, list);
    NoDupTail(list);
    assert v[1..] == View(info, t);
    FallingRaised(View(info, t), info[list[0]].ctx, ctx);
    ViewFrame(info, info - {list[0]}, t);
  }

  lemma {:induction false} FallingAll(info: Infos, chain: seq<int>, bound: int)
    requires (forall c :: c in chain ==> c in info) && Falling(View(info, chain), bound)
    ensures forall c :: c in chain ==> info[c].ctx <= bound
  {
    if chain != [] {
      assert View(info, chain)[1..] == View(info, chain[1..]);
      FallingAll(info, chain[1..], info[chain[0]].ctx);
    }
  }

  lemma {:induction false} OuterWithout(info: Infos, chain: seq<int>, bound: int, ctx: int, sym: int)
    requires (forall c :: c in chain ==> c in info) && Falling(View(info, chain), bound) && sym in info && info[sym].ctx >= ctx
    ensures Outer(View(info, Remove(chain, sym)), ctx) == Outer(View(info, chain), ctx)
  {
    if chain != [] {
      var c, t, v := chain[0], chain[1..], View(info, chain);
      assert v[1..] == View(info, t);
      if c != sym {
        if info[c].ctx >= ctx {
          OuterWithout(info, t, info[c].ctx, ctx, sym);
          var r := Remove(t, sym);
          assert ([c] + r)[1..] == r && View(info, [c] + r)[1..] == View(info, r);
        } else {
          FallingAll(info, t, info[c].ctx);
          RemoveAbsent(chain, sym);
        }
      }
    }
  }

  /** Unlinking and freeing a symbol of the current block. */
  lemma BucketFreed(info: Infos, declared: set<int>, chain: seq<int>, b: int, ctx: int, sym: int)
    requires BucketOk(info, declared, chain, b, ctx) && sym in info && info[sym].ctx >= ctx
    ensures var r, info' := Remove(chain, sym), info - {sym};
            && BucketOk(info', declared - {sym}, r, b, ctx)
            && (forall c :: c in chain ==> c in info) && (forall c :: c in r ==> c in info')
            && Outer(View(info', r), ctx) == Outer(View(info, chain), ctx)
  {
    var r := Remove(chain, sym);
    BucketWithout(info, declared, chain, b, ctx, sym);
    RemoveNoDup(chain, sym);
    OuterWithout(info, chain, ctx, ctx, sym);
    ViewFrame(info, info - {sym}, r);
  }

  lemma HeadListed(next: Links, head: int, list: seq<int>)
    requires Linked(next, head, list) && head != NULL
    ensures list != [] && list[0] == head && head in next && Linked(next, next[head], list[1..])
  {
  }

  /** When the newest symbol is of an outer block, or there is none, no symbol of the block
      is left. */
  lemma NoneLeft(info: Infos, next: Links, head: int, list: seq<int>, ctx: int)
    requires Linked(next, head, list) && ListOk(info, list, ctx)
    requires head == NULL || (head in info && info[head].ctx != ctx)
    ensures ListOk(info, list, ctx - 1) && forall c :: c in list ==> c in info && info[c].ctx < ctx
  {
    if list != [] {
      CellsLinked(next, head, list);
      assert head in list;
      var v := View(info, list);
      assert Falling(v, ctx - 1);
    }
    FallingAll(info, list, ctx - 1);
  }

  lemma BucketOutside(info: Infos, declared: set<int>, chain: seq<int>, b: int, ctx: int)
    requires BucketOk(info, declared, chain, b, ctx)
    requires forall c :: c in info ==> info[c].ctx < ctx
    ensures BucketOk(info, declared, chain, b, ctx - 1)
    ensures forall c :: c in chain ==> c in info
    ensures Outer(View(info, chain), ctx) == View(info, chain)
  {
    if chain != [] {
      assert chain[0] in chain;
    }
  }

  /** Every collision list without one symbol. */
  function Removed(chains: seq<seq<int>>, sym: int): (r: seq<seq<int>>)
    ensures |r| == |chains| && forall b :: 0 <= b < |r| ==> r[b] == Remove(chains[b], sym)
  {
    seq(|chains|, b requires 0 <= b < |chains| => Remove(chains[b], sym))
  }

  /** Unlinking and freeing a symbol of the current block, all collision lists together. */
  lemma Freed(info: Infos, declared: set<int>, chains: seq<seq<int>>, ctx: int, sym: int)
    requires sym in info && info[sym].ctx >= ctx && forall b :: 0 <= b < |chains| ==> BucketOk(info, declared, chains[b], b, ctx)
    ensures var r, info' := Removed(chains, sym), info - {sym};
            && (forall b :: 0 <= b < |r| ==> BucketOk(info', declared - {sym}, r[b], b, ctx))
            && (forall b :: 0 <= b < |chains| ==> forall c :: c in chains[b] ==> c in info)
            && (forall b :: 0 <= b < |r| ==> forall c :: c in r[b] ==> c in info')
            && forall b :: 0 <= b < |r| ==> Outer(View(info', r[b]), ctx) == Outer(View(info, chains[b]), ctx)
  {
    hide BucketOk, View, Outer, Remove;
    forall b | 0 <= b < |chains|
      ensures var r, info' := Remove(chains[b], sym), info - {sym};
              && BucketOk(info', declared - {sym}, r, b, ctx)
              && (forall c :: c in chains[b] ==> c in info) && (forall c :: c in r ==> c in info')
              && Outer(View(info', r), ctx) == Outer(View(info, chains[b]), ctx)
    {
      BucketFreed(info, declared, chains[b], b, ctx, sym);
    }
  }

  lemma OwnBucket(info: Infos, declared: set<int>, chains: seq<seq<int>>, ctx: int, sym: int)
    requires sym in info && forall b :: 0 <= b < |chains| ==> BucketOk(info, declared, chains[b], b, ctx)
    ensures forall b :: 0 <= b < |chains| && sym in chains[b] ==> b == Slot(info[sym].name)
  {
    hide Slot;
  }

  lemma FirstOnly(chain: seq<int>, sym: int, i: int)
    requires NoDup(chain) && 0 <= i < |chain| && chain[i] == sym
    ensures sym in chain && (chain[0] == sym <==> i == 0)
  {
  }

  lemma RemoveFirst(chain: seq<int>, sym: int)
    requires chain != [] && chain[0] == sym
    ensures Remove(chain, sym) == chain[1..]
  {
  }
}
