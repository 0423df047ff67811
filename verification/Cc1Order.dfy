/** The order of a block's symbols: a collision list has them in the order of the list of all
    symbols when each was linked before a newer one of its collision list. */
module Cc1Order {
  import opened Chains
  import opened Cc1Scopes
  import opened Cc1Tables

  function DepthOf(info: Infos, c: int): int {
    if c in info then info[c].ctx else -1
  }

  /** `x` comes before `y`. */
  ghost predicate Before(list: seq<int>, x: int, y: int) {
    list != [] && ((list[0] == x && y in list[1..]) || Before(list[1..], x, y))
  }

  /** `c` comes before all the symbols of depth `d` in a collision list, if it is one. */
  ghost predicate Leads(info: Infos, list: seq<int>, c: int, chain: seq<int>, d: int) {
    DepthOf(info, c) == d ==> forall y :: y in chain && DepthOf(info, y) == d ==> Before(list, c, y)
  }

  /** The symbols of depth `d` come in the order of the list of all symbols. */
  ghost predicate OrderedIn(info: Infos, list: seq<int>, chain: seq<int>, d: int) {
    chain == [] || (Leads(info, list, chain[0], chain[1..], d) && OrderedIn(info, list, chain[1..], d))
  }

  ghost predicate AllOrdered(info: Infos, list: seq<int>, chains: seq<seq<int>>, d: int) {
    forall b :: 0 <= b < |chains| ==> OrderedIn(info, list, chains[b], d)
  }

  lemma {:induction false} BeforeIn(list: seq<int>, x: int, y: int)
    requires Before(list, x, y)
    ensures x in list && y in list
  {
    if !(list[0] == x && y in list[1..]) {
      BeforeIn(list[1..], x, y);
    }
  }

  /** Of two symbols of a list one is before the other, and not both. */
  lemma {:induction false} BeforeTotal(list: seq<int>, x: int, y: int)
    requires NoDup(list) && x in list && y in list && x != y
    ensures Before(list, x, y) <==> !Before(list, y, x)
  {
    NoDupTail(list);
    var t := list[1..];
    if list[0] == x {
      if Before(t, y, x) {
        BeforeIn(t, y, x);
      }
    } else if list[0] == y {
      if Before(t, x, y) {
        BeforeIn(t, x, y);
      }
    } else {
      BeforeTotal(t, x, y);
    }
  }

  /** Depths fall along the list. */
  lemma {:induction false} BeforeDeeper(info: Infos, list: seq<int>, bound: int, x: int, y: int)
    requires (forall c :: c in list ==> c in info) && Falling(View(info, list), bound) && Before(list, x, y)
    ensures x in info && y in info && info[y].ctx <= info[x].ctx <= bound
  {
    var t := list[1..];
    assert View(info, list)[1..] == View(info, t);
    FallingAll(info, list, bound);
    BeforeIn(list, x, y);
    if list[0] == x && y in t {
      FallingAll(info, t, info[x].ctx);
    } else {
      BeforeDeeper(info, t, info[list[0]].ctx, x, y);
    }
  }

  /** Another list of all symbols in which the same symbols come before each other. */
  lemma {:induction false} OrderFrame(info: Infos, info': Infos, list: seq<int>, list': seq<int>, chain: seq<int>, d: int)
    requires forall c :: c in chain ==> DepthOf(info', c) == DepthOf(info, c)
    requires forall x, y :: x in chain && y in chain ==> (Before(list', x, y) <==> Before(list, x, y))
    ensures OrderedIn(info', list', chain, d) <==> OrderedIn(info, list, chain, d)
  {
    if chain != [] {
      OrderFrame(info, info', list, list', chain[1..], d);
    }
  }

  /** A new symbol at the head of the list, or one taken from there, disturbs no others. */
  lemma OrderHead(info: Infos, info': Infos, list: seq<int>, c: int, chain: seq<int>, d: int)
    requires c !in chain && forall x :: x in chain ==> DepthOf(info', x) == DepthOf(info, x)
    ensures OrderedIn(info', [c] + list, chain, d) <==> OrderedIn(info, list, chain, d)
  {
    assert ([c] + list)[1..] == list;
    OrderFrame(info, info', list, [c] + list, chain, d);
  }

  /** No symbol has the depth. */
  lemma {:induction false} OrderNone(info: Infos, list: seq<int>, chain: seq<int>, d: int)
    requires forall c :: c in chain ==> DepthOf(info, c) != d
    ensures OrderedIn(info, list, chain, d)
  {
    if chain != [] {
      assert chain[0] in chain;
      OrderNone(info, list, chain[1..], d);
    }
  }

  /** Linking a symbol at the front: it must be before the others of its depth. */
  lemma OrderPushed(info: Infos, list: seq<int>, chain: seq<int>, c: int, d: int)
    ensures OrderedIn(info, list, [c] + chain, d) <==> OrderedIn(info, list, chain, d) && Leads(info, list, c, chain, d)
  {
    assert ([c] + chain)[1..] == chain;
  }

  /** The newest symbol leaves both lists: the others keep their order, and if it has the
      depth, it was the first of its collision list or out of order. */
  lemma {:induction false} OrderTaken(info: Infos, list: seq<int>, chain: seq<int>, bound: int, d: int)
    requires list != [] && NoDup(list) && NoDup(chain) && (forall c :: c in chain ==> c in info)
    requires list[0] in info && info[list[0]].ctx >= bound && Falling(View(info, chain), bound)
    requires forall c :: c in chain && info[c].ctx == d ==> c in list
    ensures var sym := list[0];
            var rest := OrderedIn(info - {sym}, list[1..], Remove(chain, sym), d);
            OrderedIn(info, list, chain, d) <==>
              rest && (d == info[sym].ctx && sym in chain ==> chain[0] == sym)
    decreases |chain|, 1
  {
    var sym, t := list[0], list[1..];
    assert list == [sym] + t;
    NoDupTail(list);
    if sym !in chain {
      RemoveAbsent(chain, sym);
      OrderHead(info - {sym}, info, t, sym, chain, d);
    } else {
      var c, r := chain[0], chain[1..];
      NoDupTail(chain);
      assert View(info, chain)[1..] == View(info, r);
      if c == sym {
        OrderHead(info - {sym}, info, t, sym, r, d);
        assert Leads(info, list, sym, r, d);
      } else {
        OrderTakenLater(info, list, chain, bound, d);
      }
    }
  }

  lemma {:induction false} OrderTakenLater(info: Infos, list: seq<int>, chain: seq<int>, bound: int, d: int)
    requires list != [] && NoDup(list) && NoDup(chain) && (forall c :: c in chain ==> c in info)
    requires list[0] in info && info[list[0]].ctx >= bound && Falling(View(info, chain), bound)
    requires forall c :: c in chain && info[c].ctx == d ==> c in list
    requires chain != [] && list[0] in chain[1..]
    ensures var sym := list[0];
            OrderedIn(info, list, chain, d) <==>
              d != info[sym].ctx && OrderedIn(info - {sym}, list[1..], Remove(chain, sym), d)
    decreases |chain|, 0
  {
    var sym, t, c, r := list[0], list[1..], chain[0], chain[1..];
    var v := View(info, chain);
    assert v[1..] == View(info, r);
    FallingAll(info, r, info[c].ctx);
    assert info[c].ctx == bound == info[sym].ctx;
    NoDupTail(list);
    NoDupTail(chain);
    if d == bound {
      NothingBefore(list, c);
      assert sym in r && DepthOf(info, sym) == d;
    } else {
      FallingRaised(View(info, r), info[c].ctx, bound);
      OrderTaken(info, list, r, bound, d);
      var r' := Remove(r, sym);
      assert Remove(chain, sym) == [c] + r' && ([c] + r')[1..] == r';
    }
  }

  lemma NothingBefore(list: seq<int>, x: int)
    requires NoDup(list) && list != []
    ensures !Before(list, x, list[0])
  {
    NoDupTail(list);
    if Before(list[1..], x, list[0]) {
      BeforeIn(list[1..], x, list[0]);
    }
  }

  /** A symbol may be linked while no newer one of its collision list is. */
  ghost predicate Guarded(info: Infos, declared: set<int>, list: seq<int>, sym: int)
    requires sym in info
  {
    forall c :: c in declared && c in info && Before(list, c, sym) ==> Slot(info[c].name) != Slot(info[sym].name)
  }

  /** The guard says exactly when the symbol comes before the others of its depth. */
  lemma LeadsExactly(info: Infos, declared: set<int>, list: seq<int>, chain: seq<int>, ctx: int, sym: int)
    requires sym in info && info[sym].ctx == ctx && sym !in declared && ListOk(info, list, ctx) && sym in list
    requires BucketOk(info, declared, chain, Slot(info[sym].name), ctx) && forall c :: c in chain ==> c in list
    requires forall c :: c in declared && c in info && Slot(info[c].name) == Slot(info[sym].name) ==> c in chain
    ensures Leads(info, list, sym, chain, ctx) <==> Guarded(info, declared, list, sym)
  {
    hide Slot, NoDup;
    if Leads(info, list, sym, chain, ctx) {
      forall c | c in declared && c in info && Before(list, c, sym) ensures Slot(info[c].name) != Slot(info[sym].name) {
        BeforeDeeper(info, list, ctx, c, sym);
        BeforeIn(list, c, sym);
        BeforeTotal(list, c, sym);
      }
    }
    if Guarded(info, declared, list, sym) {
      forall y | y in chain && DepthOf(info, y) == ctx ensures Before(list, sym, y) {
        BeforeTotal(list, y, sym);
      }
    }
  }

  /** No symbol is deeper than the current block. */
  lemma NoneDeeper(info: Infos, declared: set<int>, chains: seq<seq<int>>, list: seq<int>, ctx: int, d: int)
    requires d > ctx && forall b :: 0 <= b < |chains| ==> BucketOk(info, declared, chains[b], b, ctx)
    ensures AllOrdered(info, list, chains, d)
  {
    hide Slot, OrderedIn;
    forall b | 0 <= b < |chains| ensures OrderedIn(info, list, chains[b], d) {
      FallingAll(info, chains[b], ctx);
      OrderNone(info, list, chains[b], d);
    }
  }

  /** A new symbol, linked nowhere yet. */
  lemma NewestOrder(info: Infos, info': Infos, declared: set<int>, list: seq<int>, chains: seq<seq<int>>, ctx: int, cell: int)
    requires cell !in info && (forall c :: c in info ==> c in info' && info'[c] == info[c])
    requires forall b :: 0 <= b < |chains| ==> BucketOk(info, declared, chains[b], b, ctx)
    ensures forall d :: AllOrdered(info', [cell] + list, chains, d) <==> AllOrdered(info, list, chains, d)
  {
    hide OrderedIn, BucketOk;
    forall d, b | 0 <= b < |chains| ensures OrderedIn(info', [cell] + list, chains[b], d) <==> OrderedIn(info, list, chains[b], d) {
      BucketCells(info, declared, chains[b], b, ctx);
      OrderHead(info, info', list, cell, chains[b], d);
    }
  }

  /** The newest symbol may always be linked. */
  lemma NewestGuarded(info: Infos, declared: set<int>, list: seq<int>)
    requires list != [] && NoDup(list) && list[0] in info
    ensures Guarded(info, declared, list, list[0])
  {
    forall c ensures !Before(list, c, list[0]) {
      NothingBefore(list, c);
    }
  }

  /** Linking a symbol of the current block. */
  lemma LinkedOrder(info: Infos, declared: set<int>, list: seq<int>, chains: seq<seq<int>>, ctx: int, sym: int)
    requires |chains| == NR_SYM_HASH && sym in info && info[sym].ctx == ctx && sym !in declared && ListOk(info, list, ctx)
    requires (forall c :: c in info ==> c in list) && forall b :: 0 <= b < |chains| ==> BucketOk(info, declared, chains[b], b, ctx)
    requires forall c :: c in declared ==> c in info && 0 <= Slot(info[c].name) < |chains| && c in chains[Slot(info[c].name)]
    ensures 0 <= Slot(info[sym].name) < |chains|
    ensures var b0 := Slot(info[sym].name);
            var after := chains[b0 := [sym] + chains[b0]];
            && (AllOrdered(info, list, after, ctx) <==> AllOrdered(info, list, chains, ctx) && Guarded(info, declared, list, sym))
            && forall d :: d != ctx ==> (AllOrdered(info, list, after, d) <==> AllOrdered(info, list, chains, d))
  {
    hide OrderedIn, Guarded, ListOk, Slot, Leads, BucketOk;
    SlotBounds(info[sym].name);
    var b0 := Slot(info[sym].name);
    var after := chains[b0 := [sym] + chains[b0]];
    BucketCells(info, declared, chains[b0], b0, ctx);
    LeadsExactly(info, declared, list, chains[b0], ctx, sym);
    forall d ensures OrderedIn(info, list, after[b0], d) <==> OrderedIn(info, list, chains[b0], d) && (d == ctx ==> Guarded(info, declared, list, sym)) {
      OrderPushed(info, list, chains[b0], sym, d);
      LeadsOther(info, list, sym, chains[b0], d);
    }
    assert forall b :: 0 <= b < |chains| && b != b0 ==> after[b] == chains[b];
    OneChanged(info, list, chains, after, b0);
  }

  lemma LeadsOther(info: Infos, list: seq<int>, c: int, chain: seq<int>, d: int)
    ensures DepthOf(info, c) != d ==> Leads(info, list, c, chain, d)
  {
  }

  lemma OneChanged(info: Infos, list: seq<int>, chains: seq<seq<int>>, after: seq<seq<int>>, b0: int)
    requires 0 <= b0 < |chains| == |after| && forall b :: 0 <= b < |chains| && b != b0 ==> after[b] == chains[b]
    ensures forall d :: (OrderedIn(info, list, after[b0], d) <==> OrderedIn(info, list, chains[b0], d))
                        ==> (AllOrdered(info, list, after, d) <==> AllOrdered(info, list, chains, d))
    ensures forall d :: !OrderedIn(info, list, after[b0], d) ==> !AllOrdered(info, list, after, d)
  {
    hide OrderedIn;
  }

  /** Freeing the newest symbol. */
  lemma TakenOrder(info: Infos, declared: set<int>, list: seq<int>, chains: seq<seq<int>>, ctx: int)
    requires ListOk(info, list, ctx) && list != [] && list[0] in info && info[list[0]].ctx == ctx
    requires (forall c :: c in info ==> c in list) && forall b :: 0 <= b < |chains| ==> BucketOk(info, declared, chains[b], b, ctx)
    ensures var sym := list[0];
            && (forall d :: d != ctx ==>
                 (AllOrdered(info, list, chains, d) <==> AllOrdered(info - {sym}, list[1..], Removed(chains, sym), d)))
            && (AllOrdered(info, list, chains, ctx) <==>
                  && (forall b :: 0 <= b < |chains| && sym in chains[b] ==> chains[b][0] == sym)
                  && AllOrdered(info - {sym}, list[1..], Removed(chains, sym), ctx))
  {
    hide OrderedIn, Slot, Remove;
    var sym := list[0];
    forall b, d | 0 <= b < |chains|
      ensures OrderedIn(info, list, chains[b], d) <==>
                OrderedIn(info - {sym}, list[1..], Remove(chains[b], sym), d) && (d == ctx && sym in chains[b] ==> chains[b][0] == sym)
    {
      OrderTaken(info, list, chains[b], ctx, d);
    }
  }

  /** No symbol of the depth is left. */
  lemma NoneInOrder(info: Infos, declared: set<int>, chains: seq<seq<int>>, list: seq<int>, ctx: int, d: int)
    requires (forall c :: c in info ==> info[c].ctx < d) && forall b :: 0 <= b < |chains| ==> BucketOk(info, declared, chains[b], b, ctx)
    ensures AllOrdered(info, list, chains, d)
  {
    hide Slot, OrderedIn;
    forall b | 0 <= b < |chains| ensures OrderedIn(info, list, chains[b], d) {
      OrderNone(info, list, chains[b], d);
    }
  }

  lemma AllAbove(info: Infos, list: seq<int>, ctx: int)
    requires ListOk(info, list, ctx) && forall c :: c in info ==> c in list
    ensures forall c :: c in info ==> info[c].ctx <= ctx
  {
    FallingAll(info, list, ctx);
  }

  /** Taking the symbols of a depth off the list, newest first: each is the first of its
      collision list in its turn. */
  ghost predicate AllFirst(info: Infos, list: seq<int>, chains: seq<seq<int>>, ctx: int)
    decreases |list|
  {
    list != [] && DepthOf(info, list[0]) == ctx ==>
      && (forall b :: 0 <= b < |chains| && list[0] in chains[b] ==> chains[b][0] == list[0])
      && AllFirst(info - {list[0]}, list[1..], Removed(chains, list[0]), ctx)
  }

  /** That is so if and only if the symbols of the depth are in order. */
  lemma {:induction false} FirstExactly(info: Infos, declared: set<int>, list: seq<int>, chains: seq<seq<int>>, ctx: int)
    requires ListOk(info, list, ctx) && (forall c :: c in info ==> c in list)
    requires forall b :: 0 <= b < |chains| ==> BucketOk(info, declared, chains[b], b, ctx)
    ensures AllFirst(info, list, chains, ctx) <==> AllOrdered(info, list, chains, ctx)
    decreases |list|
  {
    hide AllOrdered, BucketOk, View, Falling, NoDup, Slot, Outer;
    if list != [] && DepthOf(info, list[0]) == ctx {
      var sym := list[0];
      TakenOrder(info, declared, list, chains, ctx);
      Freed(info, declared, chains, ctx, sym);
      ListRest(info, list, ctx);
      assert list == [sym] + list[1..];
      FirstExactly(info - {sym}, declared - {sym}, list[1..], Removed(chains, sym), ctx);
    } else {
      AllOutside(info, list, ctx);
      NoneInOrder(info, declared, chains, list, ctx, ctx);
    }
  }

  lemma AllOutside(info: Infos, list: seq<int>, ctx: int)
    requires ListOk(info, list, ctx) && (list != [] ==> DepthOf(info, list[0]) != ctx)
    ensures forall c :: c in list ==> c in info && info[c].ctx < ctx
  {
    if list != [] {
      var v := View(info, list);
      assert list[0] in list;
      FallingRaised(v[1..], info[list[0]].ctx, ctx - 1);
      assert Falling(v, ctx - 1);
    }
    FallingAll(info, list, ctx - 1);
  }
}
