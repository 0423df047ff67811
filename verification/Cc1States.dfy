/** The whole symbol table at one moment, and what each operation makes of it. */
module Cc1States {
  import opened Chains
  import opened Cc1Scopes
  import opened Cc1Tables
  import opened Cc1Order

  /** What is in memory, and the sequences that its links stand for. */
  datatype State = State(info: Infos, declared: set<int>, hash: Links, next: Links, htab: seq<int>, head: int, ctx: int,
                         chains: seq<seq<int>>, list: seq<int>)

  ghost predicate ChainOk(st: State, b: int)
    requires 0 <= b < |st.htab| && b < |st.chains|
  {
    Linked(st.hash, st.htab[b], st.chains[b]) && BucketOk(st.info, st.declared, st.chains[b], b, st.ctx)
  }

  ghost predicate ListsOk(st: State) {
    && st.ctx >= GLOBALCTX && Linked(st.next, st.head, st.list) && ListOk(st.info, st.list, st.ctx)
    && forall c :: c in st.info ==> c in st.list
  }

  ghost predicate DeclaredOk(st: State)
    requires |st.chains| == NR_SYM_HASH
  {
    forall c :: c in st.declared ==> c in st.info && c in st.chains[Slot(st.info[c].name)]
  }

  ghost predicate Ok(st: State) {
    && |st.htab| == |st.chains| == NR_SYM_HASH && (forall b :: 0 <= b < NR_SYM_HASH ==> ChainOk(st, b))
    && ListsOk(st) && DeclaredOk(st)
  }

  /** The scopes that the table stands for. */
  ghost function ScopesOf(st: State): (s: Scopes)
    requires Ok(st)
    ensures Good(s) && s.ctx == st.ctx
    ensures forall b :: 0 <= b < NR_SYM_HASH ==> ChainOk(st, b) && s.buckets[b] == View(st.info, st.chains[b])
  {
    OkCells(st);
    Scopes(Views(st.info, st.chains), st.ctx)
  }

  ghost predicate Ordered(st: State, d: int) {
    AllOrdered(st.info, st.list, st.chains, d)
  }

  // What the parts of the invariant say

  lemma OkChain(st: State, b: int)
    requires Ok(st) && 0 <= b < NR_SYM_HASH
    ensures |st.htab| == |st.chains| == NR_SYM_HASH
    ensures Linked(st.hash, st.htab[b], st.chains[b]) && BucketOk(st.info, st.declared, st.chains[b], b, st.ctx)
    ensures forall c :: c in st.chains[b] ==> c in st.info && c in st.declared && c in st.hash && c != NULL
  {
    hide NoDup, Falling, Slot;
    assert ChainOk(st, b);
    CellsLinked(st.hash, st.htab[b], st.chains[b]);
  }

  lemma OkBuckets(st: State)
    requires Ok(st)
    ensures |st.htab| == |st.chains| == NR_SYM_HASH
    ensures forall b :: 0 <= b < NR_SYM_HASH ==> BucketOk(st.info, st.declared, st.chains[b], b, st.ctx)
  {
    hide BucketOk;
    forall b | 0 <= b < NR_SYM_HASH ensures BucketOk(st.info, st.declared, st.chains[b], b, st.ctx) {
      OkChain(st, b);
    }
  }

  lemma OkCells(st: State)
    requires Ok(st)
    ensures |st.chains| == NR_SYM_HASH && forall b :: 0 <= b < NR_SYM_HASH ==> forall c :: c in st.chains[b] ==> c in st.info
    ensures forall b :: 0 <= b < NR_SYM_HASH ==> Falling(View(st.info, st.chains[b]), st.ctx)
  {
    hide Falling, View, Slot, NoDup;
    forall b | 0 <= b < NR_SYM_HASH
      ensures (forall c :: c in st.chains[b] ==> c in st.info) && Falling(View(st.info, st.chains[b]), st.ctx)
    {
      OkChain(st, b);
    }
  }

  lemma OkLists(st: State)
    requires Ok(st)
    ensures st.ctx >= GLOBALCTX && Linked(st.next, st.head, st.list) && ListOk(st.info, st.list, st.ctx)
    ensures (forall c :: c in st.info <==> c in st.list) && NoDup(st.list)
    ensures st.head == NULL <==> st.list == []
    ensures st.head != NULL ==> st.list[0] == st.head && st.head in st.info && st.head in st.next
  {
    hide Slot, NoDup, Falling;
    ListNoDup(st.info, st.list, st.ctx);
  }

  lemma ListNoDup(info: Infos, list: seq<int>, ctx: int)
    requires ListOk(info, list, ctx)
    ensures NoDup(list)
  {
  }

  lemma OkDeclared(st: State, sym: int)
    requires Ok(st) && sym in st.declared
    ensures sym in st.info && 0 <= Slot(st.info[sym].name) < NR_SYM_HASH == |st.chains| && sym in st.chains[Slot(st.info[sym].name)]
  {
    hide Slot;
    SlotBounds(st.info[sym].name);
  }

  lemma OkDeclaredKeys(st: State)
    requires Ok(st)
    ensures st.declared <= st.info.Keys
  {
    hide ChainOk, ListsOk, Slot;
    forall c | c in st.declared ensures c in st.info {
      OkDeclared(st, c);
    }
  }

  // Opening a block

  lemma Pushed(st: State)
    requires Ok(st)
    ensures var st' := st.(ctx := st.ctx + 1); Ok(st') && ScopesOf(st') == Step(ScopesOf(st), Push) && Ordered(st', st.ctx + 1)
  {
    hide View, Linked, NoDup, Falling, Slot, AllOrdered;
    var st' := st.(ctx := st.ctx + 1);
    OkBuckets(st);
    OkLists(st);
    forall b | 0 <= b < NR_SYM_HASH ensures ChainOk(st', b) {
      OkChain(st, b);
      FallingRaised(View(st.info, st.chains[b]), st.ctx, st.ctx + 1);
    }
    FallingRaised(View(st.info, st.list), st.ctx, st.ctx + 1);
    NoneDeeper(st.info, st.declared, st.chains, st.list, st.ctx, st.ctx + 1);
  }

  // A new symbol

  function Newer(st: State, cell: int, i: Info): State {
    st.(info := st.info[cell := i], next := st.next[cell := st.head], head := cell, list := [cell] + st.list)
  }

  lemma NewerOk(st: State, cell: int, i: Info)
    requires Ok(st) && cell != NULL && cell !in st.info && i.ctx == st.ctx
    ensures Ok(Newer(st, cell, i)) && ScopesOf(Newer(st, cell, i)) == ScopesOf(st)
    ensures forall d :: Ordered(Newer(st, cell, i), d) <==> Ordered(st, d)
  {
    hide Linked, NoDup, Falling, Slot, BucketOk, ListOk, View, AllOrdered;
    var st' := Newer(st, cell, i);
    OkBuckets(st);
    OkLists(st);
    LinkedPush(st.next, st.head, st.list, cell);
    forall b | 0 <= b < NR_SYM_HASH ensures ChainOk(st', b) {
      OkChain(st, b);
      BucketFrame(st.info, st'.info, st.declared, st.declared, st.chains[b], b, st.ctx);
    }
    ListFrame(st.info, st'.info, st.list, st.ctx);
    ListPush(st'.info, st.list, st.ctx, cell);
    AllViewsSame(st.info, st'.info, st.declared, st.declared, st.chains, st.ctx);
    NewestOrder(st.info, st'.info, st.declared, st.list, st.chains, st.ctx, cell);
  }

  // Linking a symbol

  function Prepended(st: State, sym: int): State
    requires |st.htab| == |st.chains| == NR_SYM_HASH && sym in st.info
  {
    var b0 := Slot(st.info[sym].name);
    st.(hash := st.hash[sym := st.htab[b0]], htab := st.htab[b0 := sym], declared := st.declared + {sym},
        chains := st.chains[b0 := [sym] + st.chains[b0]])
  }

  lemma PrependedOk(st: State, sym: int)
    requires Ok(st) && sym != NULL && sym in st.info && sym !in st.declared && st.info[sym].ctx == st.ctx
    ensures Ok(Prepended(st, sym))
    ensures ScopesOf(Prepended(st, sym)) == Step(ScopesOf(st), Add(Entry(sym, st.info[sym])))
    ensures Ordered(Prepended(st, sym), st.ctx) <==> Ordered(st, st.ctx) && Guarded(st.info, st.declared, st.list, sym)
    ensures forall d :: d != st.ctx ==> (Ordered(Prepended(st, sym), d) <==> Ordered(st, d))
  {
    hide Linked, NoDup, Falling, Slot, ListOk, View, BucketOk, Step, Good, AllOrdered, Guarded, ChainOk, DeclaredOk;
    var st', b0 := Prepended(st, sym), Slot(st.info[sym].name);
    SlotBounds(st.info[sym].name);
    OkBuckets(st);
    NotInBuckets(st.info, st.declared, st.chains, st.ctx, sym);
    forall b | 0 <= b < NR_SYM_HASH
      ensures ChainOk(st', b) && (forall c :: c in st.chains[b] ==> c in st.info) && (forall c :: c in st'.chains[b] ==> c in st.info)
      ensures View(st.info, st'.chains[b]) == if b == b0 then [Entry(sym, st.info[sym])] + View(st.info, st.chains[b]) else View(st.info, st.chains[b])
    {
      PrependedChain(st, sym, b);
    }
    PrependedDeclared(st, sym);
    assert Ok(st');
    Added(ScopesOf(st), ScopesOf(st'), Entry(sym, st.info[sym]));
    OrderPrepended(st, sym);
  }

  lemma PrependedChain(st: State, sym: int, b: int)
    requires Ok(st) && sym != NULL && sym in st.info && sym !in st.declared && st.info[sym].ctx == st.ctx && 0 <= b < NR_SYM_HASH
    requires sym !in st.chains[b]
    ensures var st', b0 := Prepended(st, sym), Slot(st.info[sym].name);
            && ChainOk(st', b) && (forall c :: c in st.chains[b] ==> c in st.info) && (forall c :: c in st'.chains[b] ==> c in st.info)
            && View(st.info, st'.chains[b]) == if b == b0 then [Entry(sym, st.info[sym])] + View(st.info, st.chains[b]) else View(st.info, st.chains[b])
  {
    hide Linked, NoDup, Falling, Slot, View, BucketOk, ListsOk, DeclaredOk;
    var st', b0 := Prepended(st, sym), Slot(st.info[sym].name);
    OkChain(st, b);
    BucketFrame(st.info, st.info, st.declared, st'.declared, st.chains[b], b, st.ctx);
    if b == b0 {
      LinkedPush(st.hash, st.htab[b], st.chains[b], sym);
      BucketPush(st.info, st'.declared, st.chains[b], b, st.ctx, sym);
    } else {
      LinkedOther(st.hash, st'.hash, st.htab[b], st.chains[b], sym);
    }
  }

  lemma PrependedDeclared(st: State, sym: int)
    requires Ok(st) && sym in st.info
    ensures DeclaredOk(Prepended(st, sym))
  {
    hide ChainOk, ListsOk, Slot;
    var st', b0 := Prepended(st, sym), Slot(st.info[sym].name);
    forall c | c in st'.declared ensures c in st'.info && c in st'.chains[Slot(st'.info[c].name)] {
      SlotBounds(st.info[sym].name);
      if c != sym {
        OkDeclared(st, c);
        assert st'.chains[b0] == [sym] + st.chains[b0];
      }
    }
  }

  lemma OrderPrepended(st: State, sym: int)
    requires Ok(st) && sym in st.info && sym !in st.declared && st.info[sym].ctx == st.ctx
    ensures Ordered(Prepended(st, sym), st.ctx) <==> Ordered(st, st.ctx) && Guarded(st.info, st.declared, st.list, sym)
    ensures forall d :: d != st.ctx ==> (Ordered(Prepended(st, sym), d) <==> Ordered(st, d))
  {
    hide ListOk, BucketOk, Linked, Slot, Guarded, AllOrdered;
    OkBuckets(st);
    OkLists(st);
    forall c | c in st.declared ensures c in st.info && 0 <= Slot(st.info[c].name) < NR_SYM_HASH && c in st.chains[Slot(st.info[c].name)] {
      OkDeclared(st, c);
    }
    LinkedOrder(st.info, st.declared, st.list, st.chains, st.ctx, sym);
  }

  // Unlinking a symbol

  /** `prev` is the symbol before `sym` in its collision list, or NULL. */
  function Unlinked(st: State, sym: int, prev: int): State
    requires |st.htab| == |st.chains| == NR_SYM_HASH && sym in st.info && sym in st.hash
  {
    var b0 := Slot(st.info[sym].name);
    var st' := st.(declared := st.declared - {sym}, chains := Removed(st.chains, sym));
    if prev == NULL then st'.(htab := st.htab[b0 := st.hash[sym]]) else st'.(hash := st.hash[prev := st.hash[sym]])
  }

  lemma UnlinkedOk(st: State, sym: int, prev: int, i: int)
    requires Ok(st) && sym in st.declared && sym in st.info && sym in st.hash
    requires var chain := st.chains[Slot(st.info[sym].name)];
             && 0 <= i < |chain| && chain[i] == sym && prev == (if i == 0 then NULL else chain[i - 1]) && (i > 0 ==> prev != NULL)
    ensures Ok(Unlinked(st, sym, prev))
    ensures i == 0 <==> forall b :: 0 <= b < NR_SYM_HASH && sym in st.chains[b] ==> st.chains[b][0] == sym
  {
    hide Linked, NoDup, Falling, Slot, ListOk, View, BucketOk, Remove;
    var st', b0 := Unlinked(st, sym, prev), Slot(st.info[sym].name);
    SlotBounds(st.info[sym].name);
    OkBuckets(st);
    OkChain(st, b0);
    OwnBucket(st.info, st.declared, st.chains, st.ctx, sym);
    BucketNoDup(st.info, st.declared, st.chains[b0], b0, st.ctx);
    FirstOnly(st.chains[b0], sym, i);
    forall b | 0 <= b < NR_SYM_HASH ensures ChainOk(st', b) {
      UnlinkedChain(st, sym, prev, i, b);
    }
    forall c | c in st'.declared ensures c in st'.info && c in st'.chains[Slot(st'.info[c].name)] {
      OkDeclared(st, c);
      BucketNoDup(st.info, st.declared, st.chains[Slot(st.info[c].name)], Slot(st.info[c].name), st.ctx);
      RemoveKeeps(st.chains[Slot(st.info[c].name)], sym, c);
    }
  }

  lemma UnlinkedChain(st: State, sym: int, prev: int, i: int, b: int)
    requires Ok(st) && sym in st.declared && sym in st.info && sym in st.hash && 0 <= b < NR_SYM_HASH
    requires var chain := st.chains[Slot(st.info[sym].name)];
             && 0 <= i < |chain| && chain[i] == sym && prev == (if i == 0 then NULL else chain[i - 1]) && (i > 0 ==> prev != NULL)
    ensures ChainOk(Unlinked(st, sym, prev), b)
  {
    hide NoDup, Falling, Slot, ListOk, View, BucketOk, ListsOk, DeclaredOk;
    var b0 := Slot(st.info[sym].name);
    var chain := st.chains[b0];
    SlotBounds(st.info[sym].name);
    OkChain(st, b);
    OkChain(st, b0);
    BucketNoDup(st.info, st.declared, chain, b0, st.ctx);
    BucketWithout(st.info, st.declared, st.chains[b], b, st.ctx, sym);
    if b != b0 {
      OtherBucket(st.info, st.declared, st.chains[b], b, st.ctx, sym);
      RemoveAbsent(st.chains[b], sym);
      if prev != NULL {
        BucketCells(st.info, st.declared, chain, b0, st.ctx);
        OtherBucket(st.info, st.declared, st.chains[b], b, st.ctx, prev);
        LinkedOther(st.hash, st.hash[prev := st.hash[sym]], st.htab[b], st.chains[b], prev);
      }
    } else if prev == NULL {
      RemoveFirst(chain, sym);
    } else {
      UnlinkedAfter(st.hash, st.htab[b0], chain, i - 1);
    }
  }

  /** A symbol that is not declared is in no collision list. */
  lemma Absent(st: State, sym: int)
    requires Ok(st) && sym !in st.declared
    ensures Removed(st.chains, sym) == st.chains && st.declared - {sym} == st.declared
    ensures forall b :: 0 <= b < NR_SYM_HASH ==> sym !in st.chains[b]
  {
    hide BucketOk, Remove;
    OkBuckets(st);
    AbsentBuckets(st.info, st.declared, st.chains, st.ctx, sym);
    NotInBuckets(st.info, st.declared, st.chains, st.ctx, sym);
  }

  // Freeing the newest symbol

  /** Once the newest symbol is in no collision list, it leaves the list of all symbols. */
  function Dropped(st: State): State
    requires st.head in st.next && st.list != []
  {
    st.(info := st.info - {st.head}, head := st.next[st.head], list := st.list[1..])
  }

  /** `st` before unlinking the newest symbol, `st1` after it. */
  lemma DroppedOk(st: State, st1: State)
    requires Ok(st) && Ok(st1) && st.head != NULL && st.head in st.next && st.head in st.info && st.info[st.head].ctx == st.ctx
    requires st1 == st.(declared := st.declared - {st.head}, chains := Removed(st.chains, st.head), hash := st1.hash, htab := st1.htab)
    ensures st.list != [] && Ok(Dropped(st1))
    ensures forall b :: 0 <= b < NR_SYM_HASH ==>
              Outer(ScopesOf(Dropped(st1)).buckets[b], st.ctx) == Outer(ScopesOf(st).buckets[b], st.ctx)
    ensures Ordered(st, st.ctx) <==>
              && (forall b :: 0 <= b < NR_SYM_HASH && st.head in st.chains[b] ==> st.chains[b][0] == st.head)
              && Ordered(Dropped(st1), st.ctx)
    ensures forall d :: d != st.ctx ==> (Ordered(Dropped(st1), d) <==> Ordered(st, d))
  {
    hide NoDup, Falling, Slot, View, BucketOk, Outer, ListOk, Remove, Good, AllOrdered, Linked, DeclaredOk, ChainOk;
    var sym, st2 := st.head, Dropped(st1);
    OkBuckets(st);
    OkLists(st);
    OkLists(st1);
    HeadListed(st.next, sym, st.list);
    TakenOrder(st.info, st.declared, st.list, st.chains, st.ctx);
    Freed(st.info, st.declared, st.chains, st.ctx, sym);
    DroppedLists(st1);
    forall b | 0 <= b < NR_SYM_HASH ensures ChainOk(st2, b) {
      OkChain(st1, b);
      DroppedChain(st1, b);
    }
    DroppedDeclared(st1);
  }

  lemma DroppedChain(st1: State, b: int)
    requires Ok(st1) && 0 <= b < NR_SYM_HASH && st1.head in st1.next && st1.list != []
    requires BucketOk(st1.info - {st1.head}, st1.declared, st1.chains[b], b, st1.ctx)
    ensures ChainOk(Dropped(st1), b)
  {
    hide BucketOk, Linked;
    OkChain(st1, b);
  }

  lemma DroppedDeclared(st1: State)
    requires Ok(st1) && st1.head in st1.next && st1.list != [] && st1.head !in st1.declared
    ensures DeclaredOk(Dropped(st1))
  {
    hide Slot, ListsOk, ChainOk;
  }

  lemma DroppedLists(st1: State)
    requires Ok(st1) && st1.head != NULL && st1.head in st1.next && st1.list != []
    ensures ListsOk(Dropped(st1))
  {
    hide NoDup, Falling, Slot, View, BucketOk, ListOk;
    OkLists(st1);
    ListRest(st1.info, st1.list, st1.ctx);
    NoDupTail(st1.list);
    assert st1.list == [st1.list[0]] + st1.list[1..];
  }

  // Closing a block

  lemma PoppedOk(st: State)
    requires Ok(st) && st.ctx > GLOBALCTX && (st.head == NULL || (st.head in st.info && st.info[st.head].ctx != st.ctx))
    ensures Ok(st.(ctx := st.ctx - 1)) && (forall c :: c in st.info ==> st.info[c].ctx < st.ctx) && Ordered(st, st.ctx)
    ensures forall b :: 0 <= b < NR_SYM_HASH ==> Outer(ScopesOf(st).buckets[b], st.ctx) == ScopesOf(st).buckets[b]
    ensures ScopesOf(st.(ctx := st.ctx - 1)).buckets == ScopesOf(st).buckets
  {
    hide NoDup, Slot, View, BucketOk, Outer, Linked, ListOk, Falling, AllOrdered, Good;
    var st' := st.(ctx := st.ctx - 1);
    OkBuckets(st);
    OkLists(st);
    NoneLeft(st.info, st.next, st.head, st.list, st.ctx);
    assert forall c :: c in st.info ==> st.info[c].ctx < st.ctx;
    NoneInOrder(st.info, st.declared, st.chains, st.list, st.ctx, st.ctx);
    forall b | 0 <= b < NR_SYM_HASH
      ensures ChainOk(st', b) && Outer(ScopesOf(st).buckets[b], st.ctx) == ScopesOf(st).buckets[b]
    {
      OkChain(st, b);
      BucketOutside(st.info, st.declared, st.chains[b], b, st.ctx);
    }
  }

  /** An empty table. */
  lemma EmptyOk(st: State)
    requires st.info == map[] && st.declared == {} && st.head == NULL && st.ctx == GLOBALCTX && st.list == []
    requires |st.htab| == |st.chains| == NR_SYM_HASH && forall b :: 0 <= b < NR_SYM_HASH ==> st.htab[b] == NULL && st.chains[b] == []
    ensures Ok(st)
  {
    assert forall b :: 0 <= b < NR_SYM_HASH ==> ChainOk(st, b);
  }
}
