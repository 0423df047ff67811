/** The front end's symbol table in memory: collision lists and the list of all symbols,
    newest first, both linked through the symbols. */
module Cc1Symbols {
  import opened Chains
  import opened Cc1Scopes
  import opened Cc1Tables
  import opened Cc1Order
  import opened Cc1States
  import opened Cc1Lookups
  import opened Cc1Requests
  import opened Wrappers

  /** The hash of a name, one character after the other. */
  method GenHash(name: string) returns (h: bv32)
    ensures h == Hash(name, 5381)
  {
    hide Hash;
    h := 5381;
    assert name[0..] == name;
    for i := 0 to |name|
      invariant Hash(name[i..], h) == Hash(name, 5381)
    {
      HashNext(name, i, h);
      h := (h * 33) ^ ((name[i] as int % 256) as bv32);
    }
    HashDone(name[|name|..], h);
  }

  lemma HashNext(name: string, i: int, h: bv32)
    requires 0 <= i < |name|
    ensures Hash(name[i..], h) == Hash(name[i + 1..], (h * 33) ^ ((name[i] as int % 256) as bv32))
  {
    assert name[i..][1..] == name[i + 1..];
  }

  lemma HashDone(name: string, h: bv32)
    requires name == ""
    ensures Hash(name, h) == h
  {
  }

  /** The collision list of a name. */
  method HashIndex(name: string) returns (b: int)
    ensures b == Slot(name)
  {
    var h := GenHash(name);
    return (h as int) % 64;
  }

  class SymbolTable {
    var info: Infos
    var declared: set<int>
    var hash: Links
    var next: Links
    const htab: array<int>
    var head: int
    var curctx: int
    ghost var chains: seq<seq<int>>
    ghost var list: seq<int>

    constructor ()
      ensures Valid() && fresh(htab) && info == map[] && curctx == 0
    {
      info, declared, hash, next := map[], {}, map[], map[];
      htab := new int[64](_ => NULL);
      head, curctx := NULL, GLOBALCTX;
      chains, list := seq(64, _ => []), [];
      new;
      EmptyOk(Now());
    }

    /** All of the table at this moment. */
    ghost function Now(): State
      reads this, htab
    {
      State(info, declared, hash, next, htab[..], head, curctx, chains, list)
    }

    ghost predicate Valid()
      reads this, htab
    {
      htab.Length == NR_SYM_HASH && Ok(Now())
    }

    /** The scopes that the table stands for. */
    ghost function Abstract(): (s: Scopes)
      requires Valid()
      reads this, htab
      ensures Good(s) && s.ctx == curctx && |s.buckets| == NR_SYM_HASH
    {
      ScopesOf(Now())
    }

    /** The symbols of depth `d` come in the order in which closing their block frees them. */
    ghost predicate InOrder(d: int)
      reads this
    {
      AllOrdered(info, list, chains, d)
    }

    /** So do those of all open blocks from a depth on. */
    ghost predicate OpenInOrder(floor: int)
      reads this
    {
      forall d :: floor <= d <= curctx ==> InOrder(d)
    }

    /** What the order of later requests depends on. */
    ghost function Values(): Table
      reads this
    {
      Table(info, declared, list, curctx)
    }

    method PushCtx() returns (ok: bool)
      requires Valid()
      modifies this`curctx
      ensures Valid() && Abstract() == Step(old(Abstract()), Push) && curctx == old(curctx) + 1
      ensures ok <==> curctx != 128
      ensures InOrder(curctx)
    {
      hide Ok, ScopesOf, Step, Good, AllOrdered;
      Pushed(Now());
      curctx := curctx + 1;
      ok := curctx != NR_BLOCK + 1;
    }

    /** The first symbol of a collision list that a lookup stops at. */
    method Search(ns: int, name: string) returns (sym: int)
      requires Valid()
      ensures sym == Found(Abstract(), ns, name)
      ensures Answers(info, declared, ns, name, sym)
    {
      hide Ok, NoDup, Falling, Slot, BucketOk, Answers;
      FoundAnswers(Now(), ns, name);
      ghost var b := Slot(name);
      SlotBounds(name);
      OkChain(Now(), b);
      ghost var chain, i := chains[b], 0;
      var at := HashIndex(name);
      sym := htab[at];
      assert chain[0..] == chain;
      while sym != NULL
        invariant 0 <= i <= |chain| && Linked(hash, sym, chain[i..])
        invariant forall c :: c in chain[i..] ==> c in info
        invariant First(View(info, chain[i..]), ns, name) == First(View(info, chain), ns, name)
        decreases |chain| - i
      {
        assert sym == chain[i] && chain[i..][1..] == chain[i + 1..];
        if Matches(info[sym], ns, name) {
          return;
        }
        sym := hash[sym];
        i := i + 1;
      }
    }

    /** A new symbol of the current block, at the head of the list of all symbols. */
    method NewSym(ns: int, name: string, isTypedef: bool, cell: int) returns (sym: int)
      requires Valid() && cell != NULL && cell !in info && ns != 3 && ns != 4
      modifies this`info, this`next, this`head, this`list
      ensures Valid() && Abstract() == old(Abstract()) && sym == cell
      ensures Values() == Created(old(Values()), ns, name, isTypedef, cell)
      ensures forall d :: InOrder(d) <==> old(InOrder(d))
    {
      hide Ok, ScopesOf, Good, AllOrdered;
      ghost var st, i := Now(), Info(name, ns, curctx, isTypedef);
      NewerOk(st, cell, i);
      info := info[cell := Info(name, ns, curctx, isTypedef)];
      next := next[cell := head];
      head := cell;
      list := [cell] + list;
      assert Now() == Newer(st, cell, i);
      assert forall d :: InOrder(d) <==> Ordered(Now(), d);
      return cell;
    }

    /** The symbol that a lookup stops at; if there is none, a new one on request. */
    method Lookup(ns: int, name: string, alloc: bool, cell: int) returns (sym: int)
      requires Valid() && cell != NULL && cell !in info && (alloc ==> ns != 3 && ns != 4)
      modifies this`info, this`next, this`head, this`list
      ensures Valid() && Abstract() == old(Abstract())
      ensures var found := Found(old(Abstract()), ns, name);
              if found != NULL || !alloc then sym == found && Values() == old(Values())
              else sym == cell && Values() == Created(old(Values()), ns, name, false, cell)
      ensures !(alloc && sym == cell) ==> Answers(old(info), old(declared), ns, name, sym)
      ensures alloc && sym == cell ==> Answers(old(info), old(declared), ns, name, NULL)
    {
      hide Ok, ScopesOf, Good, AllOrdered, Found, Answers;
      sym := Search(ns, name);
      AnswerKnown(info, declared, ns, name, sym);
      if sym == NULL && alloc {
        sym := NewSym(ns, name, false, cell);
      }
    }

    /** Links a symbol of the current block at the front of its collision list. */
    method LinkHash(sym: int)
      requires Valid() && sym != NULL && sym in info && sym !in declared && info[sym].ctx == curctx
      modifies this`hash, this`declared, this`chains, htab
      ensures Valid() && Abstract() == Step(old(Abstract()), Add(Entry(sym, info[sym])))
      ensures declared == old(declared) + {sym}
      ensures InOrder(curctx) <==> old(InOrder(curctx)) && Guarded(info, old(declared), list, sym)
      ensures forall d :: d != curctx ==> (InOrder(d) <==> old(InOrder(d)))
    {
      hide Ok, ScopesOf, Good, AllOrdered, Slot, Step, Guarded;
      ghost var st := Now();
      SlotBounds(info[sym].name);
      OkChain(st, Slot(info[sym].name));
      PrependedOk(st, sym);
      var at := HashIndex(info[sym].name);
      hash := hash[sym := htab[at]];
      chains := chains[at := [sym] + chains[at]];
      htab[at] := sym;
      declared := declared + {sym};
      assert Now() == Prepended(st, sym);
      assert forall d :: InOrder(d) <==> Ordered(Now(), d);
    }

    /** Declares a symbol in the current block: the symbol itself if it belongs to the block
        and is not declared yet, a new one for a symbol of an outer block; none if the block
        has one of that name space already. */
    method Install(ns: int, sym: int, cell: int) returns (r: int)
      requires Valid() && sym != NULL && sym in info && cell != NULL && cell !in info && ns != 3 && ns != 4
      modifies this, htab
      ensures Valid() && curctx == old(curctx)
      ensures var i := old(info)[sym];
              if sym !in old(declared) && i.ctx == curctx then
                r == sym && Abstract() == Step(old(Abstract()), Add(Entry(sym, i)))
              else if i.ctx == curctx && ns == i.ns then
                r == NULL && Abstract() == old(Abstract())
              else
                r == cell && Abstract() == Step(old(Abstract()), Add(Entry(cell, Info(i.name, ns, curctx, false))))
      ensures Values() == Declared(old(Values()), ns, sym, cell)
      ensures r != NULL ==> r in info && r in declared
      ensures forall space, name :: Found(Abstract(), space, name) ==
                if r != NULL && Wanted(info[r], space, name) then r else Found(old(Abstract()), space, name)
      ensures InOrder(curctx) <==> old(InOrder(curctx)) && KeepsOrder(old(Values()), sym)
      ensures forall d :: d != curctx ==> (InOrder(d) <==> old(InOrder(d)))
    {
      hide Ok, ScopesOf, Good, AllOrdered, Step, Guarded, Found, Wanted;
      r := sym;
      if sym in declared || info[sym].ctx != curctx {
        if info[sym].ctx == curctx && ns == info[sym].ns {
          return NULL;
        }
        OkDeclaredKeys(Now());
        r := NewSym(ns, info[sym].name, false, cell);
        OkLists(Now());
        NewestGuarded(info, declared, list);
      }
      ghost var s := Abstract();
      LinkHash(r);
      forall space, name
        ensures Found(Abstract(), space, name) == if Wanted(info[r], space, name) then r else Found(s, space, name)
      {
        AddedFound(s, Entry(r, info[r]), space, name);
      }
    }

    /** The symbol before one in its collision list, or NULL for the head. */
    method Predecessor(sym: int) returns (prev: int, ghost i: int)
      requires Valid() && sym in declared && sym in info
      ensures 0 <= Slot(info[sym].name) < |chains|
      ensures var chain := chains[Slot(info[sym].name)];
              0 <= i < |chain| && chain[i] == sym && prev == (if i == 0 then NULL else chain[i - 1]) && (i > 0 ==> prev != NULL)
    {
      hide Ok, NoDup, Falling, Slot, BucketOk, View;
      SlotBounds(info[sym].name);
      OkDeclared(Now(), sym);
      OkChain(Now(), Slot(info[sym].name));
      ghost var chain := chains[Slot(info[sym].name)];
      i := 0;
      var at := HashIndex(info[sym].name);
      var p := htab[at];
      prev := NULL;
      assert chain[0..] == chain;
      while p != sym
        invariant 0 <= i < |chain| && Linked(hash, p, chain[i..]) && sym in chain[i..]
        invariant prev == (if i == 0 then NULL else chain[i - 1]) && (i > 0 ==> prev != NULL)
        decreases |chain| - i
      {
        assert p == chain[i] && chain[i..][1..] == chain[i + 1..];
        prev, p := p, hash[p];
        i := i + 1;
      }
    }

    /** Takes a symbol out of its collision list, wherever it is there; tells whether it was
        the first, as the assertion wants it. */
    method UnlinkHash(sym: int) returns (first: bool)
      requires Valid() && sym in info
      modifies this`hash, this`declared, this`chains, htab
      ensures Valid() && declared == old(declared) - {sym} && chains == Removed(old(chains), sym)
      ensures first <==> forall b :: 0 <= b < NR_SYM_HASH && sym in old(chains)[b] ==> old(chains)[b][0] == sym
    {
      hide Ok, Slot, Remove;
      ghost var st := Now();
      OkBuckets(st);
      if sym !in declared {
        Absent(st, sym);
        return true;
      }
      var prev;
      ghost var i;
      prev, i := Predecessor(sym);
      first := prev == NULL;
      SlotBounds(info[sym].name);
      OkChain(st, Slot(info[sym].name));
      UnlinkedOk(st, sym, prev, i);
      if prev == NULL {
        var at := HashIndex(info[sym].name);
        htab[at] := hash[sym];
      } else {
        hash := hash[prev := hash[sym]];
      }
      declared := declared - {sym};
      chains := Removed(chains, sym);
      assert Now() == Unlinked(st, sym, prev);
    }

    /** Unlinks and frees the newest symbol. */
    method KillSym() returns (first: bool)
      requires Valid() && head != NULL && head in info && info[head].ctx == curctx > GLOBALCTX
      modifies this`hash, this`declared, this`chains, this`info, this`head, this`list, htab
      ensures Valid() && list == old(list)[1..] && info == old(info) - {old(head)} && declared == old(declared) - {old(head)}
      ensures forall b :: 0 <= b < NR_SYM_HASH ==> Outer(Abstract().buckets[b], curctx) == Outer(old(Abstract()).buckets[b], curctx)
      ensures old(InOrder(curctx)) <==> first && InOrder(curctx)
      ensures forall d :: d != curctx ==> (InOrder(d) <==> old(InOrder(d)))
    {
      hide Ok, ScopesOf, Outer, Good, AllOrdered, Remove;
      var sym := head;
      ghost var st := Now();
      OkLists(st);
      first := UnlinkHash(sym);
      ghost var st1 := Now();
      DroppedOk(st, st1);
      info := info - {sym};
      head := next[sym];
      list := list[1..];
      assert Now() == Dropped(st1);
      assert forall d :: InOrder(d) <==> Ordered(Now(), d);
      assert forall d :: old(InOrder(d)) <==> Ordered(st, d);
    }

    /** Closes a block: frees its symbols, the newest first.  All of them are the first of
        their collision lists when their turn comes if and only if they are in order. */
    method PopCtx() returns (heads: bool)
      requires Valid() && curctx > GLOBALCTX
      modifies this, htab
      ensures Valid() && Abstract() == Step(old(Abstract()), Pop)
      ensures Values() == Popped(old(Values())) && curctx == old(curctx) - 1
      ensures heads <==> old(AllFirst(info, list, chains, curctx))
      ensures heads <==> old(InOrder(curctx))
      ensures forall d :: d != old(curctx) ==> (InOrder(d) <==> old(InOrder(d)))
    {
      hide Ok, ScopesOf, Outer, Good, AllOrdered, AllFirst, Step, Popping, Popped;
      ghost var ctx := curctx;
      OkLists(Now());
      OkDeclaredKeys(Now());
      OkBuckets(Now());
      FirstExactly(info, declared, list, chains, curctx);
      PoppingStart(Values());
      heads := true;
      while head != NULL && info[head].ctx == curctx
        invariant Valid() && curctx == ctx && (head != NULL ==> head in info)
        invariant forall b :: 0 <= b < NR_SYM_HASH ==> Outer(Abstract().buckets[b], ctx) == Outer(old(Abstract()).buckets[b], ctx)
        invariant Popping(old(Values()), Values())
        invariant old(InOrder(curctx)) <==> heads && InOrder(curctx)
        invariant forall d :: d != ctx ==> (InOrder(d) <==> old(InOrder(d)))
        decreases |list|
      {
        OkLists(Now());
        PoppingStep(old(Values()), Values());
        var first := KillSym();
        heads := heads && first;
        OkLists(Now());
      }
      ghost var st := Now();
      PoppedOk(st);
      OkLists(st);
      PoppingDone(old(Values()), Values());
      curctx := curctx - 1;
      Closed(old(Abstract()), Abstract());
    }

    /** A whole block: opens it, serves requests, nested blocks included, and closes it.  If
        and only if the requests are balanced it gets to the end; every lookup then gives what
        it gave before, the symbols are those from before, and the assertions on the way held
        if and only if every declaration kept the order. */
    method Block(requests: seq<Request>) returns (ok: bool, heads: bool)
      requires Valid()
      modifies this, htab
      ensures Valid()
      ensures ok <==> old(curctx) != NR_BLOCK && Balanced(old(Values()).(ctx := old(curctx) + 1), requests, old(curctx) + 1)
      ensures ok ==> Abstract() == old(Abstract()) && forall ns, name :: Found(Abstract(), ns, name) == Found(old(Abstract()), ns, name)
      ensures ok ==> info == old(info) && declared == old(declared)
      ensures ok ==> (heads <==> AllCareful(old(Values()).(ctx := old(curctx) + 1), requests))
    {
      hide Ok, ScopesOf, Found, Step, Good, Inside, Run, AllOrdered, Spares, After, AllCareful, Careful, Balanced, Popped;
      ghost var s0, v0 := Abstract(), Values();
      var floor := curctx + 1;
      OkLists(Now());
      OkDeclaredKeys(Now());
      SparesStart(info, declared, list, curctx);
      var fits := PushCtx();
      heads := true;
      if !fits {
        return false, true;
      }
      ghost var s1, v1, acts, careful := Abstract(), Values(), [], true;
      NothingRun(s1, floor);
      for i := 0 to |requests|
        invariant Valid() && curctx >= floor
        invariant Inside(s1, acts, floor) && Run(s1, acts) == Abstract()
        invariant Balanced(v1, requests, floor) <==> Balanced(Values(), requests[i..], floor)
        invariant AllCareful(v1, requests) <==> careful && AllCareful(Values(), requests[i..])
        invariant Spares(v0, Values(), floor)
        invariant careful <==> heads && OpenInOrder(floor)
      {
        RequestNext(Values(), requests, i, floor);
        if requests[i].Close? && curctx == floor {
          return false, heads;
        }
        ghost var before, v := Abstract(), Values();
        ghost var a;
        var first;
        ok, first, a := Serve(requests[i], floor);
        if !ok {
          return;
        }
        heads := heads && first;
        SparesStep(v0, v, requests[i], floor);
        careful := careful && Careful(v, requests[i]);
        if a.Some? {
          RunAppend(s1, acts, a.value, floor);
          acts := acts + [a.value];
        }
        ClosedAbove(before, Abstract(), a, floor);
      }
      RequestsDone(Values(), requests, floor);
      if curctx != floor {
        return false, heads;
      }
      BlockRestores(s0, acts);
      OkLists(Now());
      AllAbove(info, list, curctx);
      SparesClosed(v0, Values());
      var first := PopCtx();
      return true, heads && first;
    }

    /** Serves one request; tells whether the symbols it freed were the first of their
        collision lists, and which action of the scopes it was, if any. */
    method Serve(r: Request, ghost floor: int) returns (ok: bool, first: bool, ghost a: Option<Action>)
      requires Valid() && floor <= curctx
      modifies this, htab
      ensures Valid()
      ensures ok <==> After(old(Values()), r).Some?
      ensures ok ==> Values() == After(old(Values()), r).value
      ensures ok ==> curctx == old(curctx) + (if r.Open? then 1 else if r.Close? then -1 else 0)
      ensures ok && a.None? ==> Abstract() == old(Abstract())
      ensures ok && a.Some? ==> Abstract() == Step(old(Abstract()), a.value) && (a.value.Pop? ==> r.Close?)
      ensures ok && a.Some? && a.value.Add? ==> a.value.e.info.ctx == old(curctx)
      ensures ok ==> (first && OpenInOrder(floor) <==> old(OpenInOrder(floor)) && Careful(old(Values()), r))
    {
      hide Ok, ScopesOf, Step, Good, Found, AllOrdered, Guarded, Popped;
      a, first := None, true;
      match r
      case Open =>
        ok := PushCtx();
        a := Some(Push);
        assert forall d :: InOrder(d) <==> old(InOrder(d));
      case Close =>
        ok := curctx > GLOBALCTX;
        if ok {
          first := PopCtx();
          a := Some(Pop);
          assert old(OpenInOrder(floor)) <==> old(InOrder(curctx)) && forall d :: floor <= d <= curctx ==> old(InOrder(d));
        }
      case Create(ns, name, isTypedef, cell) =>
        ok := cell != NULL && cell !in info && ns != 3 && ns != 4;
        if ok {
          var sym := NewSym(ns, name, isTypedef, cell);
        }
      case Declare(ns, sym, cell) =>
        ok := sym != NULL && sym in info && cell != NULL && cell !in info && ns != 3 && ns != 4;
        if ok {
          ghost var i, another := info[sym], sym in declared || info[sym].ctx != curctx;
          var res := Install(ns, sym, cell);
          if res == sym && !another {
            a := Some(Add(Entry(sym, i)));
          } else if res == cell {
            a := Some(Add(Entry(cell, Info(i.name, ns, curctx, false))));
          }
        }
    }
  }

  /** Declaring two symbols of one name in the other order than they were made, inside a block:
      when the block is closed, the newer one is not the first of its collision list, where the
      compiler's assertion expects it. */
  method InstallOutOfOrder(t: SymbolTable, name: string, a: int, b: int) returns (heads: bool)
    requires t.Valid() && a != NULL && b != NULL && a != b && a !in t.info && b !in t.info
    modifies t, t.htab
    ensures t.Valid() && t.curctx == old(t.curctx) && !heads
  {
    hide Ok, ScopesOf, Slot, Good, AllOrdered, Found, Step, Guarded, Popped, Before;
    OkDeclaredKeys(t.Now());
    OkLists(t.Now());
    var ok := t.PushCtx();
    var x := t.NewSym(NS_IDEN, name, false, a);
    var y := t.NewSym(NS_TAG, name, false, b);
    NotGuarded(t.info, t.declared + {b}, t.list, b, a);
    t.LinkHash(b);
    t.LinkHash(a);
    heads := t.PopCtx();
  }

  lemma NotGuarded(info: Infos, declared: set<int>, list: seq<int>, x: int, y: int)
    requires |list| >= 2 && list[0] == x && list[1] == y && x in declared && x in info && y in info && info[x].name == info[y].name
    ensures !Guarded(info, declared, list, y)
  {
    hide Slot;
    assert list[1..][0] == y;
    assert Before(list, x, y);
  }

  lemma NothingRun(s: Scopes, floor: int)
    requires |s.buckets| == NR_SYM_HASH
    ensures Inside(s, [], floor) && Run(s, []) == s
  {
  }

  lemma {:induction false} RunAppend(s: Scopes, acts: seq<Action>, a: Action, floor: int)
    requires |s.buckets| == NR_SYM_HASH && Inside(s, acts, floor)
    requires a.Pop? ==> Run(s, acts).ctx > floor
    requires a.Add? ==> a.e.info.ctx == Run(s, acts).ctx
    ensures Inside(s, acts + [a], floor) && Run(s, acts + [a]) == Step(Run(s, acts), a)
    decreases |acts|
  {
    if acts == [] {
      assert acts + [a] == [a] && [a][1..] == [];
    } else {
      assert (acts + [a])[1..] == acts[1..] + [a];
      RunAppend(Step(s, acts[0]), acts[1..], a, floor);
    }
  }

  lemma ClosedAbove(s: Scopes, t: Scopes, a: Option<Action>, floor: int)
    requires |s.buckets| == NR_SYM_HASH && s.ctx >= floor
    requires if a.None? then t == s else t == Step(s, a.value) && (a.value.Pop? ==> s.ctx > floor)
    ensures t.ctx >= floor
  {
  }
}
