/** The back end's symbols: a hash table of collision lists, and a list of the symbols of
    the current function, which leave the table when the function ends. */
module Cc2Symbols {
  import opened Chains
  import opened Wrappers

  const NR_SYMHASH: int := 64
  const USHRT_MAX: int := 65535
  const TMPSYM: int := 0

  /** A symbol in memory, its links as addresses. */
  datatype Symbol = Symbol(id: int, numid: int, next: int, prev: int, hnext: int)

  /** A symbol in creation order: its address and its number. */
  datatype Entry = Entry(cell: int, id: int)

  type Memory = map<int, Symbol>

  datatype Error = EBADID | EIDOVER

  function Slot(id: int): int {
    id % NR_SYMHASH
  }

  /** The symbols of one collision list, the newest first; temporaries are in none. */
  function Bucket(s: seq<Entry>, b: int): seq<int> {
    if s == [] then []
    else
      var last := s[|s| - 1];
      (if last.id != TMPSYM && Slot(last.id) == b then [last.cell] else []) + Bucket(s[..|s| - 1], b)
  }

  /** The address of the symbol with a number, or NULL. */
  function Find(s: seq<Entry>, id: int): int {
    if s == [] then NULL else if s[|s| - 1].id == id then s[|s| - 1].cell else Find(s[..|s| - 1], id)
  }

  /** The links of the collision lists. */
  function Next(mem: Memory): Links {
    map c | c in mem :: mem[c].hnext
  }

  /** The list of locals, linked both ways. */
  predicate Doubly(mem: Memory, s: seq<Entry>) {
    forall i :: 0 <= i < |s| ==> LinkedAt(mem, s, i)
  }

  predicate LinkedAt(mem: Memory, s: seq<Entry>, i: int)
    requires 0 <= i < |s|
  {
    && s[i].cell in mem
    && mem[s[i].cell].prev == (if i == 0 then NULL else s[i - 1].cell)
    && mem[s[i].cell].next == (if i == |s| - 1 then NULL else s[i + 1].cell)
  }

  predicate Recorded(mem: Memory, s: seq<Entry>) {
    forall i :: 0 <= i < |s| ==> s[i].cell != NULL && s[i].cell in mem && mem[s[i].cell].id == s[i].id && 0 <= s[i].id < USHRT_MAX
  }

  predicate Distinct(s: seq<Entry>) {
    && (forall i, j :: 0 <= i < j < |s| ==> s[i].cell != s[j].cell)
    && (forall i, j :: 0 <= i < j < |s| ==> s[i].id == s[j].id ==> s[i].id == TMPSYM)
  }

  /** The running numbers of the symbols: each its own, from 1 to the last one given. */
  predicate Numbered(mem: Memory, s: seq<Entry>, num: int) {
    && (forall i :: 0 <= i < |s| ==> s[i].cell in mem && 1 <= mem[s[i].cell].numid <= num)
    && (forall i, j :: 0 <= i < j < |s| && s[i].cell in mem && s[j].cell in mem ==> mem[s[i].cell].numid < mem[s[j].cell].numid)
  }

  predicate Known(s: seq<Entry>, c: int) {
    exists i :: 0 <= i < |s| && s[i].cell == c
  }

  lemma {:induction false} BucketCells(s: seq<Entry>, b: int, c: int)
    requires c in Bucket(s, b)
    ensures exists i :: 0 <= i < |s| && s[i].cell == c && s[i].id != TMPSYM && Slot(s[i].id) == b
  {
    var last := s[|s| - 1];
    if last.cell == c && last.id != TMPSYM && Slot(last.id) == b {
    } else {
      BucketCells(s[..|s| - 1], b, c);
      var i :| 0 <= i < |s[..|s| - 1]| && s[..|s| - 1][i].cell == c && s[..|s| - 1][i].id != TMPSYM && Slot(s[..|s| - 1][i].id) == b;
      assert s[i].cell == c;
    }
  }

  lemma {:induction false} BucketAppend(s: seq<Entry>, t: seq<Entry>, b: int)
    ensures Bucket(s + t, b) == Bucket(t, b) + Bucket(s, b)
  {
    if t == [] {
      assert s + t == s;
    } else {
      assert (s + t)[..|s + t| - 1] == s + t[..|t| - 1];
      BucketAppend(s, t[..|t| - 1], b);
    }
  }

  lemma {:induction false} BucketHas(s: seq<Entry>, i: int)
    requires 0 <= i < |s| && s[i].id != TMPSYM
    ensures s[i].cell in Bucket(s, Slot(s[i].id))
    decreases |s|
  {
    if i < |s| - 1 {
      BucketHas(s[..|s| - 1], i);
    }
  }

  lemma {:induction false} FindIs(s: seq<Entry>, id: int, i: int)
    requires 0 <= i < |s| && s[i].id == id && id != TMPSYM && Distinct(s)
    ensures Find(s, id) == s[i].cell
    decreases |s|
  {
    if i < |s| - 1 {
      FindIs(s[..|s| - 1], id, i);
    }
  }

  lemma {:induction false} FindNone(s: seq<Entry>, id: int)
    requires forall i :: 0 <= i < |s| ==> s[i].id != id
    ensures Find(s, id) == NULL
  {
    if s != [] {
      FindNone(s[..|s| - 1], id);
    }
  }

  /** A symbol of the chain of a number with that number is the one found. */
  lemma ChainFinds(g: seq<Entry>, l: seq<Entry>, mem: Memory, id: int, p: int)
    requires Recorded(mem, g + l) && Distinct(g + l) && id != TMPSYM
    requires p in Bucket(l, Slot(id)) + Bucket(g, Slot(id)) && p in mem && mem[p].id == id
    ensures Find(g + l, id) == p
  {
    BucketAppend(g, l, Slot(id));
    BucketCells(g + l, Slot(id), p);
    var i :| 0 <= i < |g + l| && (g + l)[i].cell == p && (g + l)[i].id != TMPSYM && Slot((g + l)[i].id) == Slot(id);
    FindIs(g + l, id, i);
  }

  /** If no symbol of the chain has the number, none has. */
  lemma ChainMisses(g: seq<Entry>, l: seq<Entry>, mem: Memory, id: int)
    requires Recorded(mem, g + l) && id != TMPSYM
    requires forall p :: p in Bucket(l, Slot(id)) + Bucket(g, Slot(id)) && p in mem ==> mem[p].id != id
    ensures Find(g + l, id) == NULL && forall i :: 0 <= i < |g + l| ==> (g + l)[i].id != id
  {
    BucketAppend(g, l, Slot(id));
    forall i | 0 <= i < |g + l| ensures (g + l)[i].id != id {
      if (g + l)[i].id == id {
        BucketHas(g + l, i);
      }
    }
    FindNone(g + l, id);
  }

  /** Cells of the collision lists are recorded cells. */
  lemma ChainCells(g: seq<Entry>, l: seq<Entry>, mem: Memory, b: int, c: int)
    requires Recorded(mem, g + l) && c in Bucket(l, b) + Bucket(g, b)
    ensures c in mem && c != NULL
    ensures exists i :: 0 <= i < |g + l| && (g + l)[i].cell == c && (g + l)[i].id != TMPSYM && Slot((g + l)[i].id) == b
  {
    BucketAppend(g, l, b);
    BucketCells(g + l, b, c);
  }

  // What a function's requests, each a number and the address a new symbol would get, ask for

  type Request = (int, int)

  /** The symbol that a request gets, after the globals `g` and the locals `l`. */
  function Answer(g: seq<Entry>, l: seq<Entry>, r: Request): int {
    if r.0 != TMPSYM && Find(g + l, r.0) != NULL then Find(g + l, r.0) else r.1
  }

  /** The locals after some requests: a new one for each temporary and each new number. */
  function LocalsAfter(g: seq<Entry>, rs: seq<Request>): seq<Entry> {
    if rs == [] then []
    else
      var l, r := LocalsAfter(g, rs[..|rs| - 1]), rs[|rs| - 1];
      if r.0 != TMPSYM && Find(g + l, r.0) != NULL then l else l + [Entry(r.1, r.0)]
  }

  function Answers(g: seq<Entry>, rs: seq<Request>): (a: seq<int>)
    ensures |a| == |rs|
  {
    if rs == [] then []
    else
      var init := rs[..|rs| - 1];
      Answers(g, init) + [Answer(g, LocalsAfter(g, init), rs[|rs| - 1])]
  }

  /** The requests' numbers are in range, and the new symbols can all be numbered. */
  predicate Granted(g: seq<Entry>, rs: seq<Request>, num: int) {
    (forall i :: 0 <= i < |rs| ==> rs[i].0 < USHRT_MAX) && num + |LocalsAfter(g, rs)| <= USHRT_MAX
  }

  /** Addresses that are not used yet, each once. */
  predicate Fresh(g: seq<Entry>, rs: seq<Request>) {
    && (forall i :: 0 <= i < |rs| ==> rs[i].1 != NULL && forall k :: 0 <= k < |g| ==> g[k].cell != rs[i].1)
    && (forall i, j :: 0 <= i < j < |rs| ==> rs[i].1 != rs[j].1)
  }

  class Symbols {
    var mem: Memory
    const symtab: array<int>
    var locals: int
    var tail: int
    var infunction: bool
    var num: int
    ghost var globalSyms: seq<Entry>
    ghost var localSyms: seq<Entry>
    ghost var wrapped: bool       // has the counter overflowed?

    constructor ()
      ensures Valid() && fresh(symtab) && globalSyms == [] && localSyms == [] && !infunction && !wrapped
    {
      mem := map[];
      symtab := new int[64](_ => NULL);
      locals, tail, infunction, num := NULL, NULL, false, 0;
      globalSyms, localSyms, wrapped := [], [], false;
    }

    ghost function All(): seq<Entry>
      reads this
    {
      globalSyms + localSyms
    }

    /** Each collision list holds the locals in reverse order of creation, then the globals. */
    ghost predicate Valid()
      reads this, symtab
    {
      && symtab.Length == 64 && 0 <= num <= USHRT_MAX
      && Recorded(mem, All()) && Distinct(All()) && Doubly(mem, localSyms)
      && (!wrapped ==> Numbered(mem, All(), num))
      && (!infunction ==> localSyms == [])
      && locals == (if localSyms == [] then NULL else localSyms[0].cell)
      && tail == (if localSyms == [] then NULL else localSyms[|localSyms| - 1].cell)
      && forall b :: 0 <= b < 64 ==> Linked(Next(mem), symtab[b], Bucket(localSyms, b) + Bucket(globalSyms, b))
    }

    method PushCtx()
      requires Valid()
      modifies this`infunction
      ensures Valid() && infunction
    {
      infunction := true;
    }

    /** Searches the collision list of a number. */
    method Search(id: int) returns (p: int)
      requires Valid() && 0 <= id < USHRT_MAX && id != TMPSYM
      ensures p == Find(All(), id)
      ensures p == NULL ==> forall i :: 0 <= i < |All()| ==> All()[i].id != id
    {
      hide Bucket, Find, Distinct, Doubly;
      ghost var chain := Bucket(localSyms, Slot(id)) + Bucket(globalSyms, Slot(id));
      ghost var i := 0;
      p := symtab[id % 64];
      while p != NULL
        invariant 0 <= i <= |chain| && Linked(Next(mem), p, chain[i..])
        invariant forall k :: 0 <= k < i ==> chain[k] in mem ==> mem[chain[k]].id != id
        decreases |chain| - i
      {
        assert p == chain[i];
        if mem[p].id == id {
          ChainFinds(globalSyms, localSyms, mem, id, p);
          return;
        }
        assert chain[i..][1..] == chain[i + 1..];
        p := mem[p].hnext;
        i := i + 1;
      }
      ChainMisses(globalSyms, localSyms, mem, id);
    }

    /** The symbol with a number: the one in scope, or a new one in `cell`. */
    method GetSym(id: int, cell: int) returns (sym: int, err: Option<Error>)
      requires Valid() && id >= 0 && cell != NULL && cell !in mem
      modifies this, symtab
      ensures Valid() && infunction == old(infunction)
      ensures id >= 65535 <==> err == Some(EBADID)
      ensures err == Some(EBADID) ==> mem == old(mem) && All() == old(All()) && num == old(num) && wrapped == old(wrapped)
      ensures id < USHRT_MAX ==> sym in mem && Known(All(), sym) && mem[sym].id == id
      ensures forall c :: c in old(mem) ==> c in mem && mem[c].numid == old(mem)[c].numid
      ensures var known := if id == 0 then NULL else Find(old(All()), id);
              id < USHRT_MAX ==>
                if known != NULL then
                  && sym == known && err == None && mem == old(mem) && num == old(num) && wrapped == old(wrapped)
                  && localSyms == old(localSyms) && globalSyms == old(globalSyms)
                else
                  && sym == cell && mem.Keys == old(mem).Keys + {cell}
                  && (forall c :: c in old(mem) && c !in CellsFrom(old(localSyms), 0) ==> mem[c] == old(mem)[c])
                  && num == (old(num) + 1) % 65536 && err == (if num == 0 then Some(EIDOVER) else None)
                  && mem[cell].numid == num && wrapped == (old(wrapped) || num == 0)
                  && (if infunction then localSyms == old(localSyms) + [Entry(cell, id)] && globalSyms == old(globalSyms)
                      else globalSyms == old(globalSyms) + [Entry(cell, id)] && localSyms == old(localSyms))
    {
      hide Bucket, Distinct, Recorded, Doubly, Linked, Slot, Find, CellsFrom, Numbered, Known;
      sym, err := NULL, None;
      if id >= USHRT_MAX {
        return NULL, Some(EBADID);
      }
      if id != TMPSYM {
        sym := Search(id);
        if sym != NULL {
          FoundKnown(mem, All(), id);
          return sym, None;
        }
      }
      sym := cell;
      NumberedHigher(mem, All(), num);
      wrapped := wrapped || num == USHRT_MAX;
      num := (num + 1) % (USHRT_MAX + 1);
      Insert(id, cell);
      err := if num == 0 then Some(EIDOVER) else None;
    }

    /** Links a new symbol: at the end of the function's list, and at the front of its
        collision list. */
    method Insert(id: int, cell: int)
      requires Valid() && 0 <= id < USHRT_MAX && cell != NULL && cell !in mem
      requires id == TMPSYM || forall i :: 0 <= i < |All()| ==> All()[i].id != id
      requires !wrapped ==> num > 0 && Numbered(mem, All(), num - 1)
      modifies this`mem, this`locals, this`tail, this`localSyms, this`globalSyms, symtab
      ensures Valid() && mem.Keys == old(mem).Keys + {cell} && infunction == old(infunction)
      ensures mem[cell].numid == num && mem[cell].id == id && Known(All(), cell)
      ensures forall c :: c in old(mem) ==> mem[c].numid == old(mem)[c].numid
      ensures forall c :: c in old(mem) && c !in CellsFrom(old(localSyms), 0) ==> mem[c] == old(mem)[c]
      ensures if infunction then localSyms == old(localSyms) + [Entry(cell, id)] && globalSyms == old(globalSyms)
              else globalSyms == old(globalSyms) + [Entry(cell, id)] && localSyms == old(localSyms)
    {
      hide Bucket, Distinct, Recorded, Doubly, Linked, Slot, Numbered, Known;
      ghost var mem0, g0, l0, e := mem, globalSyms, localSyms, Entry(cell, id);
      var prev, hnext := NULL, NULL;
      if l0 != [] {
        EndsRecorded(mem, g0, l0);
      }
      if infunction {
        prev := tail;
        if tail != NULL {
          mem := mem[tail := mem[tail].(next := cell)];
        }
        tail := cell;
        if locals == NULL {
          locals := cell;
        }
        localSyms := localSyms + [e];
      } else {
        globalSyms := globalSyms + [e];
      }
      SlotRange(id);
      ghost var heads := symtab[..];
      if id != TMPSYM {
        hnext := symtab[id % 64];
        symtab[id % 64] := cell;
      }
      mem := mem[cell := Symbol(id, num, NULL, prev, hnext)];
      Inserted(mem0, mem, g0, l0, e, infunction);
      NumberedNext(mem0, mem, g0 + l0, e, num);
      forall b | 0 <= b < 64
        ensures Linked(Next(mem), symtab[b], Bucket(localSyms, b) + Bucket(globalSyms, b))
      {
        assert heads[b] == old(symtab[b]);
        InsertedChain(mem0, mem, g0, l0, e, infunction, b, heads[b]);
      }
    }

    /** A whole function: each request gets its symbol, unless a number is out of range or the
        new symbols are too many; at the end the table and the memory of the symbols before it
        are as they were. */
    method RunFunction(requests: seq<Request>) returns (got: seq<int>, numbers: seq<int>, err: Option<Error>)
      requires Valid() && !infunction
      requires forall i :: 0 <= i < |requests| ==> requests[i].0 >= 0 && requests[i].1 != NULL && requests[i].1 !in mem
      requires forall i, j :: 0 <= i < j < |requests| ==> requests[i].1 != requests[j].1
      modifies this, symtab
      ensures Valid()
      ensures err == None <==> Granted(old(globalSyms), requests, old(num))
      ensures err == None ==> got == Answers(old(globalSyms), requests) && |numbers| == |got|
      ensures err == None && !old(wrapped) ==>
                forall i, j :: 0 <= i < |got| && 0 <= j < |got| ==> (numbers[i] == numbers[j] <==> got[i] == got[j])
      ensures err == None ==> forall i :: 0 <= i < |got| && got[i] in mem ==> numbers[i] == mem[got[i]].numid
      ensures err == None ==> mem == old(mem) && symtab[..] == old(symtab[..]) && globalSyms == old(globalSyms) && localSyms == []
    {
      hide Bucket, Distinct, Recorded, Doubly, Linked, Slot, Find, LocalsAfter, Answers, CellsFrom, Beside, Numbered, Known, NumbersOf, Granted;
      ghost var heads := symtab[..];
      PushCtx();
      got, numbers, err := ServeAll(requests);
      if err != None {
        return;
      }
      ghost var full, own := mem, localSyms;
      NumbersApart(mem, All(), num, got, numbers, wrapped);
      PopCtx();
      RestoredMemory(old(mem), full, own, requests, |requests|);
      forall b | 0 <= b < 64 ensures symtab[b] == heads[b] {
        NoBucket(b, globalSyms);
        LinkedHead(Next(mem), symtab[b], heads[b], Bucket(globalSyms, b));
      }
    }

    /** The requests of a function's body, up to one that fails. */
    method ServeAll(requests: seq<Request>) returns (got: seq<int>, numbers: seq<int>, err: Option<Error>)
      requires Valid() && infunction && localSyms == []
      requires forall i :: 0 <= i < |requests| ==> requests[i].0 >= 0 && requests[i].1 != NULL && requests[i].1 !in mem
      requires forall i, j :: 0 <= i < j < |requests| ==> requests[i].1 != requests[j].1
      modifies this, symtab
      ensures Valid() && infunction
      ensures err == None <==> Granted(old(globalSyms), requests, old(num))
      ensures err == None ==>
                && got == Answers(old(globalSyms), requests) && NumbersOf(mem, All(), got, numbers)
                && globalSyms == old(globalSyms) && wrapped == old(wrapped) && Beside(old(mem), mem, localSyms, requests, |requests|)
    {
      hide Bucket, Distinct, Recorded, Doubly, Linked, Slot, Find, LocalsAfter, Answers, CellsFrom, Beside, Numbered, Known, NumbersOf;
      ghost var g := globalSyms;
      got, numbers := [], [];
      NothingNumbered(mem, All());
      NothingAsked(g, requests, mem);
      for i := 0 to |requests|
        invariant Valid() && infunction && globalSyms == g
        invariant localSyms == LocalsAfter(g, requests[..i]) && got == Answers(g, requests[..i])
        invariant num == old(num) + |localSyms| && forall k :: 0 <= k < i ==> requests[k].0 < USHRT_MAX
        invariant Beside(old(mem), mem, localSyms, requests, i)
        invariant wrapped == old(wrapped) && NumbersOf(mem, All(), got, numbers)
      {
        ghost var before, mem1, all := localSyms, mem, All();
        NotBeside(old(mem), mem, localSyms, requests, i);
        AskedNext(g, requests, i);
        LocalsGrow(g, requests, i + 1);
        var sym;
        sym, err := GetSym(requests[i].0, requests[i].1);
        if err != None {
          return;
        }
        AllGrows(all, All(), requests[i]);
        NumbersNext(mem1, mem, all, All(), got, numbers, sym);
        got, numbers := got + [sym], numbers + [mem[sym].numid];
        BesideNext(old(mem), mem1, mem, before, requests, i);
      }
      assert requests[..|requests|] == requests;
      err := None;
    }

    /** Takes the function's symbols out of the table, the newest first: each is the head of
        its collision list when its turn comes. */
    method PopCtx()
      requires Valid()
      modifies this`mem, this`locals, this`tail, this`infunction, this`localSyms, symtab
      ensures Valid() && !infunction && localSyms == []
      ensures mem == old(mem) - CellsFrom(old(localSyms), 0)
    {
      hide Bucket, Distinct, Recorded, Doubly, Linked, Slot, CellsFrom, Numbered;
      infunction := false;
      ghost var mem0, g, l := mem, globalSyms, localSyms;
      ghost var k := |l|;
      var sym := tail;
      assert l[..k] == l;
      NoCells(mem, l);
      while sym != NULL
        invariant !infunction && 0 <= k <= |l| && sym == (if k == 0 then NULL else l[k - 1].cell) && symtab.Length == 64
        invariant mem == mem0 - CellsFrom(l, k) && Recorded(mem, g + l[..k]) && Doubly(mem0, l)
        invariant forall b :: 0 <= b < 64 ==> Linked(Next(mem), symtab[b], Bucket(l[..k], b) + Bucket(g, b))
        decreases k
      {
        PopRecord(mem0, mem, g, l, k);
        var prev, id := mem[sym].prev, mem[sym].id;
        SlotRange(id);
        ghost var heads, before := symtab[..], mem;
        if id != TMPSYM {
          symtab[id % 64] := mem[sym].hnext;
        }
        mem := mem - {sym};
        forall b | 0 <= b < 64
          ensures Linked(Next(mem), symtab[b], Bucket(l[..k - 1], b) + Bucket(g, b))
        {
          PopChain(before, g, l, k, b, heads[b]);
        }
        sym := prev;
        k := k - 1;
      }
      if k > 0 {
        EndsRecorded(mem, g, l[..k]);
      }
      assert l[..0] == [] && g + [] == g;
      locals, tail := NULL, NULL;
      localSyms := [];
      PrefixDistinct(g, l, 0);
      NumberedPrefix(mem0, mem, g, l, num);
      NothingDoubly(mem);
    }
  }

  lemma FoundKnown(mem: Memory, s: seq<Entry>, id: int)
    requires Recorded(mem, s) && Find(s, id) != NULL
    ensures Known(s, Find(s, id)) && Find(s, id) in mem && mem[Find(s, id)].id == id
  {
    FindHolds(s, id);
  }

  lemma NumberedHigher(mem: Memory, s: seq<Entry>, num: int)
    ensures Numbered(mem, s, num) ==> Numbered(mem, s, num + 1)
  {
  }

  /** A new symbol gets the next number. */
  lemma NumberedNext(mem: Memory, mem': Memory, s: seq<Entry>, e: Entry, num: int)
    requires e.cell in mem' && mem'[e.cell].numid == num && forall c :: c in mem ==> c in mem' && mem'[c].numid == mem[c].numid
    ensures num > 0 && Numbered(mem, s, num - 1) ==> Numbered(mem', s + [e], num)
    ensures Known(s + [e], e.cell)
  {
    var t := s + [e];
    assert t[|s|] == e && forall i :: 0 <= i < |s| ==> t[i] == s[i];
  }

  lemma NumberedPrefix(mem: Memory, mem': Memory, g: seq<Entry>, l: seq<Entry>, num: int)
    requires Recorded(mem', g) && forall c :: c in mem' ==> c in mem && mem'[c] == mem[c]
    ensures Numbered(mem, g + l, num) ==> Numbered(mem', g, num)
  {
    assert forall i :: 0 <= i < |g| ==> (g + l)[i] == g[i];
  }

  /** The numbers that the answered symbols carry. */
  predicate NumbersOf(mem: Memory, s: seq<Entry>, got: seq<int>, numbers: seq<int>) {
    |numbers| == |got| && forall k :: 0 <= k < |got| ==> got[k] in mem && numbers[k] == mem[got[k]].numid && Known(s, got[k])
  }

  lemma NothingNumbered(mem: Memory, s: seq<Entry>)
    ensures NumbersOf(mem, s, [], [])
  {
  }

  lemma AllGrows(s: seq<Entry>, t: seq<Entry>, r: Request)
    requires t == s || t == s + [Entry(r.1, r.0)]
    ensures forall c :: Known(s, c) ==> Known(t, c)
  {
    forall c | Known(s, c) ensures Known(t, c) {
      var i :| 0 <= i < |s| && s[i].cell == c;
      assert t[i] == s[i];
    }
  }

  lemma NumbersNext(mem: Memory, mem': Memory, s: seq<Entry>, t: seq<Entry>, got: seq<int>, numbers: seq<int>, sym: int)
    requires NumbersOf(mem, s, got, numbers) && sym in mem' && Known(t, sym)
    requires forall c :: c in mem ==> c in mem' && mem'[c].numid == mem[c].numid
    requires forall c :: Known(s, c) ==> Known(t, c)
    ensures NumbersOf(mem', t, got + [sym], numbers + [mem'[sym].numid])
  {
    hide Known;
  }

  /** Different symbols carry different numbers. */
  lemma NumbersApart(mem: Memory, s: seq<Entry>, num: int, got: seq<int>, numbers: seq<int>, wrapped: bool)
    requires NumbersOf(mem, s, got, numbers) && (!wrapped ==> Numbered(mem, s, num))
    ensures !wrapped ==> forall i, j :: 0 <= i < |got| && 0 <= j < |got| ==> (numbers[i] == numbers[j] <==> got[i] == got[j])
    ensures |numbers| == |got| && forall k :: 0 <= k < |got| ==> got[k] in mem && numbers[k] == mem[got[k]].numid
  {
    if !wrapped {
      forall i, j | 0 <= i < |got| && 0 <= j < |got| ensures numbers[i] == numbers[j] <==> got[i] == got[j] {
        assert Known(s, got[i]) && Known(s, got[j]);
        var p :| 0 <= p < |s| && s[p].cell == got[i];
        var q :| 0 <= q < |s| && s[q].cell == got[j];
      }
    }
  }

  lemma NothingAsked(g: seq<Entry>, rs: seq<Request>, mem: Memory)
    ensures LocalsAfter(g, rs[..0]) == [] && Answers(g, rs[..0]) == []
    ensures Beside(mem, mem, [], rs, 0)
  {
  }

  /** The numbers are in range and known to the caller's memory by no other address. */
  ghost predicate Askable(g: seq<Entry>, rs: seq<Request>) {
    Distinct(g) && Fresh(g, rs) && forall k :: 0 <= k < |g| ==> g[k].cell != NULL
  }

  /** Each request is answered by a symbol with its number, all locals are at addresses asked
      for, and any two symbols with one number are temporaries. */
  ghost predicate Held(g: seq<Entry>, l: seq<Entry>, rs: seq<Request>, a: seq<int>) {
    && Distinct(g + l) && |a| == |rs| && (forall e :: e in l ==> (e.id, e.cell) in Asked(rs))
    && forall i :: 0 <= i < |rs| ==> Entry(a[i], rs[i].0) in g + l
  }

  /** The requests so far. */
  function Asked(rs: seq<Request>): set<(int, int)> {
    set i | 0 <= i < |rs| :: rs[i]
  }

  lemma {:induction false} AnswersHeld(g: seq<Entry>, rs: seq<Request>)
    requires Askable(g, rs)
    ensures Held(g, LocalsAfter(g, rs), rs, Answers(g, rs))
    decreases |rs|
  {
    hide Find, Held;
    if rs == [] {
      NothingHeld(g);
    } else {
      var init, r := rs[..|rs| - 1], rs[|rs| - 1];
      var l, a := LocalsAfter(g, init), Answers(g, init);
      AnswersHeld(g, init);
      assert rs == init + [r];
      LocalCells(g, l, init, a, r);
      FindHolds(g + l, r.0);
      if r.0 != TMPSYM && Find(g + l, r.0) != NULL {
        HeldKnown(g, l, init, a, r, Find(g + l, r.0));
      } else {
        HeldNew(g, l, init, a, r);
      }
    }
  }

  /** Two requests get one symbol if and only if they ask for one number, which is not that
      of temporaries. */
  lemma {:induction false} OneSymbolPerNumber(g: seq<Entry>, rs: seq<Request>, i: int, j: int)
    requires Askable(g, rs) && 0 <= i < j < |rs|
    ensures Answers(g, rs)[i] == Answers(g, rs)[j] <==> rs[i].0 == rs[j].0 && rs[i].0 != TMPSYM
  {
    hide Find, LocalsAfter, Answers;
    var s, a := g + LocalsAfter(g, rs), Answers(g, rs);
    AnswersHeld(g, rs);
    assert Entry(a[i], rs[i].0) in s && Entry(a[j], rs[j].0) in s;
    var x :| 0 <= x < |s| && s[x] == Entry(a[i], rs[i].0);
    var y :| 0 <= y < |s| && s[y] == Entry(a[j], rs[j].0);
    if rs[i].0 == TMPSYM {
      TemporaryNew(g, rs, i);
    }
    if rs[j].0 == TMPSYM {
      TemporaryNew(g, rs, j);
    }
  }

  lemma {:induction false} TemporaryNew(g: seq<Entry>, rs: seq<Request>, i: int)
    requires 0 <= i < |rs| && rs[i].0 == TMPSYM
    ensures Answers(g, rs)[i] == rs[i].1
    decreases |rs|
  {
    hide Find, LocalsAfter;
    if i < |rs| - 1 {
      TemporaryNew(g, rs[..|rs| - 1], i);
    }
  }

  lemma NothingHeld(g: seq<Entry>)
    requires Distinct(g)
    ensures Held(g, [], [], [])
  {
    assert g + [] == g;
  }

  lemma LocalCells(g: seq<Entry>, l: seq<Entry>, rs: seq<Request>, a: seq<int>, r: Request)
    requires Held(g, l, rs, a) && Askable(g, rs + [r])
    ensures forall k :: 0 <= k < |g + l| ==> (g + l)[k].cell != r.1 && (g + l)[k].cell != NULL
  {
    var t := rs + [r];
    assert t[|rs|] == r && forall i :: 0 <= i < |rs| ==> t[i] == rs[i];
    forall k | 0 <= k < |g + l| ensures (g + l)[k].cell != r.1 && (g + l)[k].cell != NULL {
      if k >= |g| {
        var e := l[k - |g|];
        assert e in l && (e.id, e.cell) in Asked(rs);
      }
    }
  }

  lemma HeldKnown(g: seq<Entry>, l: seq<Entry>, rs: seq<Request>, a: seq<int>, r: Request, c: int)
    requires Held(g, l, rs, a) && Entry(c, r.0) in g + l
    ensures Held(g, l, rs + [r], a + [c])
  {
    AskedMore(rs, r);
    hide Asked, Distinct;
  }

  lemma HeldNew(g: seq<Entry>, l: seq<Entry>, rs: seq<Request>, a: seq<int>, r: Request)
    requires Held(g, l, rs, a) && forall k :: 0 <= k < |g + l| ==> (g + l)[k].cell != r.1
    requires r.0 == TMPSYM || forall k :: 0 <= k < |g + l| ==> (g + l)[k].id != r.0
    ensures Held(g, l + [Entry(r.1, r.0)], rs + [r], a + [r.1])
  {
    var s, e := g + l, Entry(r.1, r.0);
    assert g + (l + [e]) == s + [e];
    AskedMore(rs, r);
    DistinctMore(s, e);
    hide Asked, Distinct;
    assert forall i :: 0 <= i < |rs| ==> Entry(a[i], rs[i].0) in s + [e];
  }

  lemma AskedMore(rs: seq<Request>, r: Request)
    ensures Asked(rs + [r]) == Asked(rs) + {r}
  {
    var t := rs + [r];
    assert t[|rs|] == r;
    forall x | x in Asked(rs) ensures x in Asked(t) {
      var i :| 0 <= i < |rs| && rs[i] == x;
      assert t[i] == x;
    }
  }

  lemma DistinctMore(s: seq<Entry>, e: Entry)
    requires Distinct(s) && forall k :: 0 <= k < |s| ==> s[k].cell != e.cell
    requires e.id == TMPSYM || forall k :: 0 <= k < |s| ==> s[k].id != e.id
    ensures Distinct(s + [e])
  {
  }

  /** A symbol that is found has the number, and one that is not found is not there. */
  lemma {:induction false} FindHolds(s: seq<Entry>, id: int)
    requires forall k :: 0 <= k < |s| ==> s[k].cell != NULL
    ensures Find(s, id) != NULL ==> Entry(Find(s, id), id) in s
    ensures Find(s, id) == NULL ==> forall k :: 0 <= k < |s| ==> s[k].id != id
    decreases |s|
  {
    if s != [] && s[|s| - 1].id != id {
      FindHolds(s[..|s| - 1], id);
    }
  }

  /** Memory with some locals beside what was there before, at addresses of the first `n`
      requests. */
  ghost predicate Beside(mem0: Memory, mem: Memory, l: seq<Entry>, rs: seq<Request>, n: int) {
    && mem.Keys == mem0.Keys + CellsFrom(l, 0) && CellsFrom(l, 0) !! mem0.Keys && 0 <= n <= |rs|
    && (forall c :: c in mem0 ==> mem[c] == mem0[c])
    && forall c :: c in CellsFrom(l, 0) ==> exists k :: 0 <= k < n && rs[k].1 == c
  }

  lemma NotBeside(mem0: Memory, mem: Memory, l: seq<Entry>, rs: seq<Request>, i: int)
    requires 0 <= i < |rs| && Beside(mem0, mem, l, rs, i) && rs[i].1 !in mem0
    requires forall i, j :: 0 <= i < j < |rs| ==> rs[i].1 != rs[j].1
    ensures rs[i].1 !in mem
  {
    hide CellsFrom;
    forall c | c in CellsFrom(l, 0) ensures c != rs[i].1 {
      var k :| 0 <= k < i && rs[k].1 == c;
    }
    assert rs[i].1 !in mem.Keys;
  }

  lemma BesideNext(mem0: Memory, mem1: Memory, mem: Memory, l: seq<Entry>, rs: seq<Request>, i: int)
    requires 0 <= i < |rs| && Beside(mem0, mem1, l, rs, i) && rs[i].1 !in mem1
    ensures mem == mem1 ==> Beside(mem0, mem, l, rs, i + 1)
    ensures mem.Keys == mem1.Keys + {rs[i].1} && (forall c :: c in mem1 && c !in CellsFrom(l, 0) ==> mem[c] == mem1[c])
            ==> Beside(mem0, mem, l + [Entry(rs[i].1, rs[i].0)], rs, i + 1)
  {
    hide CellsFrom;
    CellsSnoc(l, Entry(rs[i].1, rs[i].0));
  }

  lemma AskedNext(g: seq<Entry>, rs: seq<Request>, i: int)
    requires 0 <= i < |rs|
    ensures var l, r := LocalsAfter(g, rs[..i]), rs[i];
            && LocalsAfter(g, rs[..i + 1]) == (if r.0 != TMPSYM && Find(g + l, r.0) != NULL then l else l + [Entry(r.1, r.0)])
            && Answers(g, rs[..i + 1]) == Answers(g, rs[..i]) + [Answer(g, l, r)]
  {
    hide Find;
    assert rs[..i + 1][..i] == rs[..i];
  }

  lemma {:induction false} LocalsGrow(g: seq<Entry>, rs: seq<Request>, i: int)
    requires 0 <= i <= |rs|
    ensures |LocalsAfter(g, rs[..i])| <= |LocalsAfter(g, rs)|
    decreases |rs|
  {
    hide Find;
    if i < |rs| {
      var init := rs[..|rs| - 1];
      assert init[..i] == rs[..i];
      LocalsGrow(g, init, i);
    } else {
      assert rs[..i] == rs;
    }
  }

  /** The cells of the symbols from the k-th on. */
  function CellsFrom(s: seq<Entry>, k: int): set<int>
    requires 0 <= k <= |s|
  {
    set i | k <= i < |s| :: s[i].cell
  }

  lemma CellsSnoc(s: seq<Entry>, e: Entry)
    ensures CellsFrom(s + [e], 0) == CellsFrom(s, 0) + {e.cell}
  {
    var t := s + [e];
    assert forall i :: 0 <= i < |s| ==> t[i] == s[i];
    assert t[|s|] == e;
    assert forall c :: c in CellsFrom(s, 0) ==> exists i :: 0 <= i < |s| && s[i].cell == c && t[i].cell == c;
  }

  lemma RestoredMemory(mem: Memory, full: Memory, l: seq<Entry>, rs: seq<Request>, n: int)
    requires Beside(mem, full, l, rs, n)
    ensures full - CellsFrom(l, 0) == mem
  {
    hide CellsFrom;
    var rest := full - CellsFrom(l, 0);
    assert rest.Keys == mem.Keys;
    assert forall c :: c in rest ==> c in mem && rest[c] == full[c] == mem[c];
  }

  lemma NoBucket(b: int, g: seq<Entry>)
    ensures Bucket([], b) + Bucket(g, b) == Bucket(g, b)
  {
  }

  lemma NoCells(mem: Memory, s: seq<Entry>)
    ensures mem - CellsFrom(s, |s|) == mem
  {
  }

  lemma NothingDoubly(mem: Memory)
    ensures Doubly(mem, [])
  {
  }

  lemma PrefixDistinct(g: seq<Entry>, l: seq<Entry>, k: int)
    requires Distinct(g + l) && 0 <= k <= |l|
    ensures Distinct(g + l[..k])
  {
    assert forall i :: 0 <= i < |g + l[..k]| ==> (g + l[..k])[i] == (g + l)[i];
  }

  /** The next symbol to take out: its links are those it had, and it is in none of the
      symbols that stay. */
  lemma PopRecord(mem0: Memory, mem: Memory, g: seq<Entry>, l: seq<Entry>, k: int)
    requires 0 < k <= |l| && mem == mem0 - CellsFrom(l, k) && Recorded(mem, g + l[..k]) && Distinct(g + l) && Doubly(mem0, l)
    ensures var c := l[k - 1].cell;
            && c in mem && mem[c].id == l[k - 1].id && mem[c].prev == (if k == 1 then NULL else l[k - 2].cell)
            && Recorded(mem - {c}, g + l[..k - 1]) && mem - {c} == mem0 - CellsFrom(l, k - 1)
  {
    var s, c := g + l[..k], l[k - 1].cell;
    assert s[|s| - 1] == l[k - 1] && c in mem && mem[c] == mem0[c];
    assert LinkedAt(mem0, l, k - 1);
    assert CellsFrom(l, k - 1) == CellsFrom(l, k) + {c};
    var t := g + l[..k - 1];
    forall i | 0 <= i < |t|
      ensures t[i].cell != NULL && t[i].cell in mem - {c} && (mem - {c})[t[i].cell].id == t[i].id && 0 <= t[i].id < USHRT_MAX
    {
      assert t[i] == s[i] == (g + l)[i] && (g + l)[|g| + k - 1] == l[k - 1];
    }
  }

  lemma PopChain(mem: Memory, g: seq<Entry>, l: seq<Entry>, k: int, b: int, p: int)
    requires 0 < k <= |l| && Recorded(mem, g + l[..k]) && Distinct(g + l) && l[k - 1].cell in mem
    requires Recorded(mem - {l[k - 1].cell}, g + l[..k - 1])
    requires Linked(Next(mem), p, Bucket(l[..k], b) + Bucket(g, b))
    ensures var c := l[k - 1].cell;
            Linked(Next(mem - {c}), if Hashed(l[k - 1], b) then mem[c].hnext else p, Bucket(l[..k - 1], b) + Bucket(g, b))
  {
    hide Bucket, Linked, Recorded, Hashed, Distinct;
    var e, s := l[k - 1], l[..k - 1];
    assert l[..k] == s + [e];
    BucketSnoc(g, s, e, true, b);
    var chain := Bucket(s, b) + Bucket(g, b);
    var q := if Hashed(e, b) then mem[e.cell].hnext else p;
    if Hashed(e, b) {
      LinkedTail(mem, e.cell, p, chain);
    }
    forall c | c in chain ensures c in mem && c in mem - {e.cell} && (mem - {e.cell})[c].hnext == mem[c].hnext {
      ChainCells(g, s, mem - {e.cell}, b, c);
    }
    LinkedFrame(Next(mem), Next(mem - {e.cell}), q, chain);
  }

  lemma LinkedTail(mem: Memory, c: int, p: int, chain: seq<int>)
    requires Linked(Next(mem), p, [c] + chain)
    ensures c in mem && Linked(Next(mem), mem[c].hnext, chain)
  {
    assert ([c] + chain)[1..] == chain;
  }

  lemma SlotRange(id: int)
    ensures Slot(id) == id % 64
  {
  }

  lemma EndsRecorded(mem: Memory, g: seq<Entry>, l: seq<Entry>)
    requires Recorded(mem, g + l) && l != []
    ensures l[|l| - 1].cell in mem && l[|l| - 1].cell != NULL && l[0].cell != NULL
  {
    assert (g + l)[|g + l| - 1] == l[|l| - 1] && (g + l)[|g|] == l[0];
  }

  /** Memory after linking a symbol: a new record, and the link from the last local. */
  predicate Extends(mem: Memory, mem': Memory, g: seq<Entry>, l: seq<Entry>, e: Entry, local: bool) {
    && e.cell != NULL && e.cell !in mem && mem'.Keys == mem.Keys + {e.cell}
    && mem'[e.cell].id == e.id && mem'[e.cell].next == NULL
    && mem'[e.cell].prev == (if local && l != [] then l[|l| - 1].cell else NULL)
    && forall c :: c in mem ==>
         mem'[c] == if local && l != [] && c == l[|l| - 1].cell then mem[c].(next := e.cell) else mem[c]
  }

  lemma Inserted(mem: Memory, mem': Memory, g: seq<Entry>, l: seq<Entry>, e: Entry, local: bool)
    requires Recorded(mem, g + l) && Distinct(g + l) && Doubly(mem, l) && 0 <= e.id < USHRT_MAX && (!local ==> l == [])
    requires Extends(mem, mem', g, l, e, local)
    requires e.id == TMPSYM || forall i :: 0 <= i < |g + l| ==> (g + l)[i].id != e.id
    ensures var g', l' := if local then g else g + [e], if local then l + [e] else l;
            g' + l' == g + l + [e] && Recorded(mem', g' + l') && Distinct(g' + l') && Doubly(mem', l')
  {
    hide Recorded, Distinct, Doubly, Extends;
    if local {
      assert g + (l + [e]) == g + l + [e];
    } else {
      assert g + [e] + [] == g + l + [e];
    }
    InsertedRecorded(mem, mem', g, l, e, local);
    InsertedDistinct(mem, g + l, e);
    InsertedDoubly(mem, mem', g, l, e, local);
  }

  lemma InsertedRecorded(mem: Memory, mem': Memory, g: seq<Entry>, l: seq<Entry>, e: Entry, local: bool)
    requires Recorded(mem, g + l) && 0 <= e.id < USHRT_MAX && Extends(mem, mem', g, l, e, local)
    ensures Recorded(mem', g + l + [e]) && e.cell !in mem
  {
    var s := g + l + [e];
    forall i | 0 <= i < |s| ensures s[i].cell != NULL && s[i].cell in mem' && mem'[s[i].cell].id == s[i].id && 0 <= s[i].id < USHRT_MAX {
      if i < |g + l| {
        assert s[i] == (g + l)[i];
      }
    }
  }

  lemma InsertedDistinct(mem: Memory, s: seq<Entry>, e: Entry)
    requires Recorded(mem, s) && Distinct(s) && e.cell !in mem
    requires e.id == TMPSYM || forall i :: 0 <= i < |s| ==> s[i].id != e.id
    ensures Distinct(s + [e])
  {
    var t := s + [e];
    assert forall i :: 0 <= i < |s| ==> t[i] == s[i] && t[i].cell != e.cell;
  }

  lemma InsertedDoubly(mem: Memory, mem': Memory, g: seq<Entry>, l: seq<Entry>, e: Entry, local: bool)
    requires Distinct(g + l) && Doubly(mem, l) && Extends(mem, mem', g, l, e, local) && (!local ==> l == [])
    ensures Doubly(mem', if local then l + [e] else l)
  {
    if local {
      var t := l + [e];
      LastDistinct(g, l);
      forall i | 0 <= i < |t| ensures LinkedAt(mem', t, i) {
        assert i < |l| ==> LinkedAt(mem, l, i);
      }
    }
  }

  lemma LastDistinct(g: seq<Entry>, l: seq<Entry>)
    requires Distinct(g + l)
    ensures forall i :: 0 <= i < |l| - 1 ==> l[i].cell != l[|l| - 1].cell
  {
    forall i | 0 <= i < |l| - 1 ensures l[i].cell != l[|l| - 1].cell {
      assert (g + l)[|g| + i] == l[i] && (g + l)[|g| + |l| - 1] == l[|l| - 1];
    }
  }

  lemma InsertedChain(mem: Memory, mem': Memory, g: seq<Entry>, l: seq<Entry>, e: Entry, local: bool, b: int, p: int)
    requires Recorded(mem, g + l) && (!local ==> l == []) && Extends(mem, mem', g, l, e, local)
    requires Linked(Next(mem), p, Bucket(l, b) + Bucket(g, b))
    requires Hashed(e, b) ==> mem'[e.cell].hnext == p
    ensures var g', l' := if local then g else g + [e], if local then l + [e] else l;
            Linked(Next(mem'), if Hashed(e, b) then e.cell else p, Bucket(l', b) + Bucket(g', b))
  {
    hide Bucket, Linked, Recorded, Hashed;
    var chain := Bucket(l, b) + Bucket(g, b);
    forall c | c in chain ensures c in mem && c in mem' && mem'[c].hnext == mem[c].hnext {
      ChainCells(g, l, mem, b, c);
    }
    LinkedFrame(Next(mem), Next(mem'), p, chain);
    BucketSnoc(g, l, e, local, b);
    if Hashed(e, b) {
      LinkedCons(Next(mem'), p, chain, e.cell);
    }
  }

  /** Is this symbol in the collision list? */
  predicate Hashed(e: Entry, b: int) {
    e.id != TMPSYM && Slot(e.id) == b
  }

  lemma BucketSnoc(g: seq<Entry>, l: seq<Entry>, e: Entry, local: bool, b: int)
    requires !local ==> l == []
    ensures var g', l' := if local then g else g + [e], if local then l + [e] else l;
            Bucket(l', b) + Bucket(g', b) ==
            if Hashed(e, b) then [e.cell] + (Bucket(l, b) + Bucket(g, b)) else Bucket(l, b) + Bucket(g, b)
  {
    hide Bucket, Hashed;
    BucketLast(l, e, b);
    BucketLast(g, e, b);
    BucketNothing(b);
    assert l != [] ==> local;
  }

  lemma BucketNothing(b: int)
    ensures Bucket([], b) == []
  {
  }

  lemma BucketLast(s: seq<Entry>, e: Entry, b: int)
    ensures Bucket(s + [e], b) == if Hashed(e, b) then [e.cell] + Bucket(s, b) else Bucket(s, b)
  {
    assert (s + [e])[..|s|] == s;
  }
}
