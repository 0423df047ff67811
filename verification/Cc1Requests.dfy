/** What the parser asks of the symbol table inside a block, which requests are balanced,
    and which keep the order in which closing a block frees its symbols. */
module Cc1Requests {
  import opened Chains
  import opened Cc1Scopes
  import opened Cc1Tables
  import opened Cc1Order
  import opened Wrappers

  datatype Request = Open | Close | Create(ns: int, name: string, isTypedef: bool, cell: int) | Declare(ns: int, sym: int, cell: int)

  /** The symbols, which of them are declared, all of them newest first, and the depth. */
  datatype Table = Table(info: Infos, declared: set<int>, list: seq<int>, ctx: int)

  /** The symbol itself is declared if it is of the block and not declared yet, a new one for
      a symbol of an outer block or another name space. */
  function Declared(t: Table, ns: int, sym: int, cell: int): Table
    requires sym in t.info
  {
    var i := t.info[sym];
    if sym !in t.declared && i.ctx == t.ctx then t.(declared := t.declared + {sym})
    else if i.ctx == t.ctx && ns == i.ns then t
    else Table(t.info[cell := Info(i.name, ns, t.ctx, false)], t.declared + {cell}, [cell] + t.list, t.ctx)
  }

  function Created(t: Table, ns: int, name: string, isTypedef: bool, cell: int): Table {
    t.(info := t.info[cell := Info(name, ns, t.ctx, isTypedef)], list := [cell] + t.list)
  }

  /** The list without the newest symbols of a depth. */
  function Older(info: Infos, list: seq<int>, ctx: int): seq<int> {
    if list != [] && DepthOf(info, list[0]) == ctx then Older(info, list[1..], ctx) else list
  }

  function Popped(t: Table): Table {
    Table(map c | c in t.info && t.info[c].ctx != t.ctx :: t.info[c],
          (set c | c in t.declared && DepthOf(t.info, c) != t.ctx),
          Older(t.info, t.list, t.ctx), t.ctx - 1)
  }

  /** Can the request be made, and what is the table after it? */
  function After(t: Table, r: Request): Option<Table> {
    match r
    case Open => if t.ctx == NR_BLOCK then None else Some(t.(ctx := t.ctx + 1))
    case Close => if t.ctx > GLOBALCTX then Some(Popped(t)) else None
    case Create(ns, name, isTypedef, cell) =>
      if cell == NULL || cell in t.info || ns == NS_LABEL || ns == NS_CPP then None else Some(Created(t, ns, name, isTypedef, cell))
    case Declare(ns, sym, cell) =>
      if sym == NULL || sym !in t.info || cell == NULL || cell in t.info || ns == NS_LABEL || ns == NS_CPP then None
      else Some(Declared(t, ns, sym, cell))
  }

  /** All requests can be made, and they close the blocks that they open and no others. */
  predicate Balanced(t: Table, rs: seq<Request>, floor: int)
    decreases |rs|
  {
    if rs == [] then t.ctx == floor
    else !(rs[0].Close? && t.ctx == floor) && After(t, rs[0]).Some? && Balanced(After(t, rs[0]).value, rs[1..], floor)
  }

  /** Declaring an older symbol of the block asks that no newer one with its hash is declared. */
  ghost predicate KeepsOrder(t: Table, sym: int)
    requires sym in t.info
  {
    sym !in t.declared && t.info[sym].ctx == t.ctx ==> Guarded(t.info, t.declared, t.list, sym)
  }

  ghost predicate Careful(t: Table, r: Request) {
    r.Declare? && r.sym in t.info ==> KeepsOrder(t, r.sym)
  }

  ghost predicate AllCareful(t: Table, rs: seq<Request>)
    decreases |rs|
  {
    rs == [] || (Careful(t, rs[0]) && (After(t, rs[0]).Some? ==> AllCareful(After(t, rs[0]).value, rs[1..])))
  }

  /** What a block leaves alone: the symbols from before it. */
  ghost predicate Spares(t0: Table, t: Table, floor: int) {
    && t.ctx >= floor
    && (forall c :: c in t0.info ==> c in t.info && t.info[c] == t0.info[c] && t0.info[c].ctx < floor)
    && (forall c :: c in t.info && c !in t0.info ==> t.info[c].ctx >= floor)
    && (forall c :: c in t0.info ==> (c in t.declared <==> c in t0.declared))
    && t0.declared <= t0.info.Keys && t.declared <= t.info.Keys
  }

  lemma SparesStep(t0: Table, t: Table, r: Request, floor: int)
    requires Spares(t0, t, floor) && After(t, r).Some? && !(r.Close? && t.ctx == floor)
    ensures Spares(t0, After(t, r).value, floor)
  {
  }

  /** Closing the block gives back the symbols from before it. */
  lemma SparesClosed(t0: Table, t: Table)
    requires Spares(t0, t, t.ctx) && forall c :: c in t.info ==> t.info[c].ctx <= t.ctx
    ensures Popped(t).info == t0.info && Popped(t).declared == t0.declared
  {
    var p := Popped(t);
    assert forall c :: c in p.info <==> c in t0.info;
    assert p.info.Keys == t0.info.Keys;
    assert forall c :: c in t0.info ==> p.info[c] == t0.info[c];
    assert forall c :: c in p.declared <==> c in t0.declared;
  }

  lemma SparesStart(info: Infos, declared: set<int>, list: seq<int>, ctx: int)
    requires declared <= info.Keys && ListOk(info, list, ctx) && forall c :: c in info ==> c in list
    ensures Spares(Table(info, declared, list, ctx), Table(info, declared, list, ctx + 1), ctx + 1)
    ensures forall c :: c in info ==> info[c].ctx <= ctx
  {
    FallingAll(info, list, ctx);
  }

  /** The first of the requests that are left. */
  lemma RequestNext(t: Table, rs: seq<Request>, i: int, floor: int)
    requires 0 <= i < |rs|
    ensures var r, rest := rs[i], rs[i + 1..];
            && (Balanced(t, rs[i..], floor) <==>
                  !(r.Close? && t.ctx == floor) && After(t, r).Some? && Balanced(After(t, r).value, rest, floor))
            && (AllCareful(t, rs[i..]) <==> Careful(t, r) && (After(t, r).Some? ==> AllCareful(After(t, r).value, rest)))
  {
    hide After, Careful;
    assert rs[i..][0] == rs[i] && rs[i..][1..] == rs[i + 1..];
  }

  lemma RequestsDone(t: Table, rs: seq<Request>, floor: int)
    ensures Balanced(t, rs[|rs|..], floor) <==> t.ctx == floor
    ensures AllCareful(t, rs[|rs|..]) && rs[0..] == rs
  {
    assert rs[|rs|..] == [];
  }

  /** A block in closing: some of its newest symbols are gone, nothing else. */
  ghost predicate Popping(t0: Table, t: Table) {
    && t.ctx == t0.ctx && Older(t.info, t.list, t.ctx) == Older(t0.info, t0.list, t0.ctx)
    && (forall c :: c in t.info ==> c in t0.info && t.info[c] == t0.info[c])
    && (forall c :: c in t0.info && t0.info[c].ctx != t0.ctx ==> c in t.info)
    && (forall c :: c in t.declared <==> c in t0.declared && c in t.info) && t0.declared <= t0.info.Keys
  }

  lemma PoppingStart(t: Table)
    requires t.declared <= t.info.Keys
    ensures Popping(t, t)
  {
  }

  lemma {:induction false} OlderFrame(info: Infos, info': Infos, list: seq<int>, ctx: int)
    requires forall c :: c in list ==> DepthOf(info', c) == DepthOf(info, c)
    ensures Older(info', list, ctx) == Older(info, list, ctx)
  {
    if list != [] {
      assert list[0] in list;
      OlderFrame(info, info', list[1..], ctx);
    }
  }

  lemma PoppingStep(t0: Table, t: Table)
    requires Popping(t0, t) && t.list != [] && NoDup(t.list) && DepthOf(t.info, t.list[0]) == t.ctx && t.list[0] in t.info
    ensures Popping(t0, Table(t.info - {t.list[0]}, t.declared - {t.list[0]}, t.list[1..], t.ctx))
  {
    var sym := t.list[0];
    NoDupTail(t.list);
    OlderFrame(t.info, t.info - {sym}, t.list[1..], t.ctx);
  }

  lemma PoppingDone(t0: Table, t: Table)
    requires Popping(t0, t) && (forall c :: c in t.info ==> t.info[c].ctx < t.ctx)
    requires t.list != [] ==> t.list[0] in t.info
    ensures t.(ctx := t.ctx - 1) == Popped(t0)
  {
    var p := Popped(t0);
    assert forall c :: c in p.info <==> c in t.info;
    assert p.info.Keys == t.info.Keys;
    assert forall c :: c in t.info ==> p.info[c] == t.info[c];
    assert forall c :: c in p.declared <==> c in t.declared;
  }
}
