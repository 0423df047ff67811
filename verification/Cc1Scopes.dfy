/** Nested scopes of the front end: collision lists whose newest symbols come first, and
    what opening and closing blocks does to lookups. */
module Cc1Scopes {

  const NR_SYM_HASH: int := 64
  const NS_IDEN: int := 1
  const NS_TAG: int := 2
  const NS_LABEL: int := 3
  const NS_CPP: int := 4
  const NS_KEYWORD: int := 5
  const NS_CPPCLAUSES: int := 6
  const NS_STRUCTS: int := 7
  const GLOBALCTX: int := 0
  const NR_BLOCK: int := 127

  /** What a symbol keeps from its creation on. */
  datatype Info = Info(name: string, ns: int, ctx: int, isTypedef: bool)

  datatype Entry = Entry(cell: int, info: Info)

  /** The collision lists and the depth of the current block. */
  datatype Scopes = Scopes(buckets: seq<seq<Entry>>, ctx: int)

  /** Does a lookup stop at this symbol? */
  predicate Matches(i: Info, ns: int, name: string) {
    i.name == name && (i.ns == ns || i.ns == NS_KEYWORD || (i.isTypedef && ns >= NS_STRUCTS))
  }

  /** The first symbol of a list that a lookup stops at, or NULL. */
  function First(bucket: seq<Entry>, ns: int, name: string): int {
    if bucket == [] then 0 else if Matches(bucket[0].info, ns, name) then bucket[0].cell else First(bucket[1..], ns, name)
  }

  /** A hash of 32 bits: h times 33, exclusive or with the character. */
  function Hash(name: string, h: bv32): bv32 {
    if name == "" then h else Hash(name[1..], (h * 33) ^ ((name[0] as int % 256) as bv32))
  }

  function Slot(name: string): (b: int)
    ensures 0 <= b < NR_SYM_HASH
  {
    (Hash(name, 5381) as int) % NR_SYM_HASH
  }

  function Found(s: Scopes, ns: int, name: string): int
    requires |s.buckets| == NR_SYM_HASH
  {
    First(s.buckets[Slot(name)], ns, name)
  }

  /** Depths fall along a list, from a bound. */
  predicate Falling(bucket: seq<Entry>, bound: int) {
    bucket == [] || (bucket[0].info.ctx <= bound && Falling(bucket[1..], bucket[0].info.ctx))
  }

  predicate Good(s: Scopes) {
    && |s.buckets| == NR_SYM_HASH && s.ctx >= GLOBALCTX
    && forall b :: 0 <= b < NR_SYM_HASH ==> Falling(s.buckets[b], s.ctx)
  }

  /** A list without the symbols of a block and of those inside it. */
  function Outer(bucket: seq<Entry>, ctx: int): seq<Entry> {
    if bucket != [] && bucket[0].info.ctx >= ctx then Outer(bucket[1..], ctx) else bucket
  }

  datatype Action = Push | Pop | Add(e: Entry)

  function Step(s: Scopes, a: Action): Scopes
    requires |s.buckets| == NR_SYM_HASH
  {
    match a
    case Push => s.(ctx := s.ctx + 1)
    case Pop => Scopes(seq(NR_SYM_HASH, b requires 0 <= b < NR_SYM_HASH => Outer(s.buckets[b], s.ctx)), s.ctx - 1)
    case Add(e) => s.(buckets := s.buckets[Slot(e.info.name) := [e] + s.buckets[Slot(e.info.name)]])
  }

  /** Actions that the compiler takes inside a block at depth `floor`: symbols are added to
      the current block, and the block itself is not closed. */
  predicate Inside(s: Scopes, acts: seq<Action>, floor: int)
    requires |s.buckets| == NR_SYM_HASH
    decreases |acts|
  {
    acts == []
    || (&& (acts[0].Pop? ==> s.ctx > floor)
        && (acts[0].Add? ==> acts[0].e.info.ctx == s.ctx)
        && Inside(Step(s, acts[0]), acts[1..], floor))
  }

  function Run(s: Scopes, acts: seq<Action>): (r: Scopes)
    requires |s.buckets| == NR_SYM_HASH
    ensures |r.buckets| == NR_SYM_HASH
    decreases |acts|
  {
    if acts == [] then s else Run(Step(s, acts[0]), acts[1..])
  }

  lemma FallingRaised(bucket: seq<Entry>, bound: int, higher: int)
    requires Falling(bucket, bound) && bound <= higher
    ensures Falling(bucket, higher)
  {
  }

  lemma {:induction false} OuterAgain(bucket: seq<Entry>, inner: int, outer: int)
    requires outer <= inner
    ensures Outer(Outer(bucket, inner), outer) == Outer(bucket, outer)
    decreases |bucket|
  {
    if bucket != [] && bucket[0].info.ctx >= inner {
      OuterAgain(bucket[1..], inner, outer);
    }
  }

  lemma OuterNothing(bucket: seq<Entry>, ctx: int)
    requires Falling(bucket, ctx - 1)
    ensures Outer(bucket, ctx) == bucket
  {
  }

  /** The lists of the blocks outside `floor`. */
  predicate Outside(s: Scopes, floor: int, buckets: seq<seq<Entry>>) {
    |s.buckets| == |buckets| == NR_SYM_HASH && forall b :: 0 <= b < NR_SYM_HASH ==> Outer(s.buckets[b], floor) == buckets[b]
  }

  lemma StepOutside(s: Scopes, a: Action, floor: int, buckets: seq<seq<Entry>>)
    requires Outside(s, floor, buckets) && Inside(s, [a], floor) && s.ctx >= floor
    ensures Outside(Step(s, a), floor, buckets) && Step(s, a).ctx >= floor
  {
    assert [a][0] == a;
    match a
    case Push =>
    case Pop =>
      forall b | 0 <= b < NR_SYM_HASH ensures Outer(Step(s, a).buckets[b], floor) == buckets[b] {
        OuterAgain(s.buckets[b], s.ctx, floor);
      }
    case Add(e) =>
      var t := Step(s, a);
      forall b | 0 <= b < NR_SYM_HASH ensures Outer(t.buckets[b], floor) == buckets[b] {
        if b == Slot(e.info.name) {
          assert t.buckets[b] == [e] + s.buckets[b] && ([e] + s.buckets[b])[1..] == s.buckets[b];
        }
      }
  }

  lemma {:induction false} RunOutside(s: Scopes, acts: seq<Action>, floor: int, buckets: seq<seq<Entry>>)
    requires Outside(s, floor, buckets) && Inside(s, acts, floor) && s.ctx >= floor
    ensures Outside(Run(s, acts), floor, buckets) && Run(s, acts).ctx >= floor
    decreases |acts|
  {
    hide Outside, Slot;
    OutsideLength(s, floor, buckets);
    if acts != [] {
      InsideFirst(s, acts, floor);
      StepOutside(s, acts[0], floor, buckets);
      RunOutside(Step(s, acts[0]), acts[1..], floor, buckets);
    }
  }

  lemma OutsideLength(s: Scopes, floor: int, buckets: seq<seq<Entry>>)
    requires Outside(s, floor, buckets)
    ensures |s.buckets| == NR_SYM_HASH
  {
  }

  lemma InsideFirst(s: Scopes, acts: seq<Action>, floor: int)
    requires |s.buckets| == NR_SYM_HASH && acts != [] && Inside(s, acts, floor)
    ensures Inside(s, [acts[0]], floor) && Inside(Step(s, acts[0]), acts[1..], floor)
  {
    assert [acts[0]][1..] == [];
  }

  /** Whatever a block does, nested blocks included, closing it gives back the scopes from
      before it was opened, and so every lookup. */
  lemma {:induction false} BlockRestores(s: Scopes, acts: seq<Action>)
    requires Good(s) && Inside(Step(s, Push), acts, s.ctx + 1) && Run(Step(s, Push), acts).ctx == s.ctx + 1
    ensures Step(Run(Step(s, Push), acts), Pop) == s
    ensures forall ns, name :: Found(Step(Run(Step(s, Push), acts), Pop), ns, name) == Found(s, ns, name)
  {
    var s1, floor := Step(s, Push), s.ctx + 1;
    forall b | 0 <= b < NR_SYM_HASH ensures Outer(s1.buckets[b], floor) == s.buckets[b] {
      OuterNothing(s.buckets[b], floor);
    }
    RunOutside(s1, acts, floor, s.buckets);
    var t := Step(Run(s1, acts), Pop);
    assert forall b :: 0 <= b < NR_SYM_HASH ==> t.buckets[b] == s.buckets[b];
    assert t.buckets == s.buckets;
  }
}
