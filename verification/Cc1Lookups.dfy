/** What a lookup answers, said of the declared symbols and their blocks. */
module Cc1Lookups {
  import opened Chains
  import opened Cc1Scopes
  import opened Cc1Tables
  import opened Cc1States

  /** Is this a symbol to answer with?  Keywords (space 5) are found in every name space, and
      type names in the space of any structure (7 and up). */
  predicate Wanted(i: Info, ns: int, name: string) {
    i.name == name && (i.ns == ns || i.ns == 5 || (i.isTypedef && ns >= 7))
  }

  /** The answer is a declared symbol of the innermost block that declares one; if no block
      does, there is none. */
  ghost predicate Answers(info: Infos, declared: set<int>, ns: int, name: string, sym: int) {
    if sym == 0 then forall c :: c in declared && c in info ==> !Wanted(info[c], ns, name)
    else
      && sym in declared && sym in info && Wanted(info[sym], ns, name)
      && forall c :: c in declared && c in info && Wanted(info[c], ns, name) ==> info[c].ctx <= info[sym].ctx
  }

  lemma AnswerKnown(info: Infos, declared: set<int>, ns: int, name: string, sym: int)
    requires Answers(info, declared, ns, name, sym)
    ensures sym != 0 ==> sym in info
  {
  }

  lemma {:induction false} FirstAnswers(info: Infos, chain: seq<int>, bound: int, ns: int, name: string)
    requires (forall c :: c in chain ==> c in info && c != 0) && Falling(View(info, chain), bound)
    ensures var f := First(View(info, chain), ns, name);
            if f == 0 then forall c :: c in chain ==> !Wanted(info[c], ns, name)
            else
              && f in chain && Wanted(info[f], ns, name) && info[f].ctx <= bound
              && forall c :: c in chain && Wanted(info[c], ns, name) ==> info[c].ctx <= info[f].ctx
  {
    if chain != [] {
      var c, t, v := chain[0], chain[1..], View(info, chain);
      assert v[0] == Entry(c, info[c]) && v[1..] == View(info, t);
      assert chain == [c] + t && forall x :: x in t ==> x in chain;
      FirstAnswers(info, t, info[c].ctx, ns, name);
      if Wanted(info[c], ns, name) {
        FallingAll(info, t, info[c].ctx);
      }
    }
  }

  lemma {:induction false} FoundAnswers(st: State, ns: int, name: string)
    requires Ok(st)
    ensures Answers(st.info, st.declared, ns, name, Found(ScopesOf(st), ns, name))
  {
    hide Slot, First, View, Falling, NoDup, Linked, ListOk, BucketOk, Wanted;
    var b := Slot(name);
    SlotBounds(name);
    OkChain(st, b);
    OkCells(st);
    FirstAnswers(st.info, st.chains[b], st.ctx, ns, name);
    forall c | c in st.declared && c in st.info && Wanted(st.info[c], ns, name) ensures c in st.chains[b] {
      OkDeclared(st, c);
      WantedName(st.info[c], ns, name);
    }
    FoundForm(ScopesOf(st), ns, name);
  }

  lemma WantedName(i: Info, ns: int, name: string)
    requires Wanted(i, ns, name)
    ensures i.name == name
  {
  }

  lemma FoundForm(s: Scopes, ns: int, name: string)
    requires |s.buckets| == NR_SYM_HASH
    ensures Found(s, ns, name) == First(s.buckets[Slot(name)], ns, name)
  {
    hide First, Slot;
  }

  /** A symbol just declared is what lookups answer that want it; all other lookups answer
      what they answered. */
  lemma {:induction false} AddedFound(s: Scopes, e: Entry, ns: int, name: string)
    requires |s.buckets| == NR_SYM_HASH
    ensures Found(Step(s, Add(e)), ns, name) == if Wanted(e.info, ns, name) then e.cell else Found(s, ns, name)
  {
    hide Slot;
    var b := Slot(e.info.name);
    SlotBounds(name);
    SlotBounds(e.info.name);
    assert ([e] + s.buckets[b])[1..] == s.buckets[b];
  }
}
