/** Singly linked lists in memory: a head and the links of the cells. */
module Chains {

  const NULL: int := 0

  type Links = map<int, int>

  /** The list that starts at `p`. */
  predicate Linked(links: Links, p: int, chain: seq<int>)
    decreases |chain|
  {
    if chain == [] then p == NULL
    else p == chain[0] && p != NULL && p in links && Linked(links, links[p], chain[1..])
  }

  predicate NoDup(chain: seq<int>) {
    forall i, j :: 0 <= i < j < |chain| ==> chain[i] != chain[j]
  }

  /** A list without one of its cells. */
  function Remove(chain: seq<int>, c: int): (r: seq<int>)
    ensures |r| <= |chain| && forall x :: x in r ==> x in chain
  {
    if chain == [] then [] else if chain[0] == c then chain[1..] else [chain[0]] + Remove(chain[1..], c)
  }

  lemma {:induction false} LinkedFrame(links: Links, links': Links, p: int, chain: seq<int>)
    requires Linked(links, p, chain) && forall c :: c in chain ==> c in links && c in links' && links'[c] == links[c]
    ensures Linked(links', p, chain)
    decreases |chain|
  {
    if chain != [] {
      LinkedFrame(links, links', links[p], chain[1..]);
    }
  }

  lemma LinkedHead(links: Links, p: int, q: int, chain: seq<int>)
    requires Linked(links, p, chain) && Linked(links, q, chain)
    ensures p == q
  {
  }

  lemma LinkedCons(links: Links, p: int, chain: seq<int>, c: int)
    requires Linked(links, p, chain) && c != NULL && c in links && links[c] == p
    ensures Linked(links, c, [c] + chain)
  {
    assert ([c] + chain)[1..] == chain;
  }

  /** Linking a cell at the front of a list. */
  lemma LinkedPush(links: Links, p: int, chain: seq<int>, c: int)
    requires Linked(links, p, chain) && c != NULL && c !in chain
    ensures Linked(links[c := p], c, [c] + chain)
  {
    CellsLinked(links, p, chain);
    LinkedFrame(links, links[c := p], p, chain);
    LinkedCons(links[c := p], p, chain, c);
  }

  lemma {:induction false} CellsLinked(links: Links, p: int, chain: seq<int>)
    requires Linked(links, p, chain)
    ensures forall c :: c in chain ==> c in links && c != NULL
    decreases |chain|
  {
    if chain != [] {
      CellsLinked(links, links[p], chain[1..]);
      assert chain == [chain[0]] + chain[1..];
    }
  }

  lemma NoDupTail(chain: seq<int>)
    requires NoDup(chain) && chain != []
    ensures NoDup(chain[1..]) && chain[0] !in chain[1..]
  {
  }

  lemma {:induction false} RemoveAbsent(chain: seq<int>, c: int)
    requires c !in chain
    ensures Remove(chain, c) == chain
  {
    if chain != [] {
      RemoveAbsent(chain[1..], c);
    }
  }

  lemma {:induction false} RemoveNoDup(chain: seq<int>, c: int)
    requires NoDup(chain)
    ensures NoDup(Remove(chain, c)) && c !in Remove(chain, c)
    ensures forall x :: x in chain && x != c ==> x in Remove(chain, c)
  {
    if chain != [] {
      NoDupTail(chain);
      RemoveNoDup(chain[1..], c);
    }
  }

  /** Unlinking the cell after `h`: the rest of the list stays linked. */
  lemma {:induction false} UnlinkedAfter(links: Links, p: int, chain: seq<int>, i: int)
    requires Linked(links, p, chain) && NoDup(chain) && 0 <= i < |chain| - 1
    ensures chain[i] in links && chain[i + 1] in links && links[chain[i]] == chain[i + 1]
    ensures Linked(links[chain[i] := links[chain[i + 1]]], p, Remove(chain, chain[i + 1]))
    decreases |chain|
  {
    var c, t := chain[i + 1], chain[1..];
    NoDupTail(chain);
    if i == 0 {
      NoDupTail(t);
      assert Linked(links, links[p], t) && Linked(links, links[c], t[1..]);
      assert c == t[0];
      assert Remove(chain, c) == [p] + t[1..];
      CellsLinked(links, p, chain);
      assert p !in t[1..];
      LinkedPush(links, links[c], t[1..], p);
    } else {
      UnlinkedAfter(links, links[p], t, i - 1);
      var links' := links[chain[i] := links[c]];
      assert t[i - 1] == chain[i] && t[i] == c;
      assert Remove(chain, c) == [p] + Remove(t, c);
      CellsLinked(links, p, chain);
      LinkedCons(links', links[p], Remove(t, c), p);
    }
  }
}
