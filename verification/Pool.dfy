/** The fixed-size pool: cells of one size in arenas, the free ones linked through their own
    first word. */
module Pool {
  import opened Bits
  import opened Chains

  /** Memory is counted in words of the alignment; a cell takes `unit` of them. */
  function Slots(base: int, n: nat, unit: int): (s: seq<int>)
    ensures |s| == n
    decreases n
  {
    if n == 0 then [] else [base] + Slots(base + unit, n - 1, unit)
  }

  /** Cells that do not overlap. */
  predicate Spaced(s: seq<int>, unit: int) {
    forall i, j :: 0 <= i < |s| && 0 <= j < |s| && i != j ==> s[i] + unit <= s[j] || s[j] + unit <= s[i]
  }

  predicate Within(s: seq<int>, lo: int, hi: int, unit: int) {
    forall i :: 0 <= i < |s| ==> lo <= s[i] && s[i] + unit <= hi
  }

  lemma {:induction false} SlotsWithin(base: int, n: nat, unit: int)
    requires unit > 0
    ensures Within(Slots(base, n, unit), base, base + Times(unit, n), unit) && Spaced(Slots(base, n, unit), unit)
    ensures n > 0 ==> Slots(base, n, unit)[0] == base
    ensures n > 0 ==> Within(Slots(base, n, unit), base, Slots(base, n, unit)[n - 1] + unit, unit)
    decreases n
  {
    hide Times, Within, Spaced;
    NoneYet(unit);
    if n == 0 {
      NoSlots(base, base, unit);
    } else {
      SlotsWithin(base + unit, n - 1, unit);
      OneMore(unit, n - 1);
      FirstSlot(base, Slots(base + unit, n - 1, unit), base + Times(unit, n), unit);
    }
  }

  lemma NoSlots(lo: int, hi: int, unit: int)
    ensures Within([], lo, hi, unit) && Spaced([], unit)
  {
  }

  /** A cell before all others. */
  lemma FirstSlot(base: int, t: seq<int>, end: int, unit: int)
    requires unit > 0 && base + unit <= end && Within(t, base + unit, end, unit) && Spaced(t, unit)
    ensures var s := [base] + t;
            && Within(s, base, end, unit) && Spaced(s, unit)
            && (t == [] ==> Within(s, base, base + unit, unit))
            && (t != [] && Within(t, base + unit, t[|t| - 1] + unit, unit) ==> Within(s, base, t[|t| - 1] + unit, unit))
  {
    var s := [base] + t;
    assert s[0] == base && forall i :: 0 < i < |s| ==> s[i] == t[i - 1];
  }

  class Alloc {
    const unit: int
    const nmemb: nat
    var next: Links
    var freep: int
    var arenas: seq<int>
    ghost var free: seq<int>
    ghost var live: set<int>
    ghost var slots: seq<int>

    /** `size` bytes, rounded up to words of 16 bytes. */
    constructor (size: nat, nmemb: nat)
      requires size > 0 && nmemb > 0
      ensures Valid() && live == {} && arenas == [] && this.nmemb == nmemb
      ensures size <= 16 * unit < size + 16
    {
      unit := (size - 1) / 16 + 1;
      this.nmemb := nmemb;
      next, freep, arenas := map[], NULL, [];
      free, live, slots := [], {}, [];
    }

    /** The free list is acyclic; free and live cells are all the cells of the arenas, each
        one once, and no two cells overlap. */
    ghost predicate Valid()
      reads this
    {
      && unit > 0 && nmemb > 0
      && Linked(next, freep, free) && NoDup(free) && (forall c :: c in free ==> c !in live)
      && (forall c :: c in slots <==> c in free || c in live)
      && Spaced(slots, unit) && |slots| == Times(nmemb, |arenas|) == |free| + |live|
      && forall c :: c in slots ==> Inside(c, arenas, nmemb, unit)
    }

    /** A block of memory apart from all the arenas. */
    ghost predicate Apart(base: int)
      reads this
    {
      base > NULL && forall i :: 0 <= i < |arenas| ==>
        base + Times(unit, nmemb) <= arenas[i] || arenas[i] + Times(unit, nmemb) <= base
    }

    /** Carves a new arena into cells and links them all. */
    method NewArena(base: int)
      requires Valid() && freep == NULL && Apart(base)
      modifies this
      ensures Valid() && live == old(live) && freep == base && free == Slots(base, nmemb, unit)
      ensures arenas == [base] + old(arenas) && slots == old(slots) + Slots(base, nmemb, unit)
    {
      hide Times, Spaced, Within, NoDup, Slots, Linked, Inside;
      NothingFree(next, freep, free);
      next := LinkCells(base);
      ArenaAdded(slots, arenas, base, nmemb, unit);
      freep := base;
      free := Slots(base, nmemb, unit);
      slots := slots + free;
      arenas := [base] + arenas;
    }

    /** Links the cells of a new arena from the first to the last. */
    method LinkCells(base: int) returns (links: Links)
      requires unit > 0 && nmemb > 0 && base > NULL
      ensures Linked(links, base, Slots(base, nmemb, unit)) && NoDup(Slots(base, nmemb, unit))
    {
      hide Times, Spaced, Within, NoDup, Slots, Linked, LinkedUpTo;
      ghost var cells := Slots(base, nmemb, unit);
      SlotsWithin(base, nmemb, unit);
      links := next;
      NoneLinked(links, cells);
      var bp, k := base, 1;
      while k < nmemb
        invariant 1 <= k <= nmemb && bp == cells[k - 1]
        invariant LinkedUpTo(links, cells, k - 1)
        decreases nmemb - k
      {
        SlotStep(base, nmemb, unit, k - 1);
        LinkedMore(links, cells, unit, k - 1, bp + unit);
        links := links[bp := bp + unit];
        bp := bp + unit;
        k := k + 1;
      }
      LastLinked(links, cells, unit, base);
      links := links[bp := NULL];
    }

    /** A free cell; from a new arena at `base` if there is none. */
    method New(base: int) returns (p: int)
      requires Valid() && (freep == NULL ==> Apart(base))
      modifies this
      ensures Valid() && p != NULL && p !in old(live) && live == old(live) + {p}
      ensures old(slots) <= slots && p in slots
      ensures |arenas| == |old(arenas)| + (if old(freep) == NULL then 1 else 0)
    {
      hide Times, Spaced, Within, Slots;
      if freep == NULL {
        NewArena(base);
      }
      p := freep;
      NoDupTail(free);
      freep := next[p];
      free := free[1..];
      live := live + {p};
    }

    /** Gives a live cell back: it becomes the first of the free list. */
    method Delete(p: int)
      requires Valid() && p in live && p != NULL
      modifies this`next, this`freep, this`free, this`live
      ensures Valid() && live == old(live) - {p} && free == [p] + old(free)
    {
      hide Times, Spaced, Within, Slots, Linked;
      LinkedPush(next, freep, free, p);
      next := next[p := freep];
      freep := p;
      free := [p] + free;
      live := live - {p};
    }
  }

  lemma NothingFree(links: Links, p: int, chain: seq<int>)
    requires Linked(links, p, chain) && p == NULL
    ensures chain == []
  {
  }

  lemma {:induction false} SlotStep(base: int, n: nat, unit: int, i: nat)
    requires i + 1 < n
    ensures Slots(base, n, unit)[i + 1] == Slots(base, n, unit)[i] + unit
    decreases n
  {
    var s, t := Slots(base, n, unit), Slots(base + unit, n - 1, unit);
    assert s[i + 1] == t[i];
    if i > 0 {
      SlotStep(base + unit, n - 1, unit, i - 1);
      assert s[i] == t[i - 1];
    }
  }

  /** The first `k` cells are linked to the ones after them. */
  predicate LinkedUpTo(links: Links, cells: seq<int>, k: nat) {
    k < |cells| && forall i :: 0 <= i < k ==> cells[i] in links && links[cells[i]] == cells[i + 1]
  }

  lemma NoneLinked(links: Links, cells: seq<int>)
    requires cells != []
    ensures LinkedUpTo(links, cells, 0)
  {
  }

  lemma LinkedMore(links: Links, cells: seq<int>, unit: int, k: nat, c: int)
    requires LinkedUpTo(links, cells, k) && Spaced(cells, unit) && unit > 0 && k + 1 < |cells| && c == cells[k + 1]
    ensures LinkedUpTo(links[cells[k] := c], cells, k + 1)
  {
  }

  lemma LastLinked(links: Links, cells: seq<int>, unit: int, base: int)
    requires cells != [] && LinkedUpTo(links, cells, |cells| - 1) && Spaced(cells, unit) && unit > 0
    requires cells[0] == base && base > NULL && Within(cells, base, cells[|cells| - 1] + unit, unit)
    ensures Linked(links[cells[|cells| - 1] := NULL], base, cells) && NoDup(cells)
  {
    var links' := links[cells[|cells| - 1] := NULL];
    assert forall i :: 0 <= i < |cells| - 1 ==> cells[i] in links' && links'[cells[i]] == cells[i + 1];
    CellsChain(links', cells, 0);
    assert cells[0..] == cells;
  }

  lemma {:induction false} CellsChain(links: Links, cells: seq<int>, k: nat)
    requires k < |cells| && forall i :: 0 <= i < |cells| ==> cells[i] > NULL
    requires forall i :: 0 <= i < |cells| - 1 ==> cells[i] in links && links[cells[i]] == cells[i + 1]
    requires cells[|cells| - 1] in links && links[cells[|cells| - 1]] == NULL
    ensures Linked(links, cells[k], cells[k..])
    decreases |cells| - k
  {
    assert cells[k..][1..] == cells[k + 1..];
    if k + 1 < |cells| {
      CellsChain(links, cells, k + 1);
    }
  }

  /** Is this cell inside one of the arenas? */
  predicate Inside(c: int, arenas: seq<int>, n: nat, unit: int) {
    exists i :: 0 <= i < |arenas| && arenas[i] <= c && c + unit <= arenas[i] + Times(unit, n)
  }

  lemma ArenaAdded(slots: seq<int>, arenas: seq<int>, base: int, n: nat, unit: int)
    requires unit > 0 && Spaced(slots, unit) && |slots| == Times(n, |arenas|)
    requires forall c :: c in slots ==> Inside(c, arenas, n, unit)
    requires forall i :: 0 <= i < |arenas| ==> base + Times(unit, n) <= arenas[i] || arenas[i] + Times(unit, n) <= base
    ensures var cells, all := Slots(base, n, unit), slots + Slots(base, n, unit);
            && Spaced(all, unit) && |all| == Times(n, |arenas| + 1) && (forall c :: c in cells ==> c !in slots)
            && (forall c :: c in all ==> Inside(c, [base] + arenas, n, unit))
  {
    var cells, all := Slots(base, n, unit), slots + Slots(base, n, unit);
    hide Times, Slots, Spaced, Within, Inside;
    SlotsWithin(base, n, unit);
    OneMore(n, |arenas|);
    forall x, y | x in slots && y in cells ensures x + unit <= y || y + unit <= x {
      CellApart(x, y, cells, arenas, base, n, unit);
    }
    SpacedJoin(slots, cells, unit);
    forall c | c in all ensures Inside(c, [base] + arenas, n, unit) {
      InsideMore(c, cells, arenas, base, n, unit);
    }
  }

  lemma CellApart(x: int, y: int, cells: seq<int>, arenas: seq<int>, base: int, n: nat, unit: int)
    requires Inside(x, arenas, n, unit) && y in cells && Within(cells, base, base + Times(unit, n), unit)
    requires forall i :: 0 <= i < |arenas| ==> base + Times(unit, n) <= arenas[i] || arenas[i] + Times(unit, n) <= base
    ensures x + unit <= y || y + unit <= x
  {
    hide Times;
  }

  lemma SpacedJoin(s: seq<int>, t: seq<int>, unit: int)
    requires unit > 0 && Spaced(s, unit) && Spaced(t, unit)
    requires forall x, y :: x in s && y in t ==> x + unit <= y || y + unit <= x
    ensures Spaced(s + t, unit) && forall c :: c in t ==> c !in s
  {
    var all := s + t;
    forall i, j | 0 <= i < |all| && 0 <= j < |all| && i != j ensures all[i] + unit <= all[j] || all[j] + unit <= all[i] {
      if i < |s| && j >= |s| {
        assert all[i] in s && all[j] in t;
      } else if j < |s| && i >= |s| {
        assert all[j] in s && all[i] in t;
      } else if i >= |s| {
        assert all[i] == t[i - |s|] && all[j] == t[j - |s|];
      }
    }
  }

  lemma NoneYet(n: int)
    ensures Times(n, 0) == 0
  {
  }

  lemma OneMore(n: nat, k: nat)
    ensures Times(n, k + 1) == Times(n, k) + n && Times(n, k) >= 0
  {
  }

  lemma InsideMore(c: int, cells: seq<int>, arenas: seq<int>, base: int, n: nat, unit: int)
    requires Inside(c, arenas, n, unit) || (c in cells && Within(cells, base, base + Times(unit, n), unit))
    ensures Inside(c, [base] + arenas, n, unit)
  {
    hide Times;
    var more := [base] + arenas;
    if Inside(c, arenas, n, unit) {
      var i :| 0 <= i < |arenas| && arenas[i] <= c && c + unit <= arenas[i] + Times(unit, n);
      assert more[i + 1] == arenas[i];
    } else {
      assert more[0] == base;
    }
  }
}
