/** `qsort`: partition around the middle element, the smaller part first.  The code reads
    the length of the left part from a variable that has no value yet; what it finds there
    is a parameter here. */
module QSort {
  import opened Bits
  import opened FoldArith

  /** The comparison function of the caller. */
  type Order<!T> = (T, T) -> int

  /** What a sort asks of it: a total preorder. */
  ghost predicate Preorder<T(!new)>(cmp: Order<T>) {
    && (forall x, y :: cmp(x, y) < 0 <==> cmp(y, x) > 0)
    && (forall x, y, z :: cmp(x, y) <= 0 && cmp(y, z) <= 0 ==> cmp(x, z) <= 0)
  }

  ghost predicate Below<T>(s: seq<T>, lo: nat, hi: nat, cmp: Order<T>, v: T) {
    forall k :: lo <= k < hi && k < |s| ==> cmp(s[k], v) <= 0
  }

  ghost predicate Above<T>(s: seq<T>, lo: nat, hi: nat, cmp: Order<T>, v: T) {
    forall k :: lo <= k < hi && k < |s| ==> cmp(s[k], v) >= 0
  }

  ghost predicate Sorted<T>(s: seq<T>, lo: nat, hi: nat, cmp: Order<T>) {
    forall i, j :: lo <= i < j < hi && j < |s| ==> cmp(s[i], s[j]) <= 0
  }

  /** The elements of a range in another order, all others where they were. */
  ghost predicate Permuted<T>(s: seq<T>, t: seq<T>, lo: nat, hi: nat) {
    && lo <= hi <= |s| == |t| && multiset(s[lo..hi]) == multiset(t[lo..hi])
    && forall k :: 0 <= k < |s| && !(lo <= k < hi) ==> s[k] == t[k]
  }

  // What the code computes

  function Exchange<T>(s: seq<T>, i: nat, j: nat): (t: seq<T>)
    requires i < |s| && j < |s|
    ensures |t| == |s|
  {
    s[i := s[j]][j := s[i]]
  }

  /** From `i` up to the first element that is not below `v`, or to the end. */
  function UpFrom<T>(s: seq<T>, i: nat, hi: nat, cmp: Order<T>, v: T): (e: nat)
    requires i < hi <= |s|
    ensures i < e <= hi
    decreases hi - i
  {
    if i + 1 < hi && cmp(s[i + 1], v) < 0 then UpFrom(s, i + 1, hi, cmp, v) else i + 1
  }

  /** From `j` down to the last element that is not above `v`, or to the pivot. */
  function DownFrom<T>(s: seq<T>, j: nat, lo: nat, cmp: Order<T>, v: T): (e: nat)
    requires lo < j <= |s|
    ensures lo <= e < j
  {
    if j - 1 > lo && cmp(s[j - 1], v) > 0 then DownFrom(s, j - 1, lo, cmp, v) else j - 1
  }

  /** The exchanges until the scans cross, and where the second one ends. */
  function Crossed<T>(s: seq<T>, lo: nat, i: nat, j: nat, hi: nat, cmp: Order<T>): (r: (seq<T>, nat))
    requires lo <= i <= j <= hi <= |s| && lo < j && i < hi
    ensures |r.0| == |s| && lo <= r.1 < hi
    decreases j - i
  {
    var i', j' := UpFrom(s, i, hi, cmp, s[lo]), DownFrom(s, j, lo, cmp, s[lo]);
    if j' < i' then (s, j') else Crossed(Exchange(s, i', j'), lo, i', j', hi, cmp)
  }

  /** The range after its partition, and where its pivot is. */
  function Split<T>(s: seq<T>, lo: nat, n: nat, cmp: Order<T>): (r: (seq<T>, nat))
    requires n >= 2 && lo + n <= |s|
    ensures |r.0| == |s| && lo <= r.1 < lo + n
  {
    var (t, j) := Crossed(Exchange(s, lo, lo + n / 2), lo, lo, lo + n, lo + n, cmp);
    (Exchange(t, lo, j), j)
  }

  /** What the variable holds that the code reads for the length of the left part, by the
      range sorted and the length that is right: `slot(lo, n, ni)`. */
  type Slot = (nat, nat, nat) -> nat

  /** The length that the code computes from it for the right part. */
  function Rest(n: nat, v: nat): nat {
    Mod(n - v - 1, WORD)
  }

  /** How a run ends: a call for memory past its range, or elements in a new order and the
      depth of nested calls but the last of each. */
  datatype Outcome<T> = Leaves | Done(s: seq<T>, depth: nat)

  function Max(a: nat, b: nat): nat {
    if a < b then b else a
  }

  function Sort<T>(s: seq<T>, lo: nat, n: nat, cmp: Order<T>, slot: Slot): (r: Outcome<T>)
    requires n <= 1 || lo + n <= |s|
    ensures r.Done? ==> |r.s| == |s|
    decreases n, 1
  {
    if n <= 1 then Done(s, 0)
    else
      var (t, p) := Split(s, lo, n, cmp);
      var nj := Rest(n, slot(lo, n, p - lo));
      if nj > 1 && p + 1 + nj > lo + n then Leaves
      else Parts(t, lo, p, nj, n, cmp, slot)
  }

  /** Sorts the two parts of a range around its pivot, the smaller one first. */
  function Parts<T>(s: seq<T>, lo: nat, p: nat, nj: nat, n: nat, cmp: Order<T>, slot: Slot): (r: Outcome<T>)
    requires lo <= p < lo + n <= |s| && n >= 2 && (nj <= 1 || p + 1 + nj <= lo + n)
    ensures r.Done? ==> |r.s| == |s|
    decreases n, 0, 1
  {
    if p - lo < nj then Both(s, lo, p - lo, p + 1, nj, n, cmp, slot) else Both(s, p + 1, nj, lo, p - lo, n, cmp, slot)
  }

  /** Two ranges, the second one in the last call. */
  function Both<T>(s: seq<T>, x: nat, nx: nat, y: nat, ny: nat, n: nat, cmp: Order<T>, slot: Slot): (r: Outcome<T>)
    requires (nx <= 1 || x + nx <= |s|) && (ny <= 1 || y + ny <= |s|) && nx < n && ny < n
    ensures r.Done? ==> |r.s| == |s|
    decreases n, 0, 0
  {
    match Sort(s, x, nx, cmp, slot)
    case Leaves => Leaves
    case Done(t, d) =>
      match Sort(t, y, ny, cmp, slot)
      case Leaves => Leaves
      case Done(u, e) => Done(u, Max(1 + d, e))
  }

  // Permutations

  lemma PermutedItself<T>(s: seq<T>, lo: nat, hi: nat)
    requires lo <= hi <= |s|
    ensures Permuted(s, s, lo, hi)
  {
  }

  lemma PermutedTwice<T>(s: seq<T>, t: seq<T>, u: seq<T>, lo: nat, hi: nat)
    requires Permuted(s, t, lo, hi) && Permuted(t, u, lo, hi)
    ensures Permuted(s, u, lo, hi)
  {
  }

  lemma PermutedWider<T>(s: seq<T>, t: seq<T>, x: nat, y: nat, lo: nat, hi: nat)
    requires Permuted(s, t, x, y) && lo <= x && y <= hi <= |s|
    ensures Permuted(s, t, lo, hi)
  {
    assert s[lo..hi] == s[lo..x] + s[x..y] + s[y..hi] && t[lo..hi] == t[lo..x] + t[x..y] + t[y..hi];
    assert s[lo..x] == t[lo..x] && s[y..hi] == t[y..hi];
  }

  lemma Exchanged<T>(s: seq<T>, i: nat, j: nat, lo: nat, hi: nat)
    requires lo <= i < hi && lo <= j < hi <= |s|
    ensures Permuted(s, Exchange(s, i, j), lo, hi)
  {
    var r, t := s[lo..hi], Exchange(s, i, j);
    assert t[lo..hi] == r[i - lo := r[j - lo]][j - lo := r[i - lo]];
  }

  lemma BelowPermuted<T>(s: seq<T>, t: seq<T>, lo: nat, hi: nat, cmp: Order<T>, v: T)
    requires Permuted(s, t, lo, hi) && Below(s, lo, hi, cmp, v)
    ensures Below(t, lo, hi, cmp, v)
  {
    forall k | lo <= k < hi ensures cmp(t[k], v) <= 0 {
      assert t[lo..hi][k - lo] in multiset(s[lo..hi]);
      var m :| 0 <= m < hi - lo && s[lo..hi][m] == t[k];
      assert s[lo + m] == t[k];
    }
  }

  lemma AbovePermuted<T>(s: seq<T>, t: seq<T>, lo: nat, hi: nat, cmp: Order<T>, v: T)
    requires Permuted(s, t, lo, hi) && Above(s, lo, hi, cmp, v)
    ensures Above(t, lo, hi, cmp, v)
  {
    forall k | lo <= k < hi ensures cmp(t[k], v) >= 0 {
      assert t[lo..hi][k - lo] in multiset(s[lo..hi]);
      var m :| 0 <= m < hi - lo && s[lo..hi][m] == t[k];
      assert s[lo + m] == t[k];
    }
  }

  /** A range that the permutation of another one does not touch. */
  lemma Untouched<T>(s: seq<T>, t: seq<T>, x: nat, y: nat, lo: nat, hi: nat, cmp: Order<T>, v: T)
    requires Permuted(s, t, x, y) && (hi <= x || y <= lo) && hi <= |s|
    ensures Below(s, lo, hi, cmp, v) ==> Below(t, lo, hi, cmp, v)
    ensures Above(s, lo, hi, cmp, v) ==> Above(t, lo, hi, cmp, v)
    ensures Sorted(s, lo, hi, cmp) ==> Sorted(t, lo, hi, cmp)
  {
  }

  lemma SameAt<T>(s: seq<T>, t: seq<T>, x: nat, y: nat, k: nat)
    requires Permuted(s, t, x, y) && k < |s| && !(x <= k < y)
    ensures k < |t| && s[k] == t[k]
  {
  }

  lemma SameLength<T>(s: seq<T>, t: seq<T>, lo: nat, hi: nat)
    requires Permuted(s, t, lo, hi)
    ensures |s| == |t|
  {
  }

  // The partition

  lemma {:induction false} UpFromStops<T>(s: seq<T>, i: nat, hi: nat, cmp: Order<T>, v: T)
    requires i < hi <= |s|
    ensures var e := UpFrom(s, i, hi, cmp, v);
            (e < hi ==> cmp(s[e], v) >= 0) && forall k :: i < k < e ==> cmp(s[k], v) < 0
    decreases hi - i
  {
    if i + 1 < hi && cmp(s[i + 1], v) < 0 {
      UpFromStops(s, i + 1, hi, cmp, v);
    }
  }

  lemma {:induction false} DownFromStops<T>(s: seq<T>, j: nat, lo: nat, cmp: Order<T>, v: T)
    requires lo < j <= |s|
    ensures var e := DownFrom(s, j, lo, cmp, v);
            (e > lo ==> cmp(s[e], v) <= 0) && forall k :: e < k < j ==> cmp(s[k], v) > 0
  {
    if j - 1 > lo && cmp(s[j - 1], v) > 0 {
      DownFromStops(s, j - 1, lo, cmp, v);
    }
  }

  /** One exchange: what the scans passed is on its side of the pivot. */
  lemma Advanced<T>(s: seq<T>, lo: nat, i: nat, j: nat, hi: nat, cmp: Order<T>)
    requires lo <= i <= j <= hi <= |s| && lo < j && i < hi
    requires Below(s, lo + 1, i + 1, cmp, s[lo]) && Above(s, j, hi, cmp, s[lo])
    ensures var i', j' := UpFrom(s, i, hi, cmp, s[lo]), DownFrom(s, j, lo, cmp, s[lo]);
            if j' < i' then
              && Below(s, lo + 1, j' + 1, cmp, s[lo]) && Above(s, j' + 1, hi, cmp, s[lo])
              && (j' > lo ==> cmp(s[j'], s[lo]) <= 0)
            else
              var t := Exchange(s, i', j');
              t[lo] == s[lo] && Below(t, lo + 1, i' + 1, cmp, t[lo]) && Above(t, j', hi, cmp, t[lo])
  {
    UpFromStops(s, i, hi, cmp, s[lo]);
    DownFromStops(s, j, lo, cmp, s[lo]);
  }

  /** Where the scans crossed, everything before is not above the pivot, and everything after
      is not below it. */
  lemma {:induction false} CrossedKeeps<T>(s: seq<T>, lo: nat, i: nat, j: nat, hi: nat, cmp: Order<T>)
    requires lo <= i <= j <= hi <= |s| && lo < j && i < hi
    requires Below(s, lo + 1, i + 1, cmp, s[lo]) && Above(s, j, hi, cmp, s[lo])
    ensures var (t, p) := Crossed(s, lo, i, j, hi, cmp);
            && Permuted(s, t, lo, hi) && (p > lo ==> cmp(t[p], t[lo]) <= 0)
            && Below(t, lo + 1, p + 1, cmp, t[lo]) && Above(t, p + 1, hi, cmp, t[lo])
    decreases j - i
  {
    hide Permuted, Below, Above, Exchange, UpFrom, DownFrom;
    var i', j' := UpFrom(s, i, hi, cmp, s[lo]), DownFrom(s, j, lo, cmp, s[lo]);
    Advanced(s, lo, i, j, hi, cmp);
    if j' < i' {
      PermutedItself(s, lo, hi);
    } else {
      var t := Exchange(s, i', j');
      Exchanged(s, i', j', lo, hi);
      CrossedKeeps(t, lo, i', j', hi, cmp);
      PermutedTwice(s, t, Crossed(t, lo, i', j', hi, cmp).0, lo, hi);
    }
  }

  /** The pivot goes where the scans crossed. */
  lemma Placed<T>(s: seq<T>, lo: nat, p: nat, hi: nat, cmp: Order<T>)
    requires lo <= p < hi <= |s| && (p > lo ==> cmp(s[p], s[lo]) <= 0)
    requires Below(s, lo + 1, p + 1, cmp, s[lo]) && Above(s, p + 1, hi, cmp, s[lo])
    ensures var t := Exchange(s, lo, p); Below(t, lo, p, cmp, t[p]) && Above(t, p + 1, hi, cmp, t[p])
  {
  }

  lemma NothingSplit<T>(s: seq<T>, lo: nat, hi: nat, cmp: Order<T>, v: T)
    ensures Below(s, lo + 1, lo + 1, cmp, v) && Above(s, hi, hi, cmp, v)
  {
  }

  /** The scans from the two ends of a range, and the exchange after them. */
  lemma CrossedPlaced<T>(s: seq<T>, lo: nat, hi: nat, cmp: Order<T>)
    requires lo < hi <= |s|
    ensures var r := Crossed(s, lo, lo, hi, hi, cmp);
            var t := Exchange(r.0, lo, r.1);
            Permuted(s, t, lo, hi) && Below(t, lo, r.1, cmp, t[r.1]) && Above(t, r.1 + 1, hi, cmp, t[r.1])
  {
    hide Permuted, Below, Above, Exchange, Crossed;
    var r := Crossed(s, lo, lo, hi, hi, cmp);
    NothingSplit(s, lo, hi, cmp, s[lo]);
    CrossedKeeps(s, lo, lo, hi, hi, cmp);
    Placed(r.0, lo, r.1, hi, cmp);
    Exchanged(r.0, lo, r.1, lo, hi);
    PermutedTwice(s, r.0, Exchange(r.0, lo, r.1), lo, hi);
  }

  lemma SplitForm<T>(s: seq<T>, lo: nat, n: nat, cmp: Order<T>)
    requires n >= 2 && lo + n <= |s|
    ensures var c := Crossed(Exchange(s, lo, lo + n / 2), lo, lo, lo + n, lo + n, cmp);
            Split(s, lo, n, cmp) == (Exchange(c.0, lo, c.1), c.1)
  {
    hide Exchange, Crossed;
  }

  /** A partition permutes the range, with nothing above its pivot before it and nothing
      below after it, whatever the comparison does. */
  lemma {:induction false} SplitKeeps<T>(s: seq<T>, lo: nat, n: nat, cmp: Order<T>)
    requires n >= 2 && lo + n <= |s|
    ensures var r := Split(s, lo, n, cmp);
            && Permuted(s, r.0, lo, lo + n)
            && Below(r.0, lo, r.1, cmp, r.0[r.1]) && Above(r.0, r.1 + 1, lo + n, cmp, r.0[r.1])
  {
    hide Permuted, Below, Above, Exchange, Crossed, Split;
    var m := lo + n / 2;
    var s1, r := Exchange(s, lo, m), Split(s, lo, n, cmp);
    SplitForm(s, lo, n, cmp);
    CrossedPlaced(s1, lo, lo + n, cmp);
    Exchanged(s, lo, m, lo, lo + n);
    PermutedTwice(s, s1, r.0, lo, lo + n);
  }

  /** Permuting the left part of a partitioned range, then some of the right part. */
  lemma LeftThenRight<T>(s: seq<T>, t: seq<T>, u: seq<T>, lo: nat, p: nat, m: nat, hi: nat, cmp: Order<T>)
    requires lo <= p < m <= hi <= |s| && Permuted(s, t, lo, p) && Permuted(t, u, p + 1, m)
    requires Below(s, lo, p, cmp, s[p]) && Above(s, p + 1, m, cmp, s[p])
    ensures Permuted(s, u, lo, hi) && u[p] == s[p]
    ensures Below(u, lo, p, cmp, s[p]) && Above(u, p + 1, m, cmp, s[p])
    ensures Sorted(t, lo, p, cmp) ==> Sorted(u, lo, p, cmp)
  {
    hide Permuted, Below, Above, Sorted;
    var v := s[p];
    SameAt(s, t, lo, p, p);
    SameAt(t, u, p + 1, m, p);
    PermutedWider(s, t, lo, p, lo, hi);
    SameLength(s, t, lo, p);
    PermutedWider(t, u, p + 1, m, lo, hi);
    PermutedTwice(s, t, u, lo, hi);
    BelowPermuted(s, t, lo, p, cmp, v);
    Untouched(t, u, p + 1, m, lo, p, cmp, v);
    Untouched(s, t, lo, p, p + 1, m, cmp, v);
    AbovePermuted(t, u, p + 1, m, cmp, v);
  }

  /** Permuting some of the right part first. */
  lemma RightThenLeft<T>(s: seq<T>, t: seq<T>, u: seq<T>, lo: nat, p: nat, m: nat, hi: nat, cmp: Order<T>)
    requires lo <= p < m <= hi <= |s| && Permuted(s, t, p + 1, m) && Permuted(t, u, lo, p)
    requires Below(s, lo, p, cmp, s[p]) && Above(s, p + 1, m, cmp, s[p])
    ensures Permuted(s, u, lo, hi) && u[p] == s[p]
    ensures Below(u, lo, p, cmp, s[p]) && Above(u, p + 1, m, cmp, s[p])
    ensures Sorted(t, p + 1, m, cmp) ==> Sorted(u, p + 1, m, cmp)
  {
    hide Permuted, Below, Above, Sorted;
    var v := s[p];
    SameAt(s, t, p + 1, m, p);
    SameAt(t, u, lo, p, p);
    PermutedWider(s, t, p + 1, m, lo, hi);
    SameLength(s, t, p + 1, m);
    PermutedWider(t, u, lo, p, lo, hi);
    PermutedTwice(s, t, u, lo, hi);
    Untouched(s, t, p + 1, m, lo, p, cmp, v);
    BelowPermuted(t, u, lo, p, cmp, v);
    AbovePermuted(s, t, p + 1, m, cmp, v);
    Untouched(t, u, lo, p, p + 1, m, cmp, v);
  }

  // Runs of the sort

  /** One more call on at most half of the rest. */
  lemma DepthBound(small: nat, large: nat, n: nat, ds: nat, dl: nat)
    requires small <= large && small + large < n && Pow2(ds) <= small + 1 && Pow2(dl) <= large + 1
    ensures Pow2(Max(1 + ds, dl)) <= n + 1
  {
    assert Pow2(1 + ds) == 2 * Pow2(ds);
  }

  lemma ShortDone<T>(s: seq<T>, lo: nat, n: nat, cmp: Order<T>, slot: Slot)
    requires n <= 1
    ensures Sort(s, lo, n, cmp, slot) == Done(s, 0) && Sorted(s, lo, lo + n, cmp) && Pow2(0) == 1
    ensures lo + n <= |s| ==> Permuted(s, s, lo, lo + n)
  {
  }

  /** The part of the right side that a call sorts; one element alone is not touched. */
  function Reach(nj: nat): nat {
    if nj <= 1 then 0 else nj
  }

  ghost predicate Keeps<T>(s: seq<T>, r: Outcome<T>, lo: nat, n: nat) {
    r.Done? ==> Permuted(s, r.s, lo, lo + n) && Pow2(r.depth) <= n + 1
  }

  /** Whatever the comparison and the variable are, a run that stays in its range permutes
      it, and nests no deeper than the logarithm. */
  lemma {:induction false} SortKeeps<T>(s: seq<T>, lo: nat, n: nat, cmp: Order<T>, slot: Slot)
    requires lo + n <= |s|
    ensures Keeps(s, Sort(s, lo, n, cmp, slot), lo, n)
    decreases n, 1
  {
    hide Permuted, Below, Above, Sorted, Pow2, Split;
    if n <= 1 {
      ShortDone(s, lo, n, cmp, slot);
    } else {
      var (t, p) := Split(s, lo, n, cmp);
      SplitKeeps(s, lo, n, cmp);
      var nj := Rest(n, slot(lo, n, p - lo));
      if nj <= 1 || p + 1 + nj <= lo + n {
        PartsKeep(t, lo, p, nj, n, cmp, slot);
        var r := Sort(s, lo, n, cmp, slot);
        if r.Done? {
          PermutedTwice(s, t, r.s, lo, lo + n);
        }
      }
    }
  }

  lemma {:induction false} PartsKeep<T>(s: seq<T>, lo: nat, p: nat, nj: nat, n: nat, cmp: Order<T>, slot: Slot)
    requires lo <= p < lo + n <= |s| && n >= 2 && (nj <= 1 || p + 1 + nj <= lo + n)
    requires Below(s, lo, p, cmp, s[p]) && Above(s, p + 1, lo + n, cmp, s[p])
    ensures Keeps(s, Parts(s, lo, p, nj, n, cmp, slot), lo, n)
    decreases n, 0
  {
    hide Permuted, Below, Above, Sorted, Pow2, Sort;
    var ni, r, m := p - lo, p + 1, p + 1 + Reach(nj);
    AbovePart(s, r, m, lo + n, cmp, s[p]);
    if ni < nj {
      SortKeeps(s, lo, ni, cmp, slot);
      var a := Sort(s, lo, ni, cmp, slot);
      if a.Done? {
        RightKeeps(a.s, r, nj, cmp, slot);
        var b := Sort(a.s, r, nj, cmp, slot);
        if b.Done? {
          LeftThenRight(s, a.s, b.s, lo, p, m, lo + n, cmp);
          DepthBound(ni, Reach(nj), n, a.depth, b.depth);
        }
      }
    } else {
      RightKeeps(s, r, nj, cmp, slot);
      var a := Sort(s, r, nj, cmp, slot);
      if a.Done? {
        SortKeeps(a.s, lo, ni, cmp, slot);
        var b := Sort(a.s, lo, ni, cmp, slot);
        if b.Done? {
          RightThenLeft(s, a.s, b.s, lo, p, m, lo + n, cmp);
          DepthBound(Reach(nj), ni, n, a.depth, b.depth);
        }
      }
    }
  }

  lemma {:induction false} RightKeeps<T>(s: seq<T>, r: nat, nj: nat, cmp: Order<T>, slot: Slot)
    requires r + Reach(nj) <= |s|
    ensures var b := Sort(s, r, nj, cmp, slot);
            b.Done? ==> Permuted(s, b.s, r, r + Reach(nj)) && Pow2(b.depth) <= Reach(nj) + 1
    decreases nj, 2
  {
    hide Permuted, Pow2;
    if nj <= 1 {
      ShortDone(s, r, nj, cmp, slot);
      PermutedItself(s, r, r);
    } else {
      SortKeeps(s, r, nj, cmp, slot);
    }
  }

  lemma AbovePart<T>(s: seq<T>, lo: nat, m: nat, hi: nat, cmp: Order<T>, v: T)
    requires Above(s, lo, hi, cmp, v) && m <= hi
    ensures Above(s, lo, m, cmp, v)
  {
  }

  // What the variable must hold

  /** The value leaves a run in its range: at most the right part, or one element, which is
      not touched. */
  predicate InRange(v: nat, n: nat, ni: nat) {
    ni < n && Reach(Rest(n, v)) <= n - ni - 1
  }

  /** The value makes the run sort the whole right part. */
  predicate Right(v: nat, n: nat, ni: nat) {
    ni < n && Reach(Rest(n, v)) == Reach(n - ni - 1)
  }

  ghost predicate AllFit(slot: Slot) {
    forall lo: nat, n: nat, ni: nat {:trigger slot(lo, n, ni)} :: 2 <= n && lo + n < WORD && ni < n ==> InRange(slot(lo, n, ni), n, ni)
  }

  ghost predicate AllRight(slot: Slot) {
    forall lo: nat, n: nat, ni: nat {:trigger slot(lo, n, ni)} :: 2 <= n && lo + n < WORD && ni < n ==> Right(slot(lo, n, ni), n, ni)
  }

  /** The two conditions as a caller would check them: between the true length and the end,
      or so close to the end that one element is left. */
  lemma {:induction false} ConditionsMean(v: nat, n: nat, ni: nat)
    requires v < WORD && 2 <= n < WORD && ni < n
    ensures InRange(v, n, ni) <==> v < n && (ni <= v || v == n - 2)
    ensures Right(v, n, ni) <==> v == ni || (n - 2 <= v < n && n - 2 <= ni)
  {
    if v < n {
      ModUnique(n - v - 1, WORD, 0, n - v - 1);
    } else {
      ModUnique(n - v - 1, WORD, -1, WORD + n - v - 1);
    }
  }

  /** The length that the code means to use is right, and right values stay in the range. */
  lemma {:induction false} IntendedRight(slot: Slot)
    ensures (forall lo: nat, n: nat, ni: nat :: 2 <= n && lo + n < WORD && ni < n ==> slot(lo, n, ni) == ni) ==> AllRight(slot)
    ensures (forall lo: nat, n: nat, ni: nat :: 2 <= n && lo + n < WORD && ni < n ==> ni <= slot(lo, n, ni) < n) ==> AllFit(slot)
    ensures AllRight(slot) ==> AllFit(slot)
  {
    hide InRange, Right;
    forall lo: nat, n: nat, ni: nat | 2 <= n && lo + n < WORD && ni < n
      ensures slot(lo, n, ni) == ni ==> Right(slot(lo, n, ni), n, ni)
      ensures ni <= slot(lo, n, ni) < n ==> InRange(slot(lo, n, ni), n, ni)
      ensures Right(slot(lo, n, ni), n, ni) ==> InRange(slot(lo, n, ni), n, ni)
    {
      if slot(lo, n, ni) < n {
        ConditionsMean(slot(lo, n, ni), n, ni);
      }
      RightInRange(slot(lo, n, ni), n, ni);
    }
  }

  lemma RightInRange(v: nat, n: nat, ni: nat)
    ensures Right(v, n, ni) ==> InRange(v, n, ni)
  {
  }

  /** A run stays in its range if all values fit. */
  lemma {:induction false} SortStays<T>(s: seq<T>, lo: nat, n: nat, cmp: Order<T>, slot: Slot)
    requires lo + n <= |s| < WORD && AllFit(slot)
    ensures Sort(s, lo, n, cmp, slot).Done?
    decreases n, 1
  {
    hide AllFit, Split;
    if n > 1 {
      var r := Split(s, lo, n, cmp);
      FitAt(slot, lo, n, r.1 - lo);
      PartsStay(r.0, lo, r.1, Rest(n, slot(lo, n, r.1 - lo)), n, cmp, slot);
    }
  }

  lemma FitAt(slot: Slot, lo: nat, n: nat, ni: nat)
    requires AllFit(slot) && 2 <= n && lo + n < WORD && ni < n
    ensures InRange(slot(lo, n, ni), n, ni)
  {
  }

  lemma RightAt(slot: Slot, lo: nat, n: nat, ni: nat)
    requires AllRight(slot) && 2 <= n && lo + n < WORD && ni < n
    ensures Right(slot(lo, n, ni), n, ni)
  {
  }

  lemma {:induction false} PartsStay<T>(s: seq<T>, lo: nat, p: nat, nj: nat, n: nat, cmp: Order<T>, slot: Slot)
    requires lo <= p < lo + n <= |s| < WORD && 2 <= n && p + 1 + Reach(nj) <= lo + n && AllFit(slot)
    ensures Parts(s, lo, p, nj, n, cmp, slot).Done?
    decreases n, 0
  {
    hide AllFit, Sort;
    var ni, r := p - lo, p + 1;
    if ni < nj {
      SortStays(s, lo, ni, cmp, slot);
      RightStays(Sort(s, lo, ni, cmp, slot).s, r, nj, cmp, slot);
    } else {
      RightStays(s, r, nj, cmp, slot);
      SortStays(Sort(s, r, nj, cmp, slot).s, lo, ni, cmp, slot);
    }
  }

  lemma {:induction false} RightStays<T>(s: seq<T>, r: nat, nj: nat, cmp: Order<T>, slot: Slot)
    requires r + Reach(nj) <= |s| < WORD && AllFit(slot)
    ensures Sort(s, r, nj, cmp, slot).Done?
    decreases nj, 2
  {
    hide AllFit;
    if nj > 1 {
      SortStays(s, r, nj, cmp, slot);
    }
  }

  lemma SortedAround<T(!new)>(s: seq<T>, lo: nat, p: nat, hi: nat, cmp: Order<T>)
    requires lo <= p < hi <= |s| && Preorder(cmp) && Sorted(s, lo, p, cmp) && Sorted(s, p + 1, hi, cmp)
    requires Below(s, lo, p, cmp, s[p]) && Above(s, p + 1, hi, cmp, s[p])
    ensures Sorted(s, lo, hi, cmp)
  {
    var v := s[p];
    forall i, j | lo <= i < j < hi ensures cmp(s[i], s[j]) <= 0 {
      if i <= p <= j {
        assert i < p ==> cmp(s[i], v) <= 0;
        assert j > p ==> cmp(v, s[j]) <= 0;
      }
    }
  }

  lemma ShortSorted<T>(s: seq<T>, lo: nat, hi: nat, cmp: Order<T>)
    requires hi <= lo + 1
    ensures Sorted(s, lo, hi, cmp)
  {
  }

  /** With the right values a run sorts its range, for every total preorder. */
  lemma {:induction false} SortOrders<T(!new)>(s: seq<T>, lo: nat, n: nat, cmp: Order<T>, slot: Slot)
    requires lo + n <= |s| < WORD && AllRight(slot) && Preorder(cmp)
    ensures var r := Sort(s, lo, n, cmp, slot); r.Done? && Sorted(r.s, lo, lo + n, cmp)
    decreases n, 1
  {
    hide AllRight, Split, Sorted, Below, Above, Permuted, Preorder;
    if n <= 1 {
      ShortSorted(s, lo, lo + n, cmp);
    } else {
      var r := Split(s, lo, n, cmp);
      SplitKeeps(s, lo, n, cmp);
      RightAt(slot, lo, n, r.1 - lo);
      PartsOrder(r.0, lo, r.1, Rest(n, slot(lo, n, r.1 - lo)), n, cmp, slot);
    }
  }

  lemma {:induction false} PartsOrder<T(!new)>(s: seq<T>, lo: nat, p: nat, nj: nat, n: nat, cmp: Order<T>, slot: Slot)
    requires lo <= p < lo + n <= |s| < WORD && 2 <= n && AllRight(slot) && Preorder(cmp)
    requires Reach(nj) == Reach(lo + n - p - 1)
    requires Below(s, lo, p, cmp, s[p]) && Above(s, p + 1, lo + n, cmp, s[p])
    ensures var r := Parts(s, lo, p, nj, n, cmp, slot); r.Done? && Sorted(r.s, lo, lo + n, cmp)
    decreases n, 0
  {
    hide AllRight, Sort, Sorted, Below, Above, Permuted, Pow2, Preorder;
    var ni, r, hi := p - lo, p + 1, lo + n;
    if ni < nj {
      SortOrders(s, lo, ni, cmp, slot);
      SortKeeps(s, lo, ni, cmp, slot);
      var t := Sort(s, lo, ni, cmp, slot).s;
      RightOrders(t, r, nj, hi, cmp, slot);
      var u := Sort(t, r, nj, cmp, slot).s;
      LeftThenRight(s, t, u, lo, p, hi, hi, cmp);
      SortedAround(u, lo, p, hi, cmp);
    } else {
      RightOrders(s, r, nj, hi, cmp, slot);
      var t := Sort(s, r, nj, cmp, slot).s;
      SortOrders(t, lo, ni, cmp, slot);
      SortKeeps(t, lo, ni, cmp, slot);
      var u := Sort(t, lo, ni, cmp, slot).s;
      RightThenLeft(s, t, u, lo, p, hi, hi, cmp);
      SortedAround(u, lo, p, hi, cmp);
    }
  }

  lemma {:induction false} RightOrders<T(!new)>(s: seq<T>, r: nat, nj: nat, hi: nat, cmp: Order<T>, slot: Slot)
    requires r <= hi <= |s| < WORD && Reach(nj) == Reach(hi - r) && AllRight(slot) && Preorder(cmp)
    ensures var b := Sort(s, r, nj, cmp, slot);
            b.Done? && Sorted(b.s, r, hi, cmp) && Permuted(s, b.s, r, hi)
    decreases nj, 2
  {
    hide AllRight, Sorted, Permuted, Pow2, Preorder;
    if nj <= 1 {
      ShortSorted(s, r, hi, cmp);
      PermutedItself(s, r, hi);
    } else {
      SortOrders(s, r, nj, cmp, slot);
      SortKeeps(s, r, nj, cmp, slot);
    }
  }

  /** The order of the numbers. */
  function Difference(x: int, y: int): int {
    x - y
  }

  ghost predicate SortsOut(s: seq<int>, lo: nat, n: nat, slot: Slot)
    requires lo + n <= |s|
  {
    var r := Sort(s, lo, n, Difference, slot);
    r.Done? && Sorted(r.s, lo, lo + n, Difference)
  }

  /** From `lo` on the pivot `ni`, what is below it rising, what is above it falling. */
  function HardAt(lo: nat, n: nat, ni: nat, x: nat): int {
    if x <= lo then ni else if x <= lo + ni then x - lo - 1 else n + ni - (x - lo)
  }

  /** After the first exchange of its partition, the range is like that. */
  ghost predicate IsHard(s: seq<int>, lo: nat, n: nat, ni: nat) {
    && ni < n && lo + n <= |s|
    && forall x: nat :: lo <= x < lo + n ==> Exchange(s, lo, lo + n / 2)[x] == HardAt(lo, n, ni, x)
  }

  /** The whole range of such a sort. */
  function Hard(n: nat, ni: nat): (s: seq<int>)
    requires ni < n
    ensures |s| == n
  {
    Exchange(seq(n, x requires 0 <= x < n => HardAt(0, n, ni, x)), 0, n / 2)
  }

  lemma HardIsHard(n: nat, ni: nat)
    requires ni < n
    ensures IsHard(Hard(n, ni), 0, n, ni)
  {
  }

  lemma {:induction false} UpFromTo<T>(s: seq<T>, i: nat, e: nat, hi: nat, cmp: Order<T>, v: T)
    requires i < e <= hi <= |s| && (e < hi ==> cmp(s[e], v) >= 0) && forall k :: i < k < e ==> cmp(s[k], v) < 0
    ensures UpFrom(s, i, hi, cmp, v) == e
    decreases hi - i
  {
    if i + 1 < e {
      UpFromTo(s, i + 1, e, hi, cmp, v);
    }
  }

  lemma {:induction false} DownFromTo<T>(s: seq<T>, j: nat, e: nat, lo: nat, cmp: Order<T>, v: T)
    requires lo <= e < j <= |s| && (e > lo ==> cmp(s[e], v) <= 0) && forall k :: e < k < j ==> cmp(s[k], v) > 0
    ensures DownFrom(s, j, lo, cmp, v) == e
  {
    if j - 1 > e {
      DownFromTo(s, j - 1, e, lo, cmp, v);
    }
  }

  /** The partition of that range leaves what is above the pivot falling. */
  lemma HardSplit(s: seq<int>, lo: nat, n: nat, ni: nat)
    requires 2 <= n && IsHard(s, lo, n, ni)
    ensures var r := Split(s, lo, n, Difference);
            r.1 == lo + ni && forall k :: lo + ni < k < lo + n ==> r.0[k] == n + ni - (k - lo)
  {
    hide UpFrom, DownFrom;
    var h := Exchange(s, lo, lo + n / 2);
    HardScans(h, lo, n, ni);
    assert Crossed(h, lo, lo, lo + n, lo + n, Difference) == (h, lo + ni);
    assert Split(s, lo, n, Difference) == (Exchange(h, lo, lo + ni), lo + ni);
    assert forall k: nat :: lo + ni < k < lo + n ==> h[k] == HardAt(lo, n, ni, k);
  }

  lemma HardScans(h: seq<int>, lo: nat, n: nat, ni: nat)
    requires 2 <= n && ni < n && lo + n <= |h| && forall x: nat :: lo <= x < lo + n ==> h[x] == HardAt(lo, n, ni, x)
    ensures UpFrom(h, lo, lo + n, Difference, h[lo]) == lo + ni + 1
    ensures DownFrom(h, lo + n, lo, Difference, h[lo]) == lo + ni
  {
    UpFromTo(h, lo, lo + ni + 1, lo + n, Difference, ni);
    DownFromTo(h, lo + n, lo + ni, lo, Difference, ni);
  }

  /** A range that falls is not sorted by sorting only some of its first elements. */
  lemma FallingStays(s: seq<int>, t: seq<int>, r: nat, m: nat, hi: nat)
    requires r <= m < hi <= |s| && r + 2 <= hi && Permuted(s, t, r, m)
    requires forall i, j :: r <= i < j < hi ==> s[i] > s[j]
    ensures !Sorted(t, r, hi, Difference)
  {
    var last := hi - 1;
    if r < m {
      assert Above(s, r, m, Difference, s[last] + 1);
      AbovePermuted(s, t, r, m, Difference, s[last] + 1);
    }
    assert t[r] > s[last] == t[last];
    assert Difference(t[r], t[last]) > 0;
  }

  /** With any other value at some call, that call leaves its range or leaves such an input
      unsorted. */
  lemma {:induction false} WrongFails(s: seq<int>, slot: Slot, lo: nat, n: nat, ni: nat)
    requires 2 <= n && IsHard(s, lo, n, ni) && !Right(slot(lo, n, ni), n, ni)
    ensures !SortsOut(s, lo, n, slot)
  {
    hide IsHard, Exchange, Split, Permuted, Pow2, Sorted;
    HardRoom(s, lo, n, ni);
    var nj, r := Rest(n, slot(lo, n, ni)), Split(s, lo, n, Difference);
    HardSplit(s, lo, n, ni);
    var p := r.1;
    if p + 1 + Reach(nj) <= lo + n && Parts(r.0, lo, p, nj, n, Difference, slot).Done? {
      var t, u := PartsFrame(r.0, lo, p, nj, n, Difference, slot);
      SameRight(r.0, t, u, lo, p, nj, lo + n);
    }
  }

  lemma HardRoom(s: seq<int>, lo: nat, n: nat, ni: nat)
    requires IsHard(s, lo, n, ni)
    ensures ni < n && lo + n <= |s|
  {
  }

  /** The two calls permute the left part and what the value reaches of the right one. */
  lemma PartsFrame<T>(s: seq<T>, lo: nat, p: nat, nj: nat, n: nat, cmp: Order<T>, slot: Slot) returns (t: seq<T>, u: seq<T>)
    requires lo <= p < lo + n <= |s| && n >= 2 && p + 1 + Reach(nj) <= lo + n
    requires Parts(s, lo, p, nj, n, cmp, slot).Done?
    ensures u == Parts(s, lo, p, nj, n, cmp, slot).s
    ensures || (Permuted(s, t, lo, p) && Permuted(t, u, p + 1, p + 1 + Reach(nj)))
            || (Permuted(s, t, p + 1, p + 1 + Reach(nj)) && Permuted(t, u, lo, p))
  {
    hide Permuted, Pow2, Sort;
    var ni, r := p - lo, p + 1;
    if ni < nj {
      SortKeeps(s, lo, ni, cmp, slot);
      t := Sort(s, lo, ni, cmp, slot).s;
      RightKeeps(t, r, nj, cmp, slot);
      u := Sort(t, r, nj, cmp, slot).s;
    } else {
      RightKeeps(s, r, nj, cmp, slot);
      t := Sort(s, r, nj, cmp, slot).s;
      SortKeeps(t, lo, ni, cmp, slot);
      u := Sort(t, lo, ni, cmp, slot).s;
    }
  }

  lemma SameRight(s: seq<int>, t: seq<int>, u: seq<int>, lo: nat, p: nat, nj: nat, hi: nat)
    requires lo <= p < hi <= |s| && p + 1 + Reach(nj) < hi && Reach(hi - p - 1) != 0
    requires || (Permuted(s, t, lo, p) && Permuted(t, u, p + 1, p + 1 + Reach(nj)))
             || (Permuted(s, t, p + 1, p + 1 + Reach(nj)) && Permuted(t, u, lo, p))
    requires forall i, j :: p < i < j < hi ==> s[i] > s[j]
    ensures !Sorted(u, lo, hi, Difference)
  {
    hide Permuted, Sorted;
    var r, m := p + 1, p + 1 + Reach(nj);
    if Permuted(s, t, lo, p) && Permuted(t, u, r, m) {
      FallsToo(s, t, lo, p, hi);
      FallingStays(t, u, r, m, hi);
    } else {
      FallingStays(s, t, r, m, hi);
      SameLength(s, t, r, m);
      SortedToo(t, u, lo, p, hi);
    }
    SortedPart(u, lo, r, hi);
  }

  lemma FallsToo(s: seq<int>, t: seq<int>, lo: nat, p: nat, hi: nat)
    requires Permuted(s, t, lo, p) && hi <= |s| && forall i, j :: p < i < j < hi ==> s[i] > s[j]
    ensures hi <= |t| && forall i, j :: p < i < j < hi ==> t[i] > t[j]
  {
  }

  lemma SortedToo(t: seq<int>, u: seq<int>, lo: nat, p: nat, hi: nat)
    requires Permuted(t, u, lo, p) && hi <= |t|
    ensures Sorted(u, p + 1, hi, Difference) ==> Sorted(t, p + 1, hi, Difference)
  {
  }

  lemma SortedPart(s: seq<int>, lo: nat, r: nat, hi: nat)
    requires lo <= r
    ensures Sorted(s, lo, hi, Difference) ==> Sorted(s, r, hi, Difference)
  {
  }

  /** An array whose partition puts the pivot at `lo - 1` and such a range after it. */
  function Longer(lo: nat, n: nat, ni: nat): (s: seq<int>)
    requires lo >= 1 && ni < n
    ensures |s| == lo + n
  {
    Exchange(Ahead(lo, n, ni), 0, (lo + n) / 2)
  }

  function Ahead(lo: nat, n: nat, ni: nat): (s: seq<int>)
    requires lo >= 1 && ni < n
    ensures |s| == lo + n
  {
    var h := Hard(n, ni);
    seq(lo + n, x requires 0 <= x < lo + n => if x == 0 then -1 else if x < lo then -2 else h[x - lo])
  }

  lemma HardNatural(n: nat, ni: nat)
    requires ni < n
    ensures forall x :: 0 <= x < n ==> Hard(n, ni)[x] >= 0
  {
  }

  lemma LongerSplit(lo: nat, n: nat, ni: nat)
    requires lo >= 1 && 2 <= n && ni < n
    ensures var r := Split(Longer(lo, n, ni), 0, lo + n, Difference); r.1 == lo - 1 && IsHard(r.0, lo, n, ni)
  {
    hide UpFrom, DownFrom;
    var w := Ahead(lo, n, ni);
    assert Exchange(Exchange(w, 0, (lo + n) / 2), 0, (lo + n) / 2) == w;
    HardNatural(n, ni);
    AheadScans(lo, n, ni);
    AheadHard(lo, n, ni);
  }

  lemma AheadScans(lo: nat, n: nat, ni: nat)
    requires lo >= 1 && 2 <= n && ni < n
    ensures var w := Ahead(lo, n, ni);
            UpFrom(w, 0, lo + n, Difference, w[0]) == lo && DownFrom(w, lo + n, 0, Difference, w[0]) == lo - 1
  {
    var w := Ahead(lo, n, ni);
    HardNatural(n, ni);
    hide Hard;
    UpFromTo(w, 0, lo, lo + n, Difference, -1);
    DownFromTo(w, lo + n, lo - 1, 0, Difference, -1);
  }

  lemma AheadHard(lo: nat, n: nat, ni: nat)
    requires lo >= 1 && 2 <= n && ni < n
    ensures IsHard(Exchange(Ahead(lo, n, ni), 0, lo - 1), lo, n, ni)
  {
    var h, t := Hard(n, ni), Exchange(Ahead(lo, n, ni), 0, lo - 1);
    HardIsHard(n, ni);
    assert forall x: nat :: x < n ==> t[lo + x] == h[x];
    forall x: nat | lo <= x < lo + n ensures Exchange(t, lo, lo + n / 2)[x] == HardAt(lo, n, ni, x) {
      assert Exchange(t, lo, lo + n / 2)[x] == Exchange(h, 0, n / 2)[x - lo];
      assert Exchange(h, 0, n / 2)[x - lo] == HardAt(0, n, ni, x - lo);
    }
  }

  lemma HardKept(s: seq<int>, t: seq<int>, hi: nat, lo: nat, n: nat, ni: nat)
    requires IsHard(s, lo, n, ni) && Permuted(s, t, 0, hi) && hi <= lo
    ensures IsHard(t, lo, n, ni)
  {
  }

  /** A wrong value at a range that starts later fails the sort of a whole array. */
  lemma LaterFails(slot: Slot, lo: nat, n: nat, ni: nat)
    requires lo >= 1 && 2 <= n && lo + n < WORD && ni < n && !Right(slot(lo, n, ni), n, ni)
    requires Right(slot(0, lo + n, lo - 1), lo + n, lo - 1)
    ensures !SortsOut(Longer(lo, n, ni), 0, lo + n, slot)
  {
    hide Longer, IsHard, Split, Sorted, Permuted, Pow2, Sort;
    var s := Longer(lo, n, ni);
    var r, nj := Split(s, 0, lo + n, Difference), Rest(lo + n, slot(0, lo + n, lo - 1));
    LongerSplit(lo, n, ni);
    SortForm(s, 0, lo + n, Difference, slot);
    HardRoom(r.0, lo, n, ni);
    if lo - 1 < nj {
      SortKeeps(r.0, 0, lo - 1, Difference, slot);
      var a := Sort(r.0, 0, lo - 1, Difference, slot);
      if a.Done? {
        HardKept(r.0, a.s, lo - 1, lo, n, ni);
        WrongFails(a.s, slot, lo, n, ni);
        var b := Sort(a.s, lo, n, Difference, slot);
        if b.Done? {
          SortedPart(b.s, 0, lo, lo + n);
        }
      }
    } else {
      WrongFails(r.0, slot, lo, n, ni);
      var a := Sort(r.0, lo, n, Difference, slot);
      if a.Done? {
        SortKeeps(a.s, 0, lo - 1, Difference, slot);
        var b := Sort(a.s, 0, lo - 1, Difference, slot);
        if b.Done? {
          UnsortedKept(a.s, b.s, lo - 1, lo, lo + n);
          SortedPart(b.s, 0, lo, lo + n);
        }
      }
    }
  }

  lemma UnsortedKept(s: seq<int>, t: seq<int>, p: nat, lo: nat, hi: nat)
    requires Permuted(s, t, 0, p) && p <= lo <= hi <= |s|
    ensures Sorted(t, lo, hi, Difference) ==> Sorted(s, lo, hi, Difference)
  {
  }

  /** The sort orders every array if and only if the variable holds a right value in every
      call of every length and at every place. */
  lemma {:induction false} SortsExactly(slot: Slot)
    ensures AllRight(slot) <==> forall s: seq<int> :: |s| < WORD ==> SortsOut(s, 0, |s|, slot)
  {
    hide Right, SortsOut, Hard, Longer;
    if AllRight(slot) {
      forall s: seq<int> | |s| < WORD ensures SortsOut(s, 0, |s|, slot) {
        OrdersOut(s, 0, |s|, slot);
      }
    } else {
      var lo: nat, n: nat, ni: nat :| 2 <= n && lo + n < WORD && ni < n && !Right(slot(lo, n, ni), n, ni);
      if lo == 0 {
        FirstFails(slot, n, ni);
      } else if Right(slot(0, lo + n, lo - 1), lo + n, lo - 1) {
        LaterFails(slot, lo, n, ni);
        assert !SortsOut(Longer(lo, n, ni), 0, |Longer(lo, n, ni)|, slot);
      } else {
        FirstFails(slot, lo + n, lo - 1);
      }
    }
  }

  lemma FirstFails(slot: Slot, n: nat, ni: nat)
    requires 2 <= n && ni < n && !Right(slot(0, n, ni), n, ni)
    ensures !SortsOut(Hard(n, ni), 0, |Hard(n, ni)|, slot)
  {
    HardIsHard(n, ni);
    hide Hard, SortsOut, Right;
    WrongFails(Hard(n, ni), slot, 0, n, ni);
  }

  lemma OrdersOut(s: seq<int>, lo: nat, n: nat, slot: Slot)
    requires lo + n <= |s| < WORD && AllRight(slot)
    ensures SortsOut(s, lo, n, slot)
  {
    hide AllRight, Sort, Sorted;
    SortOrders(s, lo, n, Difference, slot);
  }

  /** Whatever one value the variable holds in all calls, there are three elements that the
      sort leaves unsorted, or whose range it leaves. */
  lemma {:induction false} StaleFails(v: nat, slot: Slot)
    requires v < WORD && forall lo: nat, n: nat, ni: nat :: slot(lo, n, ni) == v
    ensures !SortsOut(if v == 0 then [0, 1, 2] else [2, 0, 1], 0, 3, slot)
  {
    hide SortsOut;
    var ni := if v == 0 then 1 else 0;
    ConditionsMean(v, 3, ni);
    FirstFails(slot, 3, ni);
    assert Hard(3, ni) == if v == 0 then [0, 1, 2] else [2, 0, 1];
  }

  // The code, on the bytes of the elements

  /** Element `i` of an array whose elements have `es` bytes. */
  function At<B>(bytes: seq<B>, es: nat, i: nat): seq<B> {
    if i * es + es <= |bytes| then bytes[i * es..i * es + es] else []
  }

  function Elements<B>(bytes: seq<B>, es: nat, count: nat): (s: seq<seq<B>>)
    ensures |s| == count && forall i :: 0 <= i < count ==> s[i] == At(bytes, es, i)
  {
    seq(count, i requires 0 <= i < count => At(bytes, es, i))
  }

  lemma InOrder(i: nat, j: nat, es: nat)
    requires i < j
    ensures i * es + es <= j * es
  {
    assert j * es == i * es + (j - i) * es;
    assert (j - i) * es == es + (j - i - 1) * es;
  }

  /** Bytes `lo..hi` of the one are bytes `x..` of the other. */
  ghost predicate SameBytes<B>(c: seq<B>, lo: nat, b: seq<B>, x: nat, n: nat) {
    lo + n <= |c| && x + n <= |b| && c[lo..lo + n] == b[x..x + n]
  }

  /** Only the elements at `x` and `y` differ, and they are exchanged. */
  ghost predicate BytesSwapped<B>(b: seq<B>, c: seq<B>, x: nat, y: nat, es: nat) {
    && |b| == |c| && SameBytes(c, x, b, y, es) && SameBytes(c, y, b, x, es)
    && forall k :: 0 <= k < |b| && !(x <= k < x + es) && !(y <= k < y + es) ==> c[k] == b[k]
  }

  lemma SwappedByByte<B>(b: seq<B>, c: seq<B>, x: nat, y: nat, es: nat)
    requires |b| == |c| && x + es <= |b| && y + es <= |b|
    requires forall k :: x <= k < x + es ==> c[k] == b[y + (k - x)]
    requires forall k :: y <= k < y + es ==> c[k] == b[x + (k - y)]
    requires forall k :: 0 <= k < |b| && !(x <= k < x + es) && !(y <= k < y + es) ==> c[k] == b[k]
    ensures BytesSwapped(b, c, x, y, es)
  {
    assert c[x..x + es] == b[y..y + es] && c[y..y + es] == b[x..x + es];
  }

  /** Exchanges two elements of `n` bytes, one byte at a time: none is torn. */
  method SwapBytes<B>(a: array<B>, i: nat, j: nat, n: nat)
    requires n > 0 && i + n <= a.Length && j + n <= a.Length && (i == j || i + n <= j || j + n <= i)
    modifies a
    ensures BytesSwapped(old(a[..]), a[..], i, j, n)
  {
    hide BytesSwapped;
    ghost var b := a[..];
    var m := 0;
    while m < n
      invariant m <= n
      invariant forall k :: i <= k < i + m ==> a[k] == b[j + (k - i)]
      invariant forall k :: j <= k < j + m ==> a[k] == b[i + (k - j)]
      invariant forall k :: 0 <= k < a.Length && !(i <= k < i + m) && !(j <= k < j + m) ==> a[k] == b[k]
    {
      var c := a[i + m];
      a[i + m] := a[j + m];
      a[j + m] := c;
      m := m + 1;
    }
    SwappedByByte(b, a[..], i, j, n);
  }

  /** Exchanging the bytes exchanges the elements. */
  lemma BytesExchanged<B>(b: seq<B>, c: seq<B>, es: nat, i: nat, j: nat, count: nat)
    requires |b| == count * es && i < count && j < count && BytesSwapped(b, c, i * es, j * es, es)
    ensures Elements(c, es, count) == Exchange(Elements(b, es, count), i, j)
  {
    hide BytesSwapped, At;
    forall k: nat | k < count ensures At(c, es, k) == At(b, es, if k == i then j else if k == j then i else k) {
      ElementExchanged(b, c, es, i, j, count, k);
    }
  }

  lemma ElementExchanged<B>(b: seq<B>, c: seq<B>, es: nat, i: nat, j: nat, count: nat, k: nat)
    requires |b| == count * es && i < count && j < count && k < count && BytesSwapped(b, c, i * es, j * es, es)
    ensures At(c, es, k) == At(b, es, if k == i then j else if k == j then i else k)
  {
    hide BytesSwapped, At;
    if k != i && k != j {
      ApartBytes(k, i, es);
      ApartBytes(k, j, es);
      InOrder(k, count, es);
      OtherElement(b, c, es, k, i * es, j * es);
    } else {
      SwappedElements(b, c, es, i, j);
    }
  }

  lemma SwappedElements<B>(b: seq<B>, c: seq<B>, es: nat, i: nat, j: nat)
    requires BytesSwapped(b, c, i * es, j * es, es)
    ensures At(c, es, i) == At(b, es, j) && At(c, es, j) == At(b, es, i)
  {
  }

  lemma ApartBytes(k: nat, i: nat, es: nat)
    requires k != i
    ensures k * es + es <= i * es || i * es + es <= k * es
  {
    InOrder(if k < i then k else i, if k < i then i else k, es);
  }

  lemma OtherElement<B>(b: seq<B>, c: seq<B>, es: nat, k: nat, y: nat, z: nat)
    requires BytesSwapped(b, c, y, z, es) && k * es + es <= |b|
    requires (k * es + es <= y || y + es <= k * es) && (k * es + es <= z || z + es <= k * es)
    ensures At(c, es, k) == At(b, es, k)
  {
    assert c[k * es..k * es + es] == b[k * es..k * es + es];
  }

  /** Exchanges two elements. */
  method Swap<B>(a: array<B>, es: nat, i: nat, j: nat, ghost count: nat)
    requires es > 0 && a.Length == count * es && i < count && j < count
    modifies a
    ensures Elements(a[..], es, count) == Exchange(old(Elements(a[..], es, count)), i, j)
  {
    hide Elements, Exchange, BytesSwapped;
    InOrder(i, count, es);
    InOrder(j, count, es);
    if i != j {
      InOrder(if i < j then i else j, if i < j then j else i, es);
    }
    ghost var b := a[..];
    SwapBytes(a, i * es, j * es, es);
    BytesExchanged(b, a[..], es, i, j, count);
  }

  /** Reads one element for the comparison. */
  method Read<B>(a: array<B>, es: nat, i: nat, ghost count: nat) returns (x: seq<B>)
    requires a.Length == count * es && i < count
    ensures x == Elements(a[..], es, count)[i]
  {
    InOrder(i, count, es);
    x := a[i * es..i * es + es];
  }

  /** From `i` up to the first element that is not below the pivot, or to the end. */
  method ScanUp<B>(a: array<B>, es: nat, i0: nat, lo: nat, hi: nat, cmp: Order<seq<B>>, ghost count: nat) returns (i: nat)
    requires a.Length == count * es && lo <= i0 < hi <= count
    ensures i == UpFrom(Elements(a[..], es, count), i0, hi, cmp, Elements(a[..], es, count)[lo])
  {
    hide Elements;
    ghost var s := Elements(a[..], es, count);
    i := i0 + 1;
    while i < hi
      invariant i0 < i <= hi && UpFrom(s, i0, hi, cmp, s[lo]) == UpFrom(s, i - 1, hi, cmp, s[lo])
    {
      var x := Read(a, es, i, count);
      var v := Read(a, es, lo, count);
      if cmp(x, v) >= 0 {
        break;
      }
      i := i + 1;
    }
  }

  /** From `j` down to the last element that is not above the pivot, or to the pivot. */
  method ScanDown<B>(a: array<B>, es: nat, j0: nat, lo: nat, cmp: Order<seq<B>>, ghost count: nat) returns (j: nat)
    requires a.Length == count * es && lo < j0 <= count
    ensures j == DownFrom(Elements(a[..], es, count), j0, lo, cmp, Elements(a[..], es, count)[lo])
  {
    hide Elements;
    ghost var s := Elements(a[..], es, count);
    j := j0 - 1;
    while j > lo
      invariant lo <= j < j0 && DownFrom(s, j0, lo, cmp, s[lo]) == DownFrom(s, j + 1, lo, cmp, s[lo])
    {
      var x := Read(a, es, j, count);
      var v := Read(a, es, lo, count);
      if cmp(x, v) <= 0 {
        break;
      }
      j := j - 1;
    }
  }

  /** Puts the middle element in its place, nothing above it before and nothing below it
      after it. */
  method Partition<B>(a: array<B>, es: nat, lo: nat, n: nat, cmp: Order<seq<B>>, ghost count: nat) returns (p: nat)
    requires es > 0 && n >= 2 && a.Length == count * es && lo + n <= count
    modifies a
    ensures (Elements(a[..], es, count), p) == Split(old(Elements(a[..], es, count)), lo, n, cmp)
  {
    hide Elements, Exchange, UpFrom, DownFrom;
    ghost var s := Elements(a[..], es, count);
    var hi: nat := lo + n;
    Swap(a, es, lo, lo + n / 2, count);
    ghost var s1 := Elements(a[..], es, count);
    var i, j := lo, hi;
    while true
      invariant lo <= i <= j <= hi && lo < j && i < hi
      invariant Crossed(s1, lo, lo, hi, hi, cmp) == Crossed(Elements(a[..], es, count), lo, i, j, hi, cmp)
      decreases j - i
    {
      i := ScanUp(a, es, i, lo, hi, cmp, count);
      j := ScanDown(a, es, j, lo, cmp, count);
      if j < i {
        break;
      }
      Swap(a, es, i, j, count);
    }
    assert Crossed(s1, lo, lo, hi, hi, cmp) == (Elements(a[..], es, count), j);
    Swap(a, es, lo, j, count);
    return j;
  }

  lemma SortForm<T>(s: seq<T>, lo: nat, n: nat, cmp: Order<T>, slot: Slot)
    requires n <= 1 || lo + n <= |s|
    ensures n <= 1 ==> Sort(s, lo, n, cmp, slot) == Done(s, 0)
    ensures n > 1 ==>
              var r := Split(s, lo, n, cmp);
              var nj := Rest(n, slot(lo, n, r.1 - lo));
              Sort(s, lo, n, cmp, slot) ==
              if nj > 1 && r.1 + 1 + nj > lo + n then Leaves else Parts(r.0, lo, r.1, nj, n, cmp, slot)
  {
    hide Split, Parts;
  }

  /** Sorts a range, unless a call leaves its range. */
  method XQSort<B(!new)>(a: array<B>, es: nat, lo: nat, n: nat, cmp: Order<seq<B>>, slot: Slot, ghost count: nat)
    returns (stays: bool, depth: nat)
    requires es > 0 && a.Length == count * es && (n <= 1 || lo + n <= count)
    modifies a
    ensures var r := Sort(old(Elements(a[..], es, count)), lo, n, cmp, slot);
            if stays then r == Done(Elements(a[..], es, count), depth) else r == Leaves
    decreases n
  {
    hide Elements, Split, Sort;
    ghost var s := Elements(a[..], es, count);
    SortForm(s, lo, n, cmp, slot);
    if n <= 1 {
      return true, 0;
    }
    var p := Partition(a, es, lo, n, cmp, count);
    var ni, r := p - lo, p + 1;
    var nj := Rest(n, slot(lo, n, ni));
    if nj > 1 && r + nj > lo + n {
      return false, 0;
    }
    var d;
    if ni < nj {
      stays, d := XQSort(a, es, lo, ni, cmp, slot, count);
      if !stays {
        return false, 0;
      }
      stays, depth := XQSort(a, es, r, nj, cmp, slot, count);
    } else {
      stays, d := XQSort(a, es, r, nj, cmp, slot, count);
      if !stays {
        return false, 0;
      }
      stays, depth := XQSort(a, es, lo, ni, cmp, slot, count);
    }
    depth := Max(1 + d, depth);
  }

  lemma CountBounded(count: nat, es: nat)
    requires es > 0
    ensures count <= count * es
  {
    assert count * es == count + count * (es - 1) && count * (es - 1) >= 0;
  }

  /** The whole array.  A run stays in it if the values fit, whatever the comparison does,
      and only permutes the elements, with nested calls no deeper than the logarithm of their
      number; it sorts them if the values are right and the comparison is a total preorder. */
  method QSort<B(!new)>(a: array<B>, count: nat, es: nat, cmp: Order<seq<B>>, slot: Slot) returns (stays: bool, depth: nat)
    requires es > 0 && a.Length == count * es < WORD
    modifies a
    ensures AllFit(slot) ==> stays
    ensures stays ==> Permuted(old(Elements(a[..], es, count)), Elements(a[..], es, count), 0, count) && Pow2(depth) <= count + 1
    ensures AllRight(slot) && Preorder(cmp) ==> stays && Sorted(Elements(a[..], es, count), 0, count, cmp)
    ensures var r := Sort(old(Elements(a[..], es, count)), 0, count, cmp, slot);
            if stays then r == Done(Elements(a[..], es, count), depth) else r == Leaves
  {
    hide Elements, Sort, AllRight, AllFit, Permuted, Pow2, Sorted, Preorder;
    ghost var s := Elements(a[..], es, count);
    CountBounded(count, es);
    stays, depth := XQSort(a, es, 0, count, cmp, slot, count);
    SortKeeps(s, 0, count, cmp, slot);
    if AllFit(slot) {
      SortStays(s, 0, count, cmp, slot);
    }
    if AllRight(slot) && Preorder(cmp) {
      SortOrders(s, 0, count, cmp, slot);
    }
  }
}
