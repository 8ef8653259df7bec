/** src/pqsort.c: quicksort that leaves alone what cannot reach the requested range. */
module PartialSort {
  import opened Counting

  /** The comparison function is a total preorder. */
  ghost predicate Preorder<T(!new)>(cmp: (T, T) -> int) {
    && (forall x, y :: cmp(x, y) < 0 <==> cmp(y, x) > 0)
    && (forall x, y, z :: cmp(x, y) <= 0 && cmp(y, z) <= 0 ==> cmp(x, z) <= 0)
  }

  /** The element at i belongs there: none before it is greater, none after it is smaller. */
  ghost predicate Ranked<T>(cmp: (T, T) -> int, s: seq<T>, lo: nat, hi: nat, i: nat)
    requires lo <= i < hi <= |s|
  {
    && (forall j :: lo <= j < i ==> cmp(s[j], s[i]) <= 0)
    && (forall j :: i < j < hi ==> cmp(s[i], s[j]) <= 0)
  }

  ghost predicate Sorted<T>(cmp: (T, T) -> int, s: seq<T>, lo: nat, hi: nat)
    requires lo <= hi <= |s|
  {
    forall i, j :: lo <= i < j < hi ==> cmp(s[i], s[j]) <= 0
  }

  /** The same elements, and nothing moved outside lo..hi. */
  ghost predicate Shuffled<T>(s: seq<T>, t: seq<T>, lo: nat, hi: nat)
    requires lo <= hi <= |s|
  {
    && |t| == |s| && multiset(t) == multiset(s)
    && t[..lo] == s[..lo] && t[hi..] == s[hi..]
  }

  lemma ShuffledTrans<T>(s: seq<T>, t: seq<T>, u: seq<T>, lo: nat, hi: nat)
    requires lo <= hi <= |s| && Shuffled(s, t, lo, hi) && Shuffled(t, u, lo, hi)
    ensures Shuffled(s, u, lo, hi)
  {
  }

  /** A shuffle of a part is a shuffle of the whole. */
  lemma ShuffledWider<T>(s: seq<T>, t: seq<T>, lo: nat, hi: nat, lo': nat, hi': nat)
    requires lo <= lo' <= hi' <= hi <= |s| && Shuffled(s, t, lo', hi')
    ensures Shuffled(s, t, lo, hi)
  {
    assert t[..lo] == t[..lo'][..lo] && s[..lo] == s[..lo'][..lo];
    assert t[hi..] == t[hi'..][hi - hi'..] && s[hi..] == s[hi'..][hi - hi'..];
  }

  lemma PartMultiset<T>(s: seq<T>, lo: nat, hi: nat)
    requires lo <= hi <= |s|
    ensures multiset(s[lo..hi]) == multiset(s) - (multiset(s[..lo]) + multiset(s[hi..]))
  {
    assert s == s[..lo] + s[lo..hi] + s[hi..];
  }

  /** Each element of the part was in the part before. */
  lemma ShuffledWithin<T>(s: seq<T>, t: seq<T>, lo: nat, hi: nat, i: nat) returns (j: nat)
    requires lo <= i < hi <= |s| && Shuffled(s, t, lo, hi)
    ensures lo <= j < hi && t[i] == s[j]
  {
    PartMultiset(s, lo, hi);
    PartMultiset(t, lo, hi);
    assert t[lo..hi][i - lo] in multiset(t[lo..hi]);
    assert t[i] in multiset(s[lo..hi]);
    var k :| 0 <= k < hi - lo && s[lo..hi][k] == t[i];
    j := lo + k;
  }

  /** The index of a median of three. */
  function Med3<T>(cmp: (T, T) -> int, s: seq<T>, a: nat, b: nat, c: nat): (m: nat)
    requires a < |s| && b < |s| && c < |s|
    ensures m == a || m == b || m == c
  {
    if cmp(s[a], s[b]) < 0 then
      if cmp(s[b], s[c]) < 0 then b else if cmp(s[a], s[c]) < 0 then c else a
    else
      if cmp(s[b], s[c]) > 0 then b else if cmp(s[a], s[c]) < 0 then a else c
  }

  /** y lies between the other two. */
  predicate Between<T>(cmp: (T, T) -> int, x: T, y: T, z: T) {
    (cmp(x, y) <= 0 && cmp(y, z) <= 0) || (cmp(z, y) <= 0 && cmp(y, x) <= 0)
  }

  /** It has one of the other two on either side. */
  lemma Med3IsMedian<T(!new)>(cmp: (T, T) -> int, s: seq<T>, a: nat, b: nat, c: nat)
    requires Preorder(cmp) && a < |s| && b < |s| && c < |s|
    ensures var m := Med3(cmp, s, a, b, c);
      || (m == a && Between(cmp, s[b], s[a], s[c]))
      || (m == b && Between(cmp, s[a], s[b], s[c]))
      || (m == c && Between(cmp, s[a], s[c], s[b]))
  {
  }

  method Swap<T>(a: array<T>, i: nat, j: nat)
    requires i < a.Length && j < a.Length
    modifies a
    ensures a[..] == old(a[..])[i := old(a[j])][j := old(a[i])]
    ensures multiset(a[..]) == old(multiset(a[..]))
  {
    a[i], a[j] := a[j], a[i];
  }

  lemma SwapShuffles<T>(s: seq<T>, i: nat, j: nat, lo: nat, hi: nat)
    requires lo <= i < hi <= |s| && lo <= j < hi
    requires multiset(s[i := s[j]][j := s[i]]) == multiset(s)
    ensures Shuffled(s, s[i := s[j]][j := s[i]], lo, hi)
  {
  }

  /** The insertion sort of short ranges. */
  method InsertionSort<T(!new)>(a: array<T>, lo: nat, hi: nat, cmp: (T, T) -> int)
    requires lo <= hi <= a.Length && Preorder(cmp)
    modifies a
    ensures Shuffled(old(a[..]), a[..], lo, hi)
    ensures Sorted(cmp, a[..], lo, hi)
  {
    hide Preorder, Shuffled;
    var pm := lo + 1;
    Unshuffled(a[..], lo, hi);
    while pm < hi
      invariant lo < pm && (pm <= hi || pm == lo + 1)
      invariant Shuffled(old(a[..]), a[..], lo, hi)
      invariant pm <= hi ==> Sorted(cmp, a[..], lo, pm)
    {
      ghost var s := a[..];
      SinkIn(a, lo, pm, hi, cmp);
      ShuffledTrans(old(a[..]), s, a[..], lo, hi);
      pm := pm + 1;
    }
  }

  /** Sorted but for the element at pl, which is out of place towards the front. */
  ghost predicate AlmostSorted<T>(cmp: (T, T) -> int, s: seq<T>, lo: nat, hi: nat, pl: nat)
    requires lo <= pl < hi <= |s|
  {
    && (forall i, j :: lo <= i < j < hi && j != pl && i != pl ==> cmp(s[i], s[j]) <= 0)
    && (forall j :: pl < j < hi ==> cmp(s[pl], s[j]) <= 0)
  }

  method SinkIn<T(!new)>(a: array<T>, lo: nat, pm: nat, hi: nat, cmp: (T, T) -> int)
    requires lo <= pm < hi <= a.Length && Preorder(cmp) && Sorted(cmp, a[..], lo, pm)
    modifies a
    ensures Shuffled(old(a[..]), a[..], lo, hi)
    ensures Sorted(cmp, a[..], lo, pm + 1)
  {
    hide Preorder, Sorted, AlmostSorted, Shuffled;
    var pl := pm;
    ghost var s0 := a[..];
    AlmostStart(cmp, a[..], lo, pm);
    Unshuffled(a[..], lo, hi);
    while pl > lo && cmp(a[pl - 1], a[pl]) > 0
      invariant lo <= pl <= pm && Shuffled(s0, a[..], lo, hi)
      invariant AlmostSorted(cmp, a[..], lo, pm + 1, pl)
    {
      ghost var s := a[..];
      assert cmp(s[pl - 1], s[pl]) > 0;
      SwapIn(a, pl, pl - 1, s0, lo, hi);
      SinkStep(cmp, s, a[..], lo, pm + 1, pl);
      pl := pl - 1;
    }
    assert pl == lo || cmp(a[..][pl - 1], a[..][pl]) <= 0;
    Sunk(cmp, a[..], lo, pm + 1, pl);
  }

  lemma AlmostStart<T>(cmp: (T, T) -> int, s: seq<T>, lo: nat, pm: nat)
    requires lo <= pm < |s| && Sorted(cmp, s, lo, pm)
    ensures AlmostSorted(cmp, s, lo, pm + 1, pm)
  {
  }

  lemma Unshuffled<T>(s: seq<T>, lo: nat, hi: nat)
    requires lo <= hi <= |s|
    ensures Shuffled(s, s, lo, hi)
  {
  }

  lemma SinkStep<T(!new)>(cmp: (T, T) -> int, s: seq<T>, t: seq<T>, lo: nat, hi: nat, pl: nat)
    requires Preorder(cmp) && lo < pl < hi <= |s| && AlmostSorted(cmp, s, lo, hi, pl)
    requires cmp(s[pl - 1], s[pl]) > 0 && t == s[pl := s[pl - 1]][pl - 1 := s[pl]]
    ensures AlmostSorted(cmp, t, lo, hi, pl - 1)
  {
  }

  lemma Sunk<T(!new)>(cmp: (T, T) -> int, s: seq<T>, lo: nat, hi: nat, pl: nat)
    requires Preorder(cmp) && lo <= pl < hi <= |s| && AlmostSorted(cmp, s, lo, hi, pl)
    requires pl == lo || cmp(s[pl - 1], s[pl]) <= 0
    ensures Sorted(cmp, s, lo, hi)
  {
    forall i | lo <= i < pl ensures cmp(s[i], s[pl]) <= 0 {
      assert i < pl - 1 ==> cmp(s[i], s[pl - 1]) <= 0;
    }
  }

  // ---- the three-way partition ------------------------------------------------------------

  /** The regions of the loop: equal, smaller, unknown, greater, equal. */
  ghost predicate Regions<T>(cmp: (T, T) -> int, s: seq<T>, v: T, lo: nat, hi: nat, pa: nat, pb: nat, pc: int, pd: int)
  {
    && lo < pa <= pb <= pc + 1 && pc <= pd < hi <= |s|
    && (forall i :: lo <= i < pa ==> cmp(s[i], v) == 0)
    && (forall i :: pa <= i < pb ==> cmp(s[i], v) < 0)
    && (forall i :: pc < i <= pd ==> cmp(s[i], v) > 0)
    && (forall i :: pd < i < hi ==> cmp(s[i], v) == 0)
    && s[lo] == v
  }

  /** The swap of a shuffled range. */
  method SwapIn<T>(a: array<T>, i: nat, j: nat, ghost s0: seq<T>, lo: nat, hi: nat)
    requires lo <= i < hi <= a.Length && lo <= j < hi && |s0| == a.Length && Shuffled(s0, a[..], lo, hi)
    modifies a
    ensures a[..] == old(a[..])[i := old(a[j])][j := old(a[i])]
    ensures Shuffled(s0, a[..], lo, hi)
  {
    hide Shuffled;
    ghost var s := a[..];
    Swap(a, i, j);
    SwapShuffles(s, i, j, lo, hi);
    ShuffledTrans(s0, s, a[..], lo, hi);
  }

  lemma LowEqual<T>(cmp: (T, T) -> int, s: seq<T>, v: T, lo: nat, hi: nat, pa: nat, pb: nat, pc: int, pd: int)
    requires Regions(cmp, s, v, lo, hi, pa, pb, pc, pd) && pb <= pc && cmp(s[pb], v) == 0
    ensures Regions(cmp, s[pa := s[pb]][pb := s[pa]], v, lo, hi, pa + 1, pb + 1, pc, pd)
  {
  }

  lemma LowSmaller<T>(cmp: (T, T) -> int, s: seq<T>, v: T, lo: nat, hi: nat, pa: nat, pb: nat, pc: int, pd: int)
    requires Regions(cmp, s, v, lo, hi, pa, pb, pc, pd) && pb <= pc && cmp(s[pb], v) < 0
    ensures Regions(cmp, s, v, lo, hi, pa, pb + 1, pc, pd)
  {
  }

  lemma HighEqual<T>(cmp: (T, T) -> int, s: seq<T>, v: T, lo: nat, hi: nat, pa: nat, pb: nat, pc: int, pd: int)
    requires Regions(cmp, s, v, lo, hi, pa, pb, pc, pd) && pb <= pc && cmp(s[pc], v) == 0
    ensures Regions(cmp, s[pc := s[pd]][pd := s[pc]], v, lo, hi, pa, pb, pc - 1, pd - 1)
  {
  }

  lemma HighGreater<T>(cmp: (T, T) -> int, s: seq<T>, v: T, lo: nat, hi: nat, pa: nat, pb: nat, pc: int, pd: int)
    requires Regions(cmp, s, v, lo, hi, pa, pb, pc, pd) && pb <= pc && cmp(s[pc], v) > 0
    ensures Regions(cmp, s, v, lo, hi, pa, pb, pc - 1, pd)
  {
  }

  lemma Exchange<T>(cmp: (T, T) -> int, s: seq<T>, v: T, lo: nat, hi: nat, pa: nat, pb: nat, pc: int, pd: int)
    requires Regions(cmp, s, v, lo, hi, pa, pb, pc, pd) && pb < pc && cmp(s[pb], v) > 0 && cmp(s[pc], v) < 0
    ensures Regions(cmp, s[pb := s[pc]][pc := s[pb]], v, lo, hi, pa, pb + 1, pc - 1, pd)
  {
  }

  /** The partition loop around the pivot at lo. */
  method Partition<T>(a: array<T>, lo: nat, hi: nat, cmp: (T, T) -> int) returns (pa: nat, pb: nat, pd: nat)
    requires lo + 1 < hi <= a.Length && cmp(a[lo], a[lo]) == 0
    modifies a
    ensures Shuffled(old(a[..]), a[..], lo, hi)
    ensures Regions(cmp, a[..], old(a[lo]), lo, hi, pa, pb, pb - 1, pd)
  {
    hide Regions, Shuffled;
    ghost var v, s0 := a[lo], a[..];
    var c: int := hi - 1;
    var d: int := hi - 1;
    pa, pb := lo + 1, lo + 1;
    RegionsStart(cmp, a[..], lo, hi);
    Unshuffled(a[..], lo, hi);
    while true
      invariant Regions(cmp, a[..], v, lo, hi, pa, pb, c, d) && Shuffled(s0, a[..], lo, hi)
      decreases c - pb
    {
      pa, pb := ScanLow(a, lo, hi, cmp, pa, pb, c, d, v, s0);
      c, d := ScanHigh(a, lo, hi, cmp, pa, pb, c, d, v, s0);
      RegionBounds(cmp, a[..], v, lo, hi, pa, pb, c, d);
      if pb > c {
        break;
      }
      Exchange(cmp, a[..], v, lo, hi, pa, pb, c, d);
      SwapIn(a, pb, c, s0, lo, hi);
      pb, c := pb + 1, c - 1;
    }
    RegionBounds(cmp, a[..], v, lo, hi, pa, pb, c, d);
    pd := d;
  }

  lemma RegionsStart<T>(cmp: (T, T) -> int, s: seq<T>, lo: nat, hi: nat)
    requires lo + 1 < hi <= |s| && cmp(s[lo], s[lo]) == 0
    ensures Regions(cmp, s, s[lo], lo, hi, lo + 1, lo + 1, hi - 1, hi - 1)
  {
  }

  lemma RegionBounds<T>(cmp: (T, T) -> int, s: seq<T>, v: T, lo: nat, hi: nat, pa: nat, pb: nat, pc: int, pd: int)
    requires Regions(cmp, s, v, lo, hi, pa, pb, pc, pd)
    ensures lo < pa <= pb <= pc + 1 && pc <= pd < hi <= |s| && s[lo] == v
  {
  }

  /** The scan from the front: past what is not greater, setting equal elements aside. */
  method ScanLow<T>(a: array<T>, lo: nat, hi: nat, cmp: (T, T) -> int, pa0: nat, pb0: nat, pc: int, pd: int,
                    ghost v: T, ghost s0: seq<T>) returns (pa: nat, pb: nat)
    requires |s0| == a.Length && lo <= hi <= a.Length
    requires Regions(cmp, a[..], v, lo, hi, pa0, pb0, pc, pd) && Shuffled(s0, a[..], lo, hi)
    modifies a
    ensures Regions(cmp, a[..], v, lo, hi, pa, pb, pc, pd) && Shuffled(s0, a[..], lo, hi)
    ensures pb0 <= pb && pc < hi && (pb <= pc ==> cmp(a[pb], v) > 0)
  {
    hide Regions, Shuffled;
    pa, pb := pa0, pb0;
    RegionBounds(cmp, a[..], v, lo, hi, pa, pb, pc, pd);
    while pb <= pc && cmp(a[pb], a[lo]) <= 0
      invariant Regions(cmp, a[..], v, lo, hi, pa, pb, pc, pd) && Shuffled(s0, a[..], lo, hi)
      invariant lo < pa <= pb <= pc + 1 <= hi && a[lo] == v && pb0 <= pb && pc < hi
    {
      if cmp(a[pb], a[lo]) == 0 {
        LowEqual(cmp, a[..], v, lo, hi, pa, pb, pc, pd);
        SwapIn(a, pa, pb, s0, lo, hi);
        pa := pa + 1;
      } else {
        LowSmaller(cmp, a[..], v, lo, hi, pa, pb, pc, pd);
      }
      pb := pb + 1;
      RegionBounds(cmp, a[..], v, lo, hi, pa, pb, pc, pd);
    }
  }

  /** The scan from the back: past what is not smaller. */
  method ScanHigh<T>(a: array<T>, lo: nat, hi: nat, cmp: (T, T) -> int, pa: nat, pb: nat, pc0: int, pd0: int,
                     ghost v: T, ghost s0: seq<T>) returns (pc: int, pd: int)
    requires |s0| == a.Length && lo <= hi <= a.Length
    requires Regions(cmp, a[..], v, lo, hi, pa, pb, pc0, pd0) && Shuffled(s0, a[..], lo, hi)
    requires pb <= pc0 ==> pb < a.Length && cmp(a[pb], v) > 0
    modifies a
    ensures Regions(cmp, a[..], v, lo, hi, pa, pb, pc, pd) && Shuffled(s0, a[..], lo, hi)
    ensures pc <= pc0
    ensures pb <= pc ==> pb < pc && pc < a.Length && cmp(a[pb], v) > 0 && cmp(a[pc], v) < 0
  {
    hide Regions, Shuffled;
    pc, pd := pc0, pd0;
    RegionBounds(cmp, a[..], v, lo, hi, pa, pb, pc, pd);
    while pb <= pc && cmp(a[pc], a[lo]) >= 0
      invariant Regions(cmp, a[..], v, lo, hi, pa, pb, pc, pd) && Shuffled(s0, a[..], lo, hi)
      invariant lo < pa <= pb <= pc + 1 && pc <= pd < hi && a[lo] == v && pc <= pc0
      invariant pb <= pc ==> cmp(a[pb], v) > 0
    {
      if cmp(a[pc], a[lo]) == 0 {
        HighEqual(cmp, a[..], v, lo, hi, pa, pb, pc, pd);
        SwapIn(a, pc, pd, s0, lo, hi);
        pd := pd - 1;
      } else {
        HighGreater(cmp, a[..], v, lo, hi, pa, pb, pc, pd);
      }
      pc := pc - 1;
      RegionBounds(cmp, a[..], v, lo, hi, pa, pb, pc, pd);
    }
  }

  // ---- gathering the three parts ----------------------------------------------------------

  /** Smaller than v, then equal, then greater. */
  ghost predicate Split3<T>(cmp: (T, T) -> int, s: seq<T>, v: T, lo: nat, hi: nat, nl: nat, ng: nat) {
    && lo + nl + ng < hi <= |s|
    && (forall i :: lo <= i < lo + nl ==> cmp(s[i], v) < 0)
    && (forall i :: lo + nl <= i < hi - ng ==> cmp(s[i], v) == 0)
    && (forall i :: hi - ng <= i < hi ==> cmp(s[i], v) > 0)
  }

  /** `vecswap`: exchanges two blocks of n elements. */
  method VecSwap<T>(a: array<T>, x: nat, y: nat, n: nat, ghost s0: seq<T>, lo: nat, hi: nat)
    requires lo <= x && x + n <= y && y + n <= hi <= a.Length && |s0| == a.Length && Shuffled(s0, a[..], lo, hi)
    modifies a
    ensures Shuffled(s0, a[..], lo, hi)
    ensures forall i :: x <= i < x + n ==> a[i] == old(a[i - x + y])
    ensures forall i :: y <= i < y + n ==> a[i] == old(a[i - y + x])
    ensures forall i :: 0 <= i < a.Length && !(x <= i < x + n) && !(y <= i < y + n) ==> a[i] == old(a[i])
  {
    hide Shuffled;
    var k := 0;
    while k < n
      invariant 0 <= k <= n && Shuffled(s0, a[..], lo, hi)
      invariant forall i :: x <= i < x + k ==> a[i] == old(a[i - x + y])
      invariant forall i :: y <= i < y + k ==> a[i] == old(a[i - y + x])
      invariant forall i :: 0 <= i < a.Length && !(x <= i < x + k) && !(y <= i < y + k) ==> a[i] == old(a[i])
    {
      ghost var s := a[..];
      SwapIn(a, x + k, y + k, s0, lo, hi);
      assert forall i :: 0 <= i < a.Length ==> a[i] == a[..][i];
      k := k + 1;
    }
  }

  function Min(a: nat, b: nat): nat {
    if a < b then a else b
  }

  /** The two vector swaps that bring the equal elements to the middle. */
  method Gather<T>(a: array<T>, lo: nat, hi: nat, cmp: (T, T) -> int, pa: nat, pb: nat, pd: nat, ghost v: T, ghost s0: seq<T>)
    requires |s0| == a.Length && lo <= hi <= a.Length && Shuffled(s0, a[..], lo, hi)
    requires Regions(cmp, a[..], v, lo, hi, pa, pb, pb - 1, pd)
    modifies a
    ensures Shuffled(s0, a[..], lo, hi)
    ensures pa <= pb && pb <= pd + 1 && Split3(cmp, a[..], v, lo, hi, pb - pa, pd + 1 - pb)
  {
    hide Shuffled;
    GatherLow(a, lo, hi, cmp, pa, pb, v, s0);
    GatherHigh(a, lo, hi, cmp, pb, pd, v, s0);
  }

  method GatherLow<T>(a: array<T>, lo: nat, hi: nat, cmp: (T, T) -> int, pa: nat, pb: nat, ghost v: T, ghost s0: seq<T>)
    requires lo <= pa <= pb <= hi <= a.Length && |s0| == a.Length && Shuffled(s0, a[..], lo, hi)
    requires forall i :: lo <= i < pa ==> cmp(a[i], v) == 0
    requires forall i :: pa <= i < pb ==> cmp(a[i], v) < 0
    modifies a
    ensures Shuffled(s0, a[..], lo, hi)
    ensures forall i :: pb <= i < a.Length ==> a[i] == old(a[i])
    ensures forall i :: lo <= i < lo + (pb - pa) ==> cmp(a[i], v) < 0
    ensures forall i :: lo + (pb - pa) <= i < pb ==> cmp(a[i], v) == 0
  {
    hide Shuffled;
    var r := Min(pa - lo, pb - pa);
    VecSwap(a, lo, pb - r, r, s0, lo, hi);
  }

  method GatherHigh<T>(a: array<T>, lo: nat, hi: nat, cmp: (T, T) -> int, pb: nat, pd: nat, ghost v: T, ghost s0: seq<T>)
    requires lo <= pb <= pd + 1 <= hi <= a.Length && |s0| == a.Length && Shuffled(s0, a[..], lo, hi)
    requires forall i :: pb <= i <= pd ==> cmp(a[i], v) > 0
    requires forall i :: pd < i < hi ==> cmp(a[i], v) == 0
    modifies a
    ensures Shuffled(s0, a[..], lo, hi)
    ensures forall i :: 0 <= i < pb ==> a[i] == old(a[i])
    ensures forall i :: pb <= i < hi - (pd + 1 - pb) ==> cmp(a[i], v) == 0
    ensures forall i :: hi - (pd + 1 - pb) <= i < hi ==> cmp(a[i], v) > 0
  {
    hide Shuffled;
    var r := Min(pd + 1 - pb, hi - pd - 1);
    VecSwap(a, pb, hi - r, r, s0, lo, hi);
  }

  /** The pivot's index: the middle, a median of three, or a pseudo-median of nine. */
  function Pivot<T>(cmp: (T, T) -> int, s: seq<T>, lo: nat, n: nat): (m: nat)
    requires n >= 7 && lo + n <= |s|
    ensures lo <= m < lo + n
  {
    var pm := lo + n / 2;
    if n == 7 then pm
    else if n > 40 then
      var d := n / 8;
      var pl, pn := lo, lo + n - 1;
      Med3(cmp, s, Med3(cmp, s, pl, pl + d, pl + 2 * d), Med3(cmp, s, pm - d, pm, pm + d), Med3(cmp, s, pn - 2 * d, pn - d, pn))
    else Med3(cmp, s, lo, pm, lo + n - 1)
  }

  /** Beyond seven elements the pivot has two others on either side of it, so neither end of the range is ever chosen alone. */
  lemma PivotIsInside<T(!new)>(cmp: (T, T) -> int, s: seq<T>, lo: nat, n: nat) returns (i: nat, j: nat)
    requires Preorder(cmp) && n > 7 && lo + n <= |s|
    ensures lo <= i < lo + n && lo <= j < lo + n
    ensures var m := Pivot(cmp, s, lo, n); i != j && i != m && j != m && cmp(s[i], s[m]) <= 0 && cmp(s[m], s[j]) <= 0
  {
    hide Preorder, Med3;
    var pm, pn := lo + n / 2, lo + n - 1;
    var x, y, z := lo, pm, pn;
    if n > 40 {
      var d := n / 8;
      x := Med3(cmp, s, lo, lo + d, lo + 2 * d);
      y := Med3(cmp, s, pm - d, pm, pm + d);
      z := Med3(cmp, s, pn - 2 * d, pn - d, pn);
    }
    i, j := Sides(cmp, s, x, y, z);
  }

  lemma Sides<T(!new)>(cmp: (T, T) -> int, s: seq<T>, x: nat, y: nat, z: nat) returns (i: nat, j: nat)
    requires Preorder(cmp) && x < y < z < |s|
    ensures var m := Med3(cmp, s, x, y, z);
      {i, j, m} == {x, y, z} && i != j && i != m && j != m && i < |s| && j < |s| && cmp(s[i], s[m]) <= 0 && cmp(s[m], s[j]) <= 0
  {
    Med3IsMedian(cmp, s, x, y, z);
    var m := Med3(cmp, s, x, y, z);
    i := if m == x then y else x;
    j := if m == z then y else z;
    if cmp(s[i], s[m]) > 0 || cmp(s[m], s[j]) > 0 {
      i, j := j, i;
    }
  }

  // ---- the whole sort ---------------------------------------------------------------------

  /** Whether the requested range l..r reaches into lo..hi. */
  predicate Overlaps(l: nat, r: nat, lo: nat, hi: nat) {
    !((l < lo && r < lo) || (l >= hi && r >= hi))
  }

  /** Every requested position of lo..hi is ranked within lo..hi. */
  ghost predicate AllRanked<T>(cmp: (T, T) -> int, s: seq<T>, lo: nat, hi: nat, l: nat, r: nat)
    requires lo <= hi <= |s|
  {
    forall i :: lo <= i < hi && l <= i <= r ==> Ranked(cmp, s, lo, hi, i)
  }

  /** What precedes b is done, and nothing from b on is smaller than it. */
  ghost predicate DoneBefore<T>(cmp: (T, T) -> int, s: seq<T>, lo: nat, b: nat, hi: nat, l: nat, r: nat)
    requires lo <= b <= hi <= |s|
  {
    && (forall i :: lo <= i < b && l <= i <= r ==> Ranked(cmp, s, lo, hi, i))
    && (forall i, j :: lo <= i < b && b <= j < hi ==> cmp(s[i], s[j]) <= 0)
  }

  lemma DoneShuffled<T>(cmp: (T, T) -> int, s: seq<T>, t: seq<T>, lo: nat, b: nat, hi: nat, l: nat, r: nat)
    requires lo <= b <= hi <= |s| && DoneBefore(cmp, s, lo, b, hi, l, r) && Shuffled(s, t, b, hi)
    ensures DoneBefore(cmp, t, lo, b, hi, l, r)
  {
    forall i | lo <= i < b ensures t[i] == s[i] {
      assert t[..b][i] == s[..b][i];
    }
    forall i, j | lo <= i < b && b <= j < hi ensures cmp(t[i], t[j]) <= 0 {
      var k := ShuffledWithin(s, t, b, hi, j);
    }
    forall i | lo <= i < b && l <= i <= r ensures Ranked(cmp, t, lo, hi, i) {
      assert Ranked(cmp, s, lo, hi, i);
    }
  }

  lemma SplitShuffled<T>(cmp: (T, T) -> int, s: seq<T>, t: seq<T>, v: T, lo: nat, hi: nat, nl: nat, ng: nat)
    requires Split3(cmp, s, v, lo, hi, nl, ng) && Shuffled(s, t, lo, lo + nl)
    ensures Split3(cmp, t, v, lo, hi, nl, ng)
  {
    forall i | lo <= i < lo + nl ensures cmp(t[i], v) < 0 {
      var k := ShuffledWithin(s, t, lo, lo + nl, i);
    }
    forall i | lo + nl <= i < hi ensures t[i] == s[i] {
      assert t[lo + nl..][i - lo - nl] == s[lo + nl..][i - lo - nl];
    }
  }

  /** Two parts of a split are in order. */
  lemma SplitOrder<T(!new)>(cmp: (T, T) -> int, s: seq<T>, v: T, lo: nat, hi: nat, nl: nat, ng: nat, i: nat, j: nat)
    requires Preorder(cmp) && Split3(cmp, s, v, lo, hi, nl, ng) && lo <= i < hi && lo <= j < hi
    requires (i < lo + nl && lo + nl <= j) || (i < hi - ng && hi - ng <= j) || (lo + nl <= i < hi - ng && lo + nl <= j < hi - ng)
    ensures cmp(s[i], s[j]) <= 0
  {
    assert cmp(s[i], v) <= 0 && cmp(s[j], v) >= 0;
    assert cmp(v, s[j]) <= 0;
  }

  /** After a round the done part reaches up to the greater elements. */
  lemma RoundDone<T(!new)>(cmp: (T, T) -> int, s: seq<T>, v: T, lo: nat, b: nat, hi: nat, nl: nat, ng: nat, l: nat, r: nat)
    requires Preorder(cmp) && lo <= b && Split3(cmp, s, v, b, hi, nl, ng) && DoneBefore(cmp, s, lo, b, hi, l, r)
    requires AllRanked(cmp, s, b, b + nl, l, r)
    ensures DoneBefore(cmp, s, lo, hi - ng, hi, l, r)
  {
    hide Preorder, Split3;
    SplitBounds(cmp, s, v, b, hi, nl, ng);
    forall i, j | lo <= i < hi - ng && hi - ng <= j < hi ensures cmp(s[i], s[j]) <= 0 {
      if i >= b {
        SplitOrder(cmp, s, v, b, hi, nl, ng, i, j);
      }
    }
    forall i | b <= i < hi - ng && l <= i <= r ensures Ranked(cmp, s, lo, hi, i) {
      if i < b + nl {
        assert Ranked(cmp, s, b, b + nl, i);
      }
      forall j | lo <= j < i ensures cmp(s[j], s[i]) <= 0 {
        if j >= b && i >= b + nl {
          SplitOrder(cmp, s, v, b, hi, nl, ng, j, i);
        }
      }
      forall j | i < j < hi ensures cmp(s[i], s[j]) <= 0 {
        if j >= b + nl {
          SplitOrder(cmp, s, v, b, hi, nl, ng, i, j);
        }
      }
    }
  }

  lemma SplitBounds<T>(cmp: (T, T) -> int, s: seq<T>, v: T, lo: nat, hi: nat, nl: nat, ng: nat)
    requires Split3(cmp, s, v, lo, hi, nl, ng)
    ensures lo + nl + ng < hi <= |s|
  {
  }

  lemma AllDone<T>(cmp: (T, T) -> int, s: seq<T>, lo: nat, b: nat, hi: nat, l: nat, r: nat)
    requires lo <= b <= hi <= |s| && DoneBefore(cmp, s, lo, b, hi, l, r) && AllRanked(cmp, s, b, hi, l, r)
    ensures AllRanked(cmp, s, lo, hi, l, r)
  {
    forall i | b <= i < hi && l <= i <= r ensures Ranked(cmp, s, lo, hi, i) {
      assert Ranked(cmp, s, b, hi, i);
    }
  }

  /** One partition of b..hi around a chosen pivot. */
  method Round<T(!new)>(a: array<T>, b: nat, hi: nat, cmp: (T, T) -> int) returns (nl: nat, ng: nat, ghost v: T)
    requires b + 7 <= hi <= a.Length && Preorder(cmp)
    modifies a
    ensures Shuffled(old(a[..]), a[..], b, hi) && Split3(cmp, a[..], v, b, hi, nl, ng)
  {
    hide Shuffled, Regions, Split3, Pivot;
    ghost var s0 := a[..];
    var pm := Pivot(cmp, a[..], b, hi - b);
    Unshuffled(s0, b, hi);
    SwapIn(a, b, pm, s0, b, hi);
    ghost var s1 := a[..];
    v := a[b];
    var pa, pb, pd := Partition(a, b, hi, cmp);
    ShuffledTrans(s0, s1, a[..], b, hi);
    Gather(a, b, hi, cmp, pa, pb, pd, v, s0);
    nl, ng := pb - pa, pd + 1 - pb;
  }

  /** `_pqsort`: one recursive call for the smaller elements, and a loop for the greater ones. */
  method Sort<T(!new)>(a: array<T>, lo: nat, hi: nat, cmp: (T, T) -> int, l: nat, r: nat)
    requires lo <= hi <= a.Length && Preorder(cmp)
    modifies a
    ensures Shuffled(old(a[..]), a[..], lo, hi)
    ensures AllRanked(cmp, a[..], lo, hi, l, r)
    decreases hi - lo
  {
    hide Preorder, Shuffled, Split3, DoneBefore, AllRanked, Sorted;
    ghost var s0 := a[..];
    Unshuffled(s0, lo, hi);
    DoneStart(cmp, s0, lo, hi, l, r);
    var b := lo;
    while true
      invariant lo <= b <= hi && Shuffled(s0, a[..], lo, hi) && DoneBefore(cmp, a[..], lo, b, hi, l, r)
      decreases hi - b
    {
      ghost var s := a[..];
      if hi - b < 7 {
        InsertionSort(a, b, hi, cmp);
        SortedRanked(cmp, a[..], b, hi, l, r);
        DoneShuffled(cmp, s, a[..], lo, b, hi, l, r);
        ShuffledWider(s, a[..], lo, hi, b, hi);
        ShuffledTrans(s0, s, a[..], lo, hi);
        break;
      }
      var nl, ng, v := Round(a, b, hi, cmp);
      SplitBounds(cmp, a[..], v, b, hi, nl, ng);
      ghost var t := a[..];
      if nl > 1 && Overlaps(l, r, b, b + nl) {
        Sort(a, b, b + nl, cmp, l, r);
        SplitShuffled(cmp, t, a[..], v, b, hi, nl, ng);
        ShuffledWider(t, a[..], b, hi, b, b + nl);
        ShuffledTrans(s, t, a[..], b, hi);
      } else {
        NothingToRank(cmp, a[..], b, b + nl, l, r);
      }
      DoneShuffled(cmp, s, a[..], lo, b, hi, l, r);
      RoundDone(cmp, a[..], v, lo, b, hi, nl, ng, l, r);
      ShuffledWider(s, a[..], lo, hi, b, hi);
      ShuffledTrans(s0, s, a[..], lo, hi);
      b := hi - ng;
      if !(ng > 1 && Overlaps(l, r, b, hi)) {
        NothingToRank(cmp, a[..], b, hi, l, r);
        break;
      }
    }
    AllDone(cmp, a[..], lo, b, hi, l, r);
  }

  lemma DoneStart<T>(cmp: (T, T) -> int, s: seq<T>, lo: nat, hi: nat, l: nat, r: nat)
    requires lo <= hi <= |s|
    ensures DoneBefore(cmp, s, lo, lo, hi, l, r)
  {
  }

  lemma SortedRanked<T>(cmp: (T, T) -> int, s: seq<T>, lo: nat, hi: nat, l: nat, r: nat)
    requires lo <= hi <= |s| && Sorted(cmp, s, lo, hi)
    ensures AllRanked(cmp, s, lo, hi, l, r)
  {
  }

  /** A part of one element, or that the range does not reach, has nothing left to do. */
  lemma NothingToRank<T>(cmp: (T, T) -> int, s: seq<T>, lo: nat, hi: nat, l: nat, r: nat)
    requires lo <= hi <= |s| && (hi - lo <= 1 || !Overlaps(l, r, lo, hi))
    ensures AllRanked(cmp, s, lo, hi, l, r)
  {
  }

  // ---- what the ranks mean ----------------------------------------------------------------

  /** A ranked element is equivalent to the one at its position in any sorted arrangement. */
  lemma RankedIsSorted<T(!new)>(cmp: (T, T) -> int, s: seq<T>, t: seq<T>, i: nat)
    requires Preorder(cmp) && |t| == |s| && multiset(t) == multiset(s) && i < |s|
    requires Ranked(cmp, s, 0, |s|, i) && Sorted(cmp, t, 0, |t|)
    ensures cmp(s[i], t[i]) == 0
  {
    hide Count;
    var v := s[i];
    if cmp(v, t[i]) < 0 {
      var p := x => cmp(x, v) <= 0;
      assert forall j :: i <= j < |t| ==> cmp(v, t[j]) < 0;
      CountBounds(t, p, i);
      assert cmp(v, v) == 0;
      CountBounds(s, p, i + 1);
      CountPermutes(s, t, p);
    } else if cmp(v, t[i]) > 0 {
      var p := x => cmp(x, v) < 0;
      assert forall j :: 0 <= j <= i ==> cmp(t[j], v) < 0;
      CountBounds(t, p, i + 1);
      CountBounds(s, p, i);
      CountPermutes(s, t, p);
    }
  }

  /**
   * `pqsort`: a permutation whose positions l..r hold what the fully sorted array would hold
   * there, up to equivalence.
   */
  method PqSort<T(!new)>(a: array<T>, cmp: (T, T) -> int, l: nat, r: nat)
    requires Preorder(cmp)
    modifies a
    ensures multiset(a[..]) == old(multiset(a[..]))
    ensures forall t: seq<T> :: |t| == a.Length && multiset(t) == multiset(a[..]) && Sorted(cmp, t, 0, |t|) ==>
              forall i :: l <= i <= r && i < a.Length ==> cmp(a[i], t[i]) == 0
  {
    hide Preorder, Ranked, Sorted;
    Sort(a, 0, a.Length, cmp, l, r);
    forall t: seq<T>, i | |t| == a.Length && multiset(t) == multiset(a[..]) && Sorted(cmp, t, 0, |t|)
      && l <= i <= r && i < a.Length
      ensures cmp(a[i], t[i]) == 0
    {
      RankedIsSorted(cmp, a[..], t, i);
    }
  }
}
