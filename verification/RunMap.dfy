/** The runs that tile an arena chunk, what its page map says of them, and the totals kept about them. */
module RunMap {

  /** A run is Loose while it is neither allocated nor in the tree of available runs. */
  datatype Kind = Free | Large | Small | Loose

  datatype Run = Run(start: nat, pages: nat, kind: Kind, dirty: bool)

  /** An entry of the page map; the size of a small run's page is its place in the run. */
  datatype Page = Page(inUse: bool, large: bool, dirty: bool, unzeroed: bool, size: nat)

  function End(r: Run): nat {
    r.start + r.pages
  }

  // ---- tiling -----------------------------------------------------------------------------

  /** The runs cover the pages from lo to hi, in order and without overlap. */
  ghost predicate Tiled(runs: seq<Run>, lo: nat, hi: nat) {
    if runs == [] then lo == hi
    else runs[0].start == lo && runs[0].pages > 0 && Tiled(runs[1..], End(runs[0]), hi)
  }

  ghost function Pages(runs: seq<Run>): nat {
    if runs == [] then 0 else runs[0].pages + Pages(runs[1..])
  }

  lemma {:induction false} TiledSplit(a: seq<Run>, b: seq<Run>, lo: nat, hi: nat)
    ensures Tiled(a + b, lo, hi) <==> Tiled(a, lo, lo + Pages(a)) && Tiled(b, lo + Pages(a), hi)
    decreases |a|
  {
    if a == [] {
      assert a + b == b;
    } else {
      assert (a + b)[1..] == a[1..] + b;
      TiledSplit(a[1..], b, lo + a[0].pages, hi);
    }
  }

  lemma {:induction false} TiledPages(runs: seq<Run>, lo: nat, hi: nat)
    requires Tiled(runs, lo, hi)
    ensures hi == lo + Pages(runs)
    decreases |runs|
  {
    if runs != [] {
      TiledPages(runs[1..], End(runs[0]), hi);
    }
  }

  lemma {:induction false} TiledWithin(runs: seq<Run>, lo: nat, hi: nat, i: nat)
    requires Tiled(runs, lo, hi) && i < |runs|
    ensures lo <= runs[i].start < End(runs[i]) <= hi
    decreases |runs|
  {
    TiledPages(runs, lo, hi);
    if i > 0 {
      TiledWithin(runs[1..], End(runs[0]), hi, i - 1);
    }
  }

  /** A stretch of the runs and what lies on either side of it. */
  lemma TiledAround(a: seq<Run>, mid: seq<Run>, b: seq<Run>, lo: nat, hi: nat)
    requires Tiled(a + mid + b, lo, hi)
    ensures Tiled(a, lo, lo + Pages(a)) && Tiled(mid, lo + Pages(a), lo + Pages(a) + Pages(mid))
    ensures Tiled(b, lo + Pages(a) + Pages(mid), hi)
  {
    TiledSplit(a + mid, b, lo, hi);
    TiledPages(a + mid, lo, lo + Pages(a + mid));
    TiledSplit(a, mid, lo, lo + Pages(a + mid));
    TiledPages(mid, lo + Pages(a), lo + Pages(a + mid));
  }

  /** Runs replaced by others that tile the same pages. */
  lemma TiledInstead(a: seq<Run>, mid: seq<Run>, mid': seq<Run>, b: seq<Run>, lo: nat, hi: nat)
    requires Tiled(a + mid + b, lo, hi) && Tiled(mid', lo + Pages(a), lo + Pages(a) + Pages(mid))
    ensures Tiled(a + mid' + b, lo, hi)
  {
    TiledAround(a, mid, b, lo, hi);
    TiledPages(mid', lo + Pages(a), lo + Pages(a) + Pages(mid));
    TiledSplit(a, mid', lo, lo + Pages(a) + Pages(mid));
    TiledPages(a + mid', lo, lo + Pages(a) + Pages(mid));
    TiledSplit(a + mid', b, lo, hi);
  }

  // ---- the page map -----------------------------------------------------------------------

  /** A free run as its first and last pages record it. */
  predicate FreeMarked(bits: seq<Page>, start: nat, pages: nat, dirty: bool) {
    && pages > 0 && start + pages <= |bits|
    && !bits[start].inUse && !bits[start].large && bits[start].size == pages && bits[start].dirty == dirty
    && !bits[start + pages - 1].inUse && !bits[start + pages - 1].large && bits[start + pages - 1].size == pages
    && bits[start + pages - 1].dirty == dirty
  }

  predicate LargeMarked(bits: seq<Page>, start: nat, pages: nat, dirty: bool) {
    && pages > 0 && start + pages <= |bits|
    && bits[start].inUse && bits[start].large && bits[start].size == pages && bits[start].dirty == dirty
    && bits[start + pages - 1].inUse && bits[start + pages - 1].large && bits[start + pages - 1].dirty == dirty
    && (pages > 1 ==> bits[start + pages - 1].size == 0)
  }

  predicate SmallMarked(bits: seq<Page>, start: nat, pages: nat, dirty: bool) {
    && pages > 0 && start + pages <= |bits|
    && bits[start].inUse && !bits[start].large && bits[start].dirty == dirty
    && bits[start + pages - 1].inUse && !bits[start + pages - 1].large && bits[start + pages - 1].dirty == dirty
  }

  predicate Marked(bits: seq<Page>, r: Run) {
    match r.kind
    case Free => FreeMarked(bits, r.start, r.pages, r.dirty)
    case Large => LargeMarked(bits, r.start, r.pages, r.dirty)
    case Small => SmallMarked(bits, r.start, r.pages, r.dirty)
    case Loose => true
  }

  ghost predicate AllMarked(bits: seq<Page>, runs: seq<Run>) {
    forall i :: 0 <= i < |runs| ==> Marked(bits, runs[i])
  }

  /** Only pages from lo to hi may have changed. */
  ghost predicate OnlyWithin(was: seq<Page>, now: seq<Page>, lo: nat, hi: nat) {
    |was| == |now| && forall p :: 0 <= p < |was| && (p < lo || p >= hi) ==> now[p] == was[p]
  }

  /** A run outside the pages that changed is marked as before. */
  lemma StillMarked(was: seq<Page>, now: seq<Page>, lo: nat, hi: nat, r: Run)
    requires OnlyWithin(was, now, lo, hi) && Marked(was, r) && (End(r) <= lo || hi <= r.start) && r.pages > 0
    ensures Marked(now, r)
  {
  }

  /** Runs on either side of the pages that changed are marked as before. */
  lemma StillAllMarked(was: seq<Page>, now: seq<Page>, lo: nat, hi: nat, runs: seq<Run>, from: nat, to: nat)
    requires OnlyWithin(was, now, lo, hi) && AllMarked(was, runs) && Tiled(runs, from, to) && (to <= lo || hi <= from)
    ensures AllMarked(now, runs)
  {
    forall i | 0 <= i < |runs| ensures Marked(now, runs[i]) {
      TiledWithin(runs, from, to, i);
      StillMarked(was, now, lo, hi, runs[i]);
    }
  }

  // ---- totals -----------------------------------------------------------------------------

  datatype Tally = Available | DirtyPages | ActivePages

  function Weight(t: Tally, r: Run): nat {
    match t
    case Available => if r.kind.Free? then 1 else 0
    case DirtyPages => if r.kind.Free? && r.dirty then r.pages else 0
    case ActivePages => if r.kind.Large? || r.kind.Small? then r.pages else 0
  }

  function Total(t: Tally, runs: seq<Run>): nat {
    if runs == [] then 0 else Weight(t, runs[0]) + Total(t, runs[1..])
  }

  lemma {:induction false} TotalSplit(t: Tally, a: seq<Run>, b: seq<Run>)
    ensures Total(t, a + b) == Total(t, a) + Total(t, b)
    decreases |a|
  {
    if a == [] {
      assert a + b == b;
    } else {
      assert (a + b)[1..] == a[1..] + b;
      TotalSplit(t, a[1..], b);
    }
  }

  lemma TotalAround(t: Tally, a: seq<Run>, mid: seq<Run>, b: seq<Run>)
    ensures Total(t, a + mid + b) == Total(t, a) + Total(t, mid) + Total(t, b)
  {
    TotalSplit(t, a + mid, b);
    TotalSplit(t, a, mid);
  }

  /** Neighbouring available runs, and those among them that should have been one. */
  datatype Pairing = Touching | Alike

  function Pair(k: Pairing, a: Run, b: Run): nat {
    if a.kind.Free? && b.kind.Free? && (k.Alike? ==> a.dirty == b.dirty) then 1 else 0
  }

  function Pairs(k: Pairing, runs: seq<Run>): nat {
    if |runs| < 2 then 0 else Pair(k, runs[0], runs[1]) + Pairs(k, runs[1..])
  }

  lemma {:induction false} PairsSplit(k: Pairing, a: seq<Run>, b: seq<Run>)
    requires a != [] && b != []
    ensures Pairs(k, a + b) == Pairs(k, a) + Pair(k, a[|a| - 1], b[0]) + Pairs(k, b)
    decreases |a|
  {
    assert (a + b)[1..] == a[1..] + b;
    if |a| == 1 {
      assert a[1..] + b == b;
    } else {
      PairsSplit(k, a[1..], b);
    }
  }

  /** The pair a run makes with the last of those before it, and with the first of those after it. */
  function Before(k: Pairing, a: seq<Run>, r: Run): nat {
    if a == [] then 0 else Pair(k, a[|a| - 1], r)
  }

  function After(k: Pairing, r: Run, b: seq<Run>): nat {
    if b == [] then 0 else Pair(k, r, b[0])
  }

  /** The pairs, counted around a stretch of runs. */
  lemma PairsAround(k: Pairing, a: seq<Run>, mid: seq<Run>, b: seq<Run>)
    requires mid != []
    ensures Pairs(k, a + mid + b)
         == Pairs(k, a) + Before(k, a, mid[0]) + Pairs(k, mid) + After(k, mid[|mid| - 1], b) + Pairs(k, b)
  {
    if a != [] {
      PairsSplit(k, a, mid);
    } else {
      assert a + mid == mid;
    }
    if b != [] {
      PairsSplit(k, a + mid, b);
    } else {
      assert a + mid + b == a + mid;
    }
  }

  // ---- the tree of available runs ---------------------------------------------------------

  /** The free runs, each with the size it is filed under. */
  ghost function Filed(runs: seq<Run>): set<(nat, nat)> {
    if runs == [] then {}
    else (if runs[0].kind.Free? then {(runs[0].start, runs[0].pages)} else {}) + Filed(runs[1..])
  }

  lemma {:induction false} FiledSplit(a: seq<Run>, b: seq<Run>)
    ensures Filed(a + b) == Filed(a) + Filed(b)
    decreases |a|
  {
    if a == [] {
      assert a + b == b;
    } else {
      assert (a + b)[1..] == a[1..] + b;
      FiledSplit(a[1..], b);
    }
  }

  lemma {:induction false} FiledWithin(runs: seq<Run>, lo: nat, hi: nat)
    requires Tiled(runs, lo, hi)
    ensures forall e :: e in Filed(runs) ==> lo <= e.0 < hi
    decreases |runs|
  {
    if runs != [] {
      TiledPages(runs, lo, hi);
      FiledWithin(runs[1..], End(runs[0]), hi);
    }
  }

  /** One run's entry against those of all the others. */
  lemma FiledAround(a: seq<Run>, r: Run, b: seq<Run>, lo: nat, hi: nat)
    requires Tiled(a + [r] + b, lo, hi)
    ensures Filed(a + [r] + b) == Filed(a) + Filed([r]) + Filed(b)
    ensures forall n: nat :: (r.start, n) !in Filed(a) + Filed(b)
  {
    FiledSplit(a + [r], b);
    FiledSplit(a, [r]);
    TiledAround(a, [r], b, lo, hi);
    FiledWithin(a, lo, lo + Pages(a));
    FiledWithin(b, lo + Pages(a) + Pages([r]), hi);
  }
}
