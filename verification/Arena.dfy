/** deps/jemalloc/src/arena.c: splitting, trimming, freeing and coalescing the page runs of a chunk. */
module Arena {
  import opened RunMap

  // ---- the books kept about the runs ------------------------------------------------------

  /** The tree of available runs, the chunk's counters, the arena's dirty pages, and whether the chunk is in chunks_dirty. */
  datatype Books = Books(avail: set<(nat, nat)>, nAvail: int, nAdjac: int, chunkDirty: int, ndirty: int, inDirty: bool)

  /** The books are exact, and no two neighbouring free runs are alike; `rest` is what other chunks have dirty. */
  ghost predicate Kept(runs: seq<Run>, lo: nat, hi: nat, rest: int, k: Books) {
    && Tiled(runs, lo, hi) && Pairs(Alike, runs) == 0
    && k.avail == Filed(runs) && k.nAvail == Total(Available, runs) && k.nAdjac == Pairs(Touching, runs)
    && k.chunkDirty == Total(DirtyPages, runs) && k.ndirty == rest + k.chunkDirty && (k.inDirty <==> k.chunkDirty != 0)
  }

  function Loosened(r: Run): Run {
    r.(kind := Loose)
  }

  function TakenOut(k: Books, a: seq<Run>, r: Run, b: seq<Run>): Books {
    var d := if r.dirty then r.pages else 0;
    Books(k.avail - {(r.start, r.pages)}, k.nAvail - 1, k.nAdjac - Before(Touching, a, r) - After(Touching, r, b),
          k.chunkDirty - d, k.ndirty - d, k.chunkDirty - d != 0)
  }

  function PutIn(k: Books, a: seq<Run>, r: Run, b: seq<Run>): Books {
    var d := if r.dirty then r.pages else 0;
    Books(k.avail + {(r.start, r.pages)}, k.nAvail + 1, k.nAdjac + Before(Touching, a, r) + After(Touching, r, b),
          k.chunkDirty + d, k.ndirty + d, k.chunkDirty + d != 0)
  }

  lemma KeptAround(a: seq<Run>, r: Run, r': Run, b: seq<Run>, lo: nat, hi: nat)
    requires Tiled(a + [r] + b, lo, hi) && r'.start == r.start && r'.pages == r.pages
    ensures Tiled(a + [r'] + b, lo, hi)
    ensures forall t :: Total(t, a + [r'] + b) - Total(t, a + [r] + b) == Weight(t, r') - Weight(t, r)
    ensures forall k :: Pairs(k, a + [r'] + b) - Pairs(k, a + [r] + b)
                     == Before(k, a, r') + After(k, r', b) - Before(k, a, r) - After(k, r, b)
  {
    hide Tiled;
    TiledAround(a, [r], b, lo, hi);
    OneTile(r, r', lo + Pages(a));
    TiledInstead(a, [r], [r'], b, lo, hi);
    forall t ensures Total(t, a + [r'] + b) - Total(t, a + [r] + b) == Weight(t, r') - Weight(t, r) {
      TotalAround(t, a, [r], b);
      TotalAround(t, a, [r'], b);
    }
    forall k ensures Pairs(k, a + [r'] + b) - Pairs(k, a + [r] + b)
                  == Before(k, a, r') + After(k, r', b) - Before(k, a, r) - After(k, r, b) {
      PairsAround(k, a, [r], b);
      PairsAround(k, a, [r'], b);
    }
  }

  lemma OneTile(r: Run, r': Run, at: nat)
    requires Tiled([r], at, at + Pages([r])) && r'.start == r.start && r'.pages == r.pages
    ensures Tiled([r'], at, at + Pages([r]))
  {
  }

  /** Taking a free run out of the tree. */
  lemma TakeOutKeeps(a: seq<Run>, r: Run, b: seq<Run>, lo: nat, hi: nat, rest: int, k: Books)
    requires Kept(a + [r] + b, lo, hi, rest, k) && r.kind.Free?
    ensures Kept(a + [Loosened(r)] + b, lo, hi, rest, TakenOut(k, a, r, b))
    ensures (r.start, r.pages) in k.avail
  {
    hide Tiled, Total, Pairs, Filed;
    KeptAround(a, r, Loosened(r), b, lo, hi);
    FiledAround(a, r, b, lo, hi);
    FiledAround(a, Loosened(r), b, lo, hi);
    FiledOne(r);
    FiledOne(Loosened(r));
  }

  /** Putting a loose run into the tree, when no free neighbour is like it. */
  lemma PutInKeeps(a: seq<Run>, r: Run, b: seq<Run>, lo: nat, hi: nat, rest: int, k: Books)
    requires Kept(a + [Loosened(r)] + b, lo, hi, rest, k) && r.kind.Free?
    requires Before(Alike, a, r) == 0 && After(Alike, r, b) == 0
    ensures Kept(a + [r] + b, lo, hi, rest, PutIn(k, a, r, b))
    ensures (r.start, r.pages) !in k.avail
  {
    hide Tiled, Total, Pairs, Filed;
    KeptAround(a, Loosened(r), r, b, lo, hi);
    FiledAround(a, Loosened(r), b, lo, hi);
    FiledAround(a, r, b, lo, hi);
    FiledOne(r);
    FiledOne(Loosened(r));
  }

  lemma FiledOne(r: Run)
    ensures Filed([r]) == if r.kind.Free? then {(r.start, r.pages)} else {}
  {
  }

  ghost predicate NoneFree(runs: seq<Run>) {
    forall i :: 0 <= i < |runs| ==> !runs[i].kind.Free?
  }

  lemma {:induction false} NoneFreeCounts(runs: seq<Run>)
    requires NoneFree(runs)
    ensures Total(Available, runs) == 0 && Total(DirtyPages, runs) == 0 && Filed(runs) == {}
    ensures Pairs(Touching, runs) == 0 && Pairs(Alike, runs) == 0
    decreases |runs|
  {
    if runs != [] {
      NoneFreeCounts(runs[1..]);
    }
  }

  /** Runs out of the tree may be cut, joined or handed out without touching the books. */
  lemma ReshapeKeeps(a: seq<Run>, mid: seq<Run>, mid': seq<Run>, b: seq<Run>, lo: nat, hi: nat, rest: int, k: Books)
    requires Kept(a + mid + b, lo, hi, rest, k) && NoneFree(mid) && NoneFree(mid') && mid != [] && mid' != []
    requires Tiled(mid', lo + Pages(a), lo + Pages(a) + Pages(mid))
    ensures Kept(a + mid' + b, lo, hi, rest, k)
  {
    hide Tiled, Total, Pairs, Filed, Pages;
    TiledInstead(a, mid, mid', b, lo, hi);
    NoneFreeCounts(mid);
    NoneFreeCounts(mid');
    TotalAround(Available, a, mid, b);
    TotalAround(Available, a, mid', b);
    TotalAround(DirtyPages, a, mid, b);
    TotalAround(DirtyPages, a, mid', b);
    PairsAround(Touching, a, mid, b);
    PairsAround(Touching, a, mid', b);
    PairsAround(Alike, a, mid, b);
    PairsAround(Alike, a, mid', b);
    FiledSplit(a + mid, b);
    FiledSplit(a, mid);
    FiledSplit(a + mid', b);
    FiledSplit(a, mid');
  }

  /** There are always more free runs than neighbouring pairs of them: the code's own assertion. */
  lemma {:induction false} FewerPairs(runs: seq<Run>)
    ensures Pairs(Touching, runs) < Total(Available, runs) || (Pairs(Touching, runs) == 0 && Total(Available, runs) == 0)
    ensures Pairs(Touching, runs) <= Total(Available, runs)
    ensures runs != [] && !runs[0].kind.Free? && Total(Available, runs) > 0 ==> Pairs(Touching, runs) < Total(Available, runs)
    decreases |runs|
  {
    if |runs| >= 2 {
      FewerPairs(runs[1..]);
    }
  }

  // ---- the chunk --------------------------------------------------------------------------

  function LastOf(a: seq<Run>): Run
    requires a != []
  {
    a[|a| - 1]
  }

  /** Where a run among others lies, and its neighbours with it. */
  lemma Neighbours(a: seq<Run>, r: Run, b: seq<Run>, lo: nat, hi: nat)
    requires Tiled(a + [r] + b, lo, hi)
    ensures lo <= r.start == lo + Pages(a) && r.pages > 0 && End(r) <= hi
    ensures a == [] <==> r.start == lo
    ensures b == [] <==> End(r) == hi
    ensures a != [] ==> End(LastOf(a)) == r.start && LastOf(a).pages > 0 && lo <= LastOf(a).start
    ensures b != [] ==> b[0].start == End(r) && b[0].pages > 0 && End(b[0]) <= hi
    ensures Tiled(a, lo, r.start) && Tiled(b, End(r), hi)
  {
    hide Pages;
    TiledAround(a, [r], b, lo, hi);
    OnePage(r);
    TiledPages(a, lo, lo + Pages(a));
    if a != [] {
      var n := |a| - 1;
      assert a == a[..n] + [LastOf(a)];
      TiledSplit(a[..n], [LastOf(a)], lo, lo + Pages(a));
      TiledPages([LastOf(a)], lo + Pages(a[..n]), lo + Pages(a));
      OnePage(LastOf(a));
    }
    if b != [] {
      TiledWithin(b, End(r), hi, 0);
    }
  }

  lemma OnePage(r: Run)
    ensures Pages([r]) == r.pages
  {
  }

  ghost predicate NoLoose(runs: seq<Run>) {
    forall i :: 0 <= i < |runs| ==> !runs[i].kind.Loose?
  }

  /** A free run cut in two: the front, out of the tree, and what is left behind it. */
  function Front(r: Run, need: nat): Run {
    Run(r.start, need, Loose, r.dirty)
  }

  function Back(r: Run, need: nat): (s: seq<Run>)
    requires need <= r.pages
  {
    if need == r.pages then [] else [Run(r.start + need, r.pages - need, Free, r.dirty)]
  }

  lemma OneMarked(bits: seq<Page>, r: Run)
    requires Marked(bits, r)
    ensures AllMarked(bits, [r])
  {
  }

  lemma TwoTiles(f: Run, l: Run)
    requires f.pages > 0 && l.pages > 0 && l.start == End(f)
    ensures Tiled([f, l], f.start, End(l))
  {
    assert [f, l][1..] == [l] && [l][1..] == [];
    assert Tiled([l], End(f), End(l));
  }

  lemma CutLoose(a: seq<Run>, r: Run, need: nat, b: seq<Run>, lo: nat, hi: nat, rest: int, k: Books)
    requires Kept(a + [Loosened(r)] + b, lo, hi, rest, k) && 0 < need < r.pages
    ensures Kept(a + [Front(r, need), Loosened(Back(r, need)[0])] + b, lo, hi, rest, k)
  {
    hide Kept, Pages;
    KeptTiled(a + [Loosened(r)] + b, lo, hi, rest, k);
    Neighbours(a, Loosened(r), b, lo, hi);
    OnePage(Loosened(r));
    var f, l := Front(r, need), Loosened(Back(r, need)[0]);
    TwoTiles(f, l);
    ReshapeKeeps(a, [Loosened(r)], [f, l], b, lo, hi, rest, k);
  }

  lemma AlikeSides(a: seq<Run>, r: Run, b: seq<Run>, lo: nat, hi: nat, rest: int, k: Books)
    requires Kept(a + [r] + b, lo, hi, rest, k)
    ensures Before(Alike, a, r) == 0 && After(Alike, r, b) == 0
    ensures forall need :: 0 < need < r.pages && r.kind.Free? ==> After(Alike, Back(r, need)[0], b) == 0
    ensures forall need :: 0 < need < r.pages ==> Before(Alike, a + [Front(r, need)], Back(r, need)[0]) == 0
  {
    hide Tiled, Total, Filed;
    PairsAround(Alike, a, [r], b);
  }

  function UnallocatedSet(bits: seq<Page>, p: nat, size: nat, dirty: bool, unzeroed: bool): seq<Page>
    requires p < |bits|
  {
    bits[p := Page(false, false, dirty, unzeroed, size)]
  }

  /** Both ends of a run marked free; a clean page keeps its unzeroed flag. */
  function FreeMark(bits: seq<Page>, start: nat, pages: nat, dirty: bool): (r: seq<Page>)
    requires pages > 0 && start + pages <= |bits|
    ensures FreeMarked(r, start, pages, dirty) && OnlyWithin(bits, r, start, start + pages)
    ensures forall p :: p == start || p == start + pages - 1 ==> r[p].unzeroed == (!dirty && bits[p].unzeroed)
  {
    var first := UnallocatedSet(bits, start, pages, dirty, !dirty && bits[start].unzeroed);
    UnallocatedSet(first, start + pages - 1, pages, dirty, !dirty && first[start + pages - 1].unzeroed)
  }

  function LargeSet(bits: seq<Page>, p: nat, size: nat, dirty: bool): seq<Page>
    requires p < |bits|
  {
    bits[p := Page(true, true, dirty, bits[p].unzeroed, size)]
  }

  function SmallSet(bits: seq<Page>, p: nat, runInd: nat, dirty: bool): seq<Page>
    requires p < |bits|
  {
    bits[p := Page(true, false, dirty, bits[p].unzeroed, runInd)]
  }

  /** Both ends of a run marked as a large allocation, the last page first. */
  function LargeMark(bits: seq<Page>, start: nat, pages: nat, dirty: bool): (r: seq<Page>)
    requires pages > 0 && start + pages <= |bits|
    ensures LargeMarked(r, start, pages, dirty) && OnlyWithin(bits, r, start, start + pages)
  {
    LargeSet(LargeSet(bits, start + pages - 1, 0, dirty), start, pages, dirty)
  }

  function SizeSet(bits: seq<Page>, p: nat, size: nat): seq<Page>
    requires p < |bits|
  {
    bits[p := bits[p].(size := size)]
  }

  lemma AllMarkedJoin(bits: seq<Page>, a: seq<Run>, r: Run, b: seq<Run>)
    ensures AllMarked(bits, a + [r] + b) <==> AllMarked(bits, a) && Marked(bits, r) && AllMarked(bits, b)
    ensures NoLoose(a + [r] + b) <==> NoLoose(a) && !r.kind.Loose? && NoLoose(b)
  {
    var all := a + [r] + b;
    assert forall i :: 0 <= i < |a| ==> all[i] == a[i];
    assert all[|a|] == r;
    assert forall i :: 0 <= i < |b| ==> b[i] == all[|a| + 1 + i];
  }

  lemma AllMarkedAppend(bits: seq<Page>, a: seq<Run>, b: seq<Run>)
    requires AllMarked(bits, a) && AllMarked(bits, b)
    ensures AllMarked(bits, a + b)
  {
  }

  /** A run handed out of the front of a free one. */
  lemma HandOut(was: seq<Page>, mid: seq<Page>, bits: seq<Page>, a: seq<Run>, r: Run, need: nat, h: Run, b: seq<Run>,
                lo: nat, hi: nat, rest: int, k: Books)
    requires 0 < need <= r.pages && r.kind.Free? && h.start == r.start && h.pages == need && (h.kind.Large? || h.kind.Small?)
    requires Tiled(a + [r] + b, lo, hi) && AllMarked(was, a + [r] + b) && NoLoose(a + [r] + b)
    requires Kept(a + [Front(r, need)] + (Back(r, need) + b), lo, hi, rest, k)
    requires OnlyWithin(was, mid, r.start + need, End(r)) && OnlyWithin(mid, bits, r.start, r.start + need)
    requires AllMarked(mid, Back(r, need)) && Marked(bits, h)
    ensures Kept(a + [h] + (Back(r, need) + b), lo, hi, rest, k)
    ensures AllMarked(bits, a + [h] + (Back(r, need) + b)) && NoLoose(a + [h] + (Back(r, need) + b))
    ensures Total(ActivePages, a + [h] + (Back(r, need) + b)) == Total(ActivePages, a + [r] + b) + need
  {
    hide Kept, Tiled, Pages, OnlyWithin, AllMarked, Marked, NoLoose, Total;
    Neighbours(a, r, b, lo, hi);
    AllMarkedJoin(was, a, r, b);
    HandOutMarks(was, mid, bits, a, r, need, b, lo, hi);
    AllMarkedJoin(bits, a, h, Back(r, need) + b);
    BackNotLoose(r, need, b);
    KeptTiled(a + [Front(r, need)] + (Back(r, need) + b), lo, hi, rest, k);
    Neighbours(a, Front(r, need), Back(r, need) + b, lo, hi);
    OneTiled(h);
    OnePage(Front(r, need));
    ReshapeKeeps(a, [Front(r, need)], [h], Back(r, need) + b, lo, hi, rest, k);
    HandOutActive(a, r, need, h, b);
  }

  lemma OneTiled(h: Run)
    requires h.pages > 0
    ensures Tiled([h], h.start, End(h))
  {
    assert [h][1..] == [];
  }

  lemma BackNotLoose(r: Run, need: nat, b: seq<Run>)
    requires need <= r.pages && NoLoose(b)
    ensures NoLoose(Back(r, need) + b)
  {
  }

  lemma HandOutActive(a: seq<Run>, r: Run, need: nat, h: Run, b: seq<Run>)
    requires need <= r.pages && r.kind.Free? && h.pages == need && (h.kind.Large? || h.kind.Small?)
    ensures Total(ActivePages, a + [h] + (Back(r, need) + b)) == Total(ActivePages, a + [r] + b) + need
  {
    TotalAround(ActivePages, a, [h], Back(r, need) + b);
    TotalAround(ActivePages, a, [r], b);
    TotalSplit(ActivePages, Back(r, need), b);
  }

  lemma HandOutMarks(was: seq<Page>, mid: seq<Page>, bits: seq<Page>, a: seq<Run>, r: Run, need: nat, b: seq<Run>, lo: nat, hi: nat)
    requires 0 < need <= r.pages && Tiled(a, lo, r.start) && Tiled(b, End(r), hi)
    requires AllMarked(was, a) && AllMarked(was, b) && AllMarked(mid, Back(r, need))
    requires OnlyWithin(was, mid, r.start + need, End(r)) && OnlyWithin(mid, bits, r.start, r.start + need)
    ensures AllMarked(bits, a) && AllMarked(bits, Back(r, need) + b)
  {
    hide AllMarked, Tiled, OnlyWithin;
    StillAllMarked(was, mid, r.start + need, End(r), a, lo, r.start);
    StillAllMarked(mid, bits, r.start, r.start + need, a, lo, r.start);
    StillAllMarked(was, mid, r.start + need, End(r), b, End(r), hi);
    StillAllMarked(mid, bits, r.start, r.start + need, b, End(r), hi);
    if need < r.pages {
      OneTiled(Back(r, need)[0]);
      StillAllMarked(mid, bits, r.start, r.start + need, Back(r, need), r.start + need, End(r));
      AllMarkedAppend(bits, Back(r, need), b);
    } else {
      assert Back(r, need) + b == b;
    }
  }

  // ---- joining a freed run with its neighbours --------------------------------------------

  predicate Absorbs(f: Run, other: Run) {
    other.kind.Free? && other.dirty == f.dirty
  }

  /** A freed run grown by a free one like it that follows, and what then follows. */
  function GrownAfter(f: Run, b: seq<Run>): Run {
    if b != [] && Absorbs(f, b[0]) then f.(pages := f.pages + b[0].pages) else f
  }

  function LeftAfter(f: Run, b: seq<Run>): seq<Run> {
    if b != [] && Absorbs(f, b[0]) then b[1..] else b
  }

  /** The same for one that goes before. */
  function GrownBefore(a: seq<Run>, f: Run): Run {
    if a != [] && Absorbs(f, LastOf(a)) then f.(start := LastOf(a).start, pages := LastOf(a).pages + f.pages) else f
  }

  function LeftBefore(a: seq<Run>, f: Run): seq<Run> {
    if a != [] && Absorbs(f, LastOf(a)) then a[..|a| - 1] else a
  }

  /** The runs after one has been freed. */
  function Freed(a: seq<Run>, f: Run, b: seq<Run>): seq<Run> {
    LeftBefore(a, f) + [GrownBefore(a, GrownAfter(f, b))] + LeftAfter(f, b)
  }

  /** Both ends of a joined run given its size. */
  function SizeMark(bits: seq<Page>, start: nat, pages: nat): seq<Page>
    requires pages > 0 && start + pages <= |bits|
  {
    SizeSet(SizeSet(bits, start, pages), start + pages - 1, pages)
  }

  /** Joining on one side leaves the other as it was. */
  lemma FreedParts(a: seq<Run>, f: Run, b: seq<Run>)
    requires NoLoose(a) && NoLoose(b) && f.kind.Free?
    ensures Freed(a, f, b) == LeftBefore(a, GrownAfter(f, b)) + [GrownBefore(a, GrownAfter(f, b))] + LeftAfter(f, b)
    ensures NoLoose(LeftBefore(a, GrownAfter(f, b))) && NoLoose(LeftAfter(f, b))
    ensures GrownAfter(f, b).kind.Free? && GrownBefore(a, GrownAfter(f, b)).kind.Free?
    ensures After(Alike, GrownBefore(a, GrownAfter(f, b)), LeftAfter(f, b)) == After(Alike, GrownAfter(f, b), LeftAfter(f, b))
  {
  }

  /** What the last page of a marked run says. */
  lemma ReadLast(bits: seq<Page>, p: Run)
    requires Marked(bits, p) && !p.kind.Loose? && p.pages > 0 && End(p) <= |bits|
    ensures p.kind.Free? <==> !bits[End(p) - 1].inUse
    ensures p.kind.Free? ==> FreeMarked(bits, p.start, p.pages, p.dirty)
    ensures p.kind.Free? ==> bits[End(p) - 1].dirty == p.dirty && bits[End(p) - 1].size == p.pages
  {
  }

  /** A chunk with another run in use is not emptied. */
  lemma NotEmptied(a: seq<Run>, f: Run, b: seq<Run>)
    requires (a != [] && !LastOf(a).kind.Free?) || (b != [] && !b[0].kind.Free?)
    ensures |Freed(a, f, b)| != 1
  {
  }

  lemma LargeDirty(bits: seq<Page>, r: Run)
    requires Marked(bits, r) && r.kind.Large?
    ensures r.start < |bits| && bits[r.start].dirty == r.dirty && LargeMarked(bits, r.start, r.pages, r.dirty)
  {
  }

  lemma NoneLoose()
    ensures NoLoose([]) && forall bits :: AllMarked(bits, [])
  {
  }

  lemma FirstMarked(bits: seq<Page>, a: seq<Run>)
    requires AllMarked(bits, a) && a != []
    ensures AllMarked(bits, a[..|a| - 1])
  {
  }

  lemma FreeMarkLen(bits: seq<Page>, start: nat, pages: nat, dirty: bool)
    requires pages > 0 && start + pages <= |bits|
    ensures |FreeMark(bits, start, pages, dirty)| == |bits|
  {
  }

  /** An allocated run taken out of use. */
  lemma Loosen(a: seq<Run>, r: Run, f: Run, b: seq<Run>, lo: nat, hi: nat, rest: int, k: Books)
    requires Kept(a + [r] + b, lo, hi, rest, k) && (r.kind.Large? || r.kind.Small?) && f.start == r.start && f.pages == r.pages
    ensures Kept(a + [Loosened(f)] + b, lo, hi, rest, k)
  {
    hide Kept, Tiled, Pages;
    KeptTiled(a + [r] + b, lo, hi, rest, k);
    Neighbours(a, r, b, lo, hi);
    OneTiled(Loosened(f));
    OnePage(r);
    ReshapeKeeps(a, [r], [Loosened(f)], b, lo, hi, rest, k);
  }

  lemma OneTotal(r: Run)
    ensures Total(ActivePages, [r]) == Weight(ActivePages, r)
  {
    assert [r][1..] == [];
  }

  lemma FreedActive(a: seq<Run>, r: Run, f: Run, b: seq<Run>)
    requires (r.kind.Large? || r.kind.Small?) && f.kind.Free? && f.pages == r.pages
    ensures Total(ActivePages, Freed(a, f, b)) == Total(ActivePages, a + [r] + b) - r.pages
  {
    hide Total;
    OneTotal(r);
    var a', h, b' := LeftBefore(a, f), GrownBefore(a, GrownAfter(f, b)), LeftAfter(f, b);
    OneTotal(h);
    TotalAround(ActivePages, a', [h], b');
    TotalAround(ActivePages, a, [r], b);
    if b' != b {
      OneTotal(b[0]);
      assert b == [b[0]] + b';
      TotalSplit(ActivePages, [b[0]], b');
    }
    if a' != a {
      OneTotal(LastOf(a));
      assert a == a' + [LastOf(a)];
      TotalSplit(ActivePages, a', [LastOf(a)]);
    }
  }

  /** The freed run fills the chunk exactly when no other run is left. */
  lemma Whole(a: seq<Run>, f: Run, b: seq<Run>, lo: nat, hi: nat)
    requires Tiled(Freed(a, f, b), lo, hi) && f.kind.Free?
    ensures |Freed(a, f, b)| == 1 <==> GrownBefore(a, GrownAfter(f, b)).pages == hi - lo
    ensures |Freed(a, f, b)| == 1 ==> Freed(a, f, b)[0].kind.Free?
  {
    hide Tiled;
    Neighbours(LeftBefore(a, f), GrownBefore(a, GrownAfter(f, b)), LeftAfter(f, b), lo, hi);
  }

  /** A large run marked as two, the last page of each first. */
  function CutLarge(bits: seq<Page>, start: nat, first: nat, second: nat, dirty: bool): (r: seq<Page>)
    requires first > 0 && second > 0 && start + first + second <= |bits|
    ensures |r| == |bits|
  {
    LargeSet(LargeSet(LargeSet(bits, start + first - 1, 0, dirty), start, first, dirty), start + first, second, dirty)
  }

  lemma CutMarks(bits: seq<Page>, start: nat, first: nat, second: nat, dirty: bool)
    requires first > 0 && second > 0 && LargeMarked(bits, start, first + second, dirty)
    ensures LargeMarked(CutLarge(bits, start, first, second, dirty), start, first, dirty)
    ensures LargeMarked(CutLarge(bits, start, first, second, dirty), start + first, second, dirty)
    ensures OnlyWithin(bits, CutLarge(bits, start, first, second, dirty), start, start + first + second)
  {
  }

  /** A large run counted as two. */
  lemma CutKeeps(a: seq<Run>, r: Run, x: Run, y: Run, b: seq<Run>, lo: nat, hi: nat, rest: int, k: Books)
    requires Kept(a + [r] + b, lo, hi, rest, k) && r.kind.Large? && x.kind.Large? && y.kind.Large?
    requires x.pages > 0 && y.pages > 0 && x.start == r.start && y.start == End(x) && End(y) == End(r)
    ensures Kept(a + [x] + ([y] + b), lo, hi, rest, k)
    ensures Total(ActivePages, a + [x] + ([y] + b)) == Total(ActivePages, a + [r] + b)
  {
    hide Kept, Tiled, Pages, Total;
    KeptTiled(a + [r] + b, lo, hi, rest, k);
    Neighbours(a, r, b, lo, hi);
    TwoTiles(x, y);
    OnePage(r);
    ReshapeKeeps(a, [r], [x, y], b, lo, hi, rest, k);
    assert a + [x, y] + b == a + [x] + ([y] + b);
    TotalAround(ActivePages, a, [x], [y] + b);
    TotalSplit(ActivePages, [y], b);
    TotalAround(ActivePages, a, [r], b);
    OneTotal(x);
    OneTotal(y);
    OneTotal(r);
  }

  lemma SizeMarkLen(bits: seq<Page>, start: nat, pages: nat)
    requires pages > 0 && start + pages <= |bits|
    ensures |SizeMark(bits, start, pages)| == |bits|
  {
  }

  lemma RestMarked(bits: seq<Page>, b: seq<Run>)
    requires AllMarked(bits, b) && b != []
    ensures AllMarked(bits, b[1..])
  {
  }

  lemma SizeMarks(bits: seq<Page>, start: nat, first: nat, second: nat, dirty: bool)
    requires FreeMarked(bits, start, first, dirty) && FreeMarked(bits, start + first, second, dirty)
    ensures FreeMarked(SizeMark(bits, start, first + second), start, first + second, dirty)
    ensures OnlyWithin(bits, SizeMark(bits, start, first + second), start, start + first + second)
  {
  }

  /** Two loose neighbours joined. */
  lemma JoinLoose(a: seq<Run>, l: Run, m: Run, j: Run, b: seq<Run>, lo: nat, hi: nat, rest: int, k: Books)
    requires Kept(a + [l] + ([m] + b), lo, hi, rest, k) && l.kind.Loose? && m.kind.Loose? && j.kind.Loose?
    requires j.start == l.start && j.pages == l.pages + m.pages
    ensures Kept(a + [j] + b, lo, hi, rest, k)
    ensures lo <= l.start && l.pages > 0 && m.pages > 0 && m.start == End(l) && End(m) <= hi
    ensures Tiled(a, lo, l.start) && Tiled(b, End(m), hi)
  {
    hide Kept, Tiled, Pages;
    KeptTiled(a + [l] + ([m] + b), lo, hi, rest, k);
    Neighbours(a, l, [m] + b, lo, hi);
    assert a + [l] + ([m] + b) == (a + [l]) + [m] + b == a + [l, m] + b;
    assert ([m] + b)[0] == m;
    Neighbours(a + [l], m, b, lo, hi);
    OneTiled(j);
    TwoPages(l, m);
    ReshapeKeeps(a, [l, m], [j], b, lo, hi, rest, k);
  }

  lemma TwoPages(l: Run, m: Run)
    ensures Pages([l, m]) == l.pages + m.pages
  {
    assert [l, m][1..] == [m];
    OnePage(m);
  }

  /** Pages of a small run, each with its place in it. */
  predicate Numbered(bits: seq<Page>, start: nat, end: nat) {
    end <= |bits| && forall p :: start <= p < end ==> bits[p].inUse && !bits[p].large && bits[p].size == p - start
  }

  /** Every page of a small run numbered; only its ends keep the dirty flag. */
  method SmallMark(bits: seq<Page>, start: nat, pages: nat, dirty: bool) returns (r: seq<Page>)
    requires pages > 0 && start + pages <= |bits|
    ensures SmallMarked(r, start, pages, dirty) && OnlyWithin(bits, r, start, start + pages)
    ensures Numbered(r, start, start + pages)
    ensures forall p :: start < p < start + pages - 1 ==> !r[p].dirty
  {
    r := SmallSet(bits, start, 0, dirty);
    var i := 1;
    while i < pages - 1
      invariant 1 <= i <= pages && (pages == 1 || i <= pages - 1) && OnlyWithin(bits, r, start, start + pages)
      invariant r[start].dirty == dirty
      invariant Numbered(r, start, start + i) && forall p :: start < p < start + i ==> !r[p].dirty
    {
      r := SmallSet(r, start + i, i, false);
      i := i + 1;
    }
    r := SmallSet(r, start + pages - 1, pages - 1, dirty);
  }

  class Chunk {
    /** `map_bias` and `chunk_npages`. */
    const bias: nat
    const npages: nat
    var bits: seq<Page>
    var nAvail: int
    var nAdjac: int
    var chunkDirty: int
    var inDirty: bool
    /** The arena's tree, dirty pages and allocated pages. */
    var avail: set<(nat, nat)>
    var ndirty: int
    var nactive: int
    ghost var runs: seq<Run>
    /** What the arena's other chunks have dirty and allocated. */
    ghost const restDirty: int
    ghost const restActive: int

    /** `arena_chunk_init_hard`: a chunk of one clean free run, not yet in the tree of an arena with these totals. */
    constructor (mapBias: nat, chunkNpages: nat, unzeroed: bool, dirtyPages: int, activePages: int)
      requires mapBias < chunkNpages
      ensures Spare() && bias == mapBias && npages == chunkNpages && ndirty == restDirty == dirtyPages && restActive == activePages
    {
      bias, npages := mapBias, chunkNpages;
      bits := seq(chunkNpages, i => Page(false, false, false, unzeroed, chunkNpages - mapBias));
      nAvail, nAdjac, chunkDirty, inDirty, avail, ndirty, nactive := 0, 0, 0, false, {}, dirtyPages, activePages;
      runs := [Run(mapBias, chunkNpages - mapBias, Loose, false)];
      restDirty, restActive := dirtyPages, activePages;
      new;
      NoneFreeCounts(runs);
      OneTiled(runs[0]);
    }

    ghost function Book(): Books
      reads this
    {
      Books(avail, nAvail, nAdjac, chunkDirty, ndirty, inDirty)
    }

    /** Everything that holds between the steps of an operation. */
    ghost predicate Sound()
      reads this
    {
      |bits| == npages && Kept(runs, bias, npages, restDirty, Book())
    }

    /** Everything that holds between operations. */
    ghost predicate Valid()
      reads this
    {
      && Sound() && AllMarked(bits, runs) && NoLoose(runs)
      && nactive == restActive + Total(ActivePages, runs)
    }

    /** `arena_avail_adjac_pred`. */
    predicate AdjacPred(pageind: nat)
      requires pageind <= |bits|
      reads this`bits
    {
      pageind - 1 >= bias && !bits[pageind - 1].inUse
    }

    /** `arena_avail_adjac_succ`. */
    predicate AdjacSucc(pageind: nat, n: nat)
      requires |bits| == npages && pageind + n <= npages
      reads this`bits
    {
      pageind + n != npages && !bits[pageind + n].inUse
    }

    /** A side is looked at only when the page map tells the truth about it. */
    ghost predicate PredTold(maybe: bool, a: seq<Run>, r: Run)
      requires r.start <= |bits|
      reads this`bits
    {
      a != [] ==> if maybe then r.start > bias && (LastOf(a).kind.Free? <==> !bits[r.start - 1].inUse) else !LastOf(a).kind.Free?
    }

    ghost predicate SuccTold(maybe: bool, r: Run, b: seq<Run>)
      requires End(r) <= |bits|
      reads this`bits
    {
      b != [] ==> if maybe then End(r) < |bits| && (b[0].kind.Free? <==> !bits[End(r)].inUse) else !b[0].kind.Free?
    }

    /** What the page map says of the sides is what the books count. */
    lemma SidesTold(maybePred: bool, maybeSucc: bool, a: seq<Run>, now: Run, r: Run, b: seq<Run>)
      requires |bits| == npages && Tiled(a + [now] + b, bias, npages) && r.kind.Free? && now.start == r.start && now.pages == r.pages
      requires End(r) <= npages && PredTold(maybePred, a, r) && SuccTold(maybeSucc, r, b)
      ensures Before(Touching, a, r) == if maybePred && AdjacPred(r.start) then 1 else 0
      ensures After(Touching, r, b) == if maybeSucc && AdjacSucc(r.start, r.pages) then 1 else 0
    {
      hide Tiled;
      Neighbours(a, now, b, bias, npages);
    }

    /** `arena_avail_remove`. */
    method AvailRemove(pageind: nat, n: nat, maybePred: bool, maybeSucc: bool, ghost a: seq<Run>, ghost r: Run, ghost b: seq<Run>)
      requires Sound() && runs == a + [r] + b && r.kind.Free? && r.start == pageind && r.pages == n
      requires FreeMarked(bits, pageind, n, r.dirty) && PredTold(maybePred, a, r) && SuccTold(maybeSucc, r, b)
      modifies this`avail, this`nAvail, this`nAdjac, this`chunkDirty, this`ndirty, this`inDirty, this`runs
      ensures Sound() && runs == a + [Loosened(r)] + b
      ensures nAvail > nAdjac || (nAvail == 0 && nAdjac == 0)
    {
      hide Marked, Kept, Tiled, Total, Pairs, Pair, Weight, Filed, Before, After, PredTold, SuccTold, AdjacPred, AdjacSucc;
      KeptTiled(runs, bias, npages, restDirty, Book());
      SidesTold(maybePred, maybeSucc, a, r, r, b);
      var pred, succ := maybePred && AdjacPred(pageind), maybeSucc && AdjacSucc(pageind, n);
      TakeOutKeeps(a, r, b, bias, npages, restDirty, Book());
      assert inDirty == (chunkDirty != 0) by { KeptDirty(runs, bias, npages, restDirty, Book()); }
      ghost var k := TakenOut(Book(), a, r, b);
      var moved := if bits[pageind].dirty then n else 0;
      var stays := inDirty && chunkDirty == 0;
      nAdjac := nAdjac - (if pred then 1 else 0) - (if succ then 1 else 0);
      nAvail := nAvail - 1;
      ndirty := ndirty - moved;
      chunkDirty := chunkDirty - moved;
      inDirty := stays || chunkDirty != 0;
      avail := avail - {(pageind, n)};
      runs := a + [Loosened(r)] + b;
      assert Book() == k;
      KeptPairs(runs, bias, npages, restDirty, Book());
    }

    /** `arena_avail_insert`. */
    method AvailInsert(pageind: nat, n: nat, maybePred: bool, maybeSucc: bool, ghost a: seq<Run>, ghost r: Run, ghost b: seq<Run>)
      requires Sound() && runs == a + [Loosened(r)] + b && r.kind.Free? && r.start == pageind && r.pages == n
      requires FreeMarked(bits, pageind, n, r.dirty) && PredTold(maybePred, a, r) && SuccTold(maybeSucc, r, b)
      requires Before(Alike, a, r) == 0 && After(Alike, r, b) == 0
      modifies this`avail, this`nAvail, this`nAdjac, this`chunkDirty, this`ndirty, this`inDirty, this`runs
      ensures Sound() && runs == a + [r] + b
      ensures nAvail > nAdjac
    {
      hide Marked, Kept, Tiled, Total, Pairs, Pair, Weight, Filed, Before, After, PredTold, SuccTold, AdjacPred, AdjacSucc;
      KeptTiled(runs, bias, npages, restDirty, Book());
      SidesTold(maybePred, maybeSucc, a, Loosened(r), r, b);
      var pred, succ := maybePred && AdjacPred(pageind), maybeSucc && AdjacSucc(pageind, n);
      PutInKeeps(a, r, b, bias, npages, restDirty, Book());
      assert inDirty == (chunkDirty != 0) by { KeptDirty(runs, bias, npages, restDirty, Book()); }
      ghost var k := PutIn(Book(), a, r, b);
      var moved := if bits[pageind].dirty then n else 0;
      var stays := inDirty && chunkDirty == 0;
      nAdjac := nAdjac + (if pred then 1 else 0) + (if succ then 1 else 0);
      nAvail := nAvail + 1;
      ndirty := ndirty + moved;
      chunkDirty := chunkDirty + moved;
      inDirty := stays || chunkDirty != 0;
      avail := avail + {(pageind, n)};
      runs := a + [r] + b;
      assert Book() == k;
      KeptPairs(runs, bias, npages, restDirty, Book());
      KeptFree(a, r, b, bias, npages, restDirty, Book());
    }

    /** Where every neighbour is marked for what it is, the page map tells the truth. */
    lemma ToldByMarks(a: seq<Run>, now: Run, r: Run, b: seq<Run>)
      requires |bits| == npages && Tiled(a + [now] + b, bias, npages) && now.start == r.start && now.pages == r.pages
      requires AllMarked(bits, a) && AllMarked(bits, b) && NoLoose(a) && NoLoose(b) && End(r) <= npages
      ensures PredTold(true, a, r) && SuccTold(true, r, b)
    {
      hide Tiled;
      Neighbours(a, now, b, bias, npages);
      if a != [] {
        assert Marked(bits, LastOf(a));
      }
      if b != [] {
        assert Marked(bits, b[0]);
      }
    }

    /** `arena_run_split_remove`: the front of a free run taken out of the tree, the rest filed under its own size. */
    method SplitRemove(runInd: nat, need: nat, ghost a: seq<Run>, ghost r: Run, ghost b: seq<Run>)
      requires Sound() && runs == a + [r] + b && r.kind.Free? && r.start == runInd && 0 < need <= r.pages
      requires AllMarked(bits, a) && Marked(bits, r) && AllMarked(bits, b) && NoLoose(a) && NoLoose(b)
      modifies this`bits, this`avail, this`nAvail, this`nAdjac, this`chunkDirty, this`ndirty, this`inDirty, this`nactive, this`runs
      ensures Sound() && runs == a + [Front(r, need)] + (Back(r, need) + b)
      ensures OnlyWithin(old(bits), bits, runInd + need, End(r)) && AllMarked(bits, Back(r, need))
      ensures nactive == old(nactive) + need
    {
      hide Kept, Tiled, Total, Pairs, Filed, PredTold, SuccTold, AdjacPred, AdjacSucc, Before, After;
      var total := bits[runInd].size;
      var rem := total - need;
      var dirty := bits[runInd].dirty;
      KeptTiled(runs, bias, npages, restDirty, Book());
      Neighbours(a, r, b, bias, npages);
      ToldByMarks(a, r, r, b);
      AlikeSides(a, r, b, bias, npages, restDirty, Book());
      AvailRemove(runInd, total, true, true, a, r, b);
      nactive := nactive + need;
      if rem > 0 {
        FileRest(runInd, need, total, dirty, a, r, b);
      } else {
        assert a + [Front(r, need)] + b == a + [Front(r, need)] + ([] + b);
      }
    }

    /** The trailing pages of a run marked and filed as a free run of their own. */
    method FileRest(runInd: nat, need: nat, total: nat, dirty: bool, ghost a: seq<Run>, ghost r: Run, ghost b: seq<Run>)
      requires Sound() && runs == a + [Loosened(r)] + b && r.kind.Free? && r.start == runInd && 0 < need < total == r.pages
      requires AllMarked(bits, b) && NoLoose(b) && dirty == r.dirty
      requires After(Alike, Back(r, need)[0], b) == 0 && Before(Alike, a + [Front(r, need)], Back(r, need)[0]) == 0
      modifies this`bits, this`avail, this`nAvail, this`nAdjac, this`chunkDirty, this`ndirty, this`inDirty, this`runs
      ensures Sound() && runs == a + [Front(r, need)] + (Back(r, need) + b)
      ensures OnlyWithin(old(bits), bits, runInd + need, End(r)) && AllMarked(bits, Back(r, need))
    {
      hide FreeMark, FreeMarked, AllMarked, NoLoose, Kept, Tiled, Total, Pairs, Filed, PredTold, SuccTold, AdjacPred, AdjacSucc, Before, After;
      ghost var f, l := Front(r, need), Loosened(Back(r, need)[0]);
      KeptTiled(runs, bias, npages, restDirty, Book());
      Neighbours(a, Loosened(r), b, bias, npages);
      CutLoose(a, r, need, b, bias, npages, restDirty, Book());
      KeptTiled(a + [f, l] + b, bias, npages, restDirty, Book());
      var rem := total - need;
      bits := FreeMark(bits, runInd + need, rem, dirty);
      AfterCut(old(bits), r, need, a, b);
      assert a + [f, l] + b == a + [f] + [l] + b;
      runs := a + [f] + [l] + b;
      AvailInsert(runInd + need, rem, false, true, a + [f], Back(r, need)[0], b);
      assert a + [f] + Back(r, need) + b == a + [f] + (Back(r, need) + b);
      OneMarked(bits, Back(r, need)[0]);
    }

    /** The remainder's neighbours, as the page map has them. */
    lemma AfterCut(was: seq<Page>, r: Run, need: nat, a: seq<Run>, b: seq<Run>)
      requires |bits| == npages && 0 < need < r.pages && Tiled(a + [Front(r, need), Loosened(Back(r, need)[0])] + b, bias, npages)
      requires OnlyWithin(was, bits, r.start + need, End(r)) && AllMarked(was, b) && NoLoose(b)
      requires End(r) <= npages
      ensures PredTold(false, a + [Front(r, need)], Back(r, need)[0]) && SuccTold(true, Back(r, need)[0], b)
    {
      hide Tiled;
      var f, l := Front(r, need), Loosened(Back(r, need)[0]);
      assert a + [f, l] + b == (a + [f]) + [l] + b;
      Neighbours(a + [f], l, b, bias, npages);
      if b != [] {
        StillAllMarked(was, bits, r.start + need, End(r), b, End(r), npages);
        assert Marked(bits, b[0]);
      }
    }

    /** `arena_run_split_large`: the front of a free run becomes a large run. */
    method SplitLarge(runInd: nat, need: nat, ghost a: seq<Run>, ghost r: Run, ghost b: seq<Run>)
      requires Valid() && runs == a + [r] + b && r.kind.Free? && r.start == runInd && 0 < need <= r.pages
      modifies this
      ensures Valid() && runs == a + [Run(r.start, need, Large, r.dirty)] + (Back(r, need) + b)
    {
      hide Kept, Tiled, Total, AllMarked, NoLoose, LargeMark, LargeMarked;
      KeptTiled(runs, bias, npages, restDirty, Book());
      Neighbours(a, r, b, bias, npages);
      AllMarkedJoin(bits, a, r, b);
      ghost var was := bits;
      var dirty := bits[runInd].dirty;
      SplitRemove(runInd, need, a, r, b);
      ghost var mid := bits;
      bits := LargeMark(bits, runInd, need, dirty);
      ghost var h := Run(r.start, need, Large, r.dirty);
      HandOut(was, mid, bits, a, r, need, h, b, bias, npages, restDirty, Book());
      runs := a + [h] + (Back(r, need) + b);
    }

    /** `arena_run_split_small`: the front of a free run becomes the run of a bin, its pages numbered. */
    method SplitSmall(runInd: nat, need: nat, ghost a: seq<Run>, ghost r: Run, ghost b: seq<Run>)
      requires Valid() && runs == a + [r] + b && r.kind.Free? && r.start == runInd && 0 < need <= r.pages
      modifies this
      ensures Valid() && runs == a + [Run(r.start, need, Small, r.dirty)] + (Back(r, need) + b)
      ensures Numbered(bits, runInd, runInd + need)
    {
      hide Kept, Tiled, Total, AllMarked, NoLoose;
      KeptTiled(runs, bias, npages, restDirty, Book());
      Neighbours(a, r, b, bias, npages);
      AllMarkedJoin(bits, a, r, b);
      ghost var was := bits;
      var dirty := bits[runInd].dirty;
      SplitRemove(runInd, need, a, r, b);
      ghost var mid := bits;
      bits := SmallMark(bits, runInd, need, dirty);
      ghost var h := Run(r.start, need, Small, r.dirty);
      HandOut(was, mid, bits, a, r, need, h, b, bias, npages, restDirty, Book());
      runs := a + [h] + (Back(r, need) + b);
    }

    /** The forward half of `arena_run_coalesce`. */
    method CoalesceNext(runInd: nat, runPages: nat, dirty: bool, ghost a: seq<Run>, ghost f: Run, ghost b: seq<Run>)
        returns (pages: nat)
      requires Sound() && runs == a + [Loosened(f)] + b && f.kind.Free? && f.start == runInd && f.pages == runPages && f.dirty == dirty
      requires FreeMarked(bits, runInd, runPages, dirty) && AllMarked(bits, a) && AllMarked(bits, b) && NoLoose(a) && NoLoose(b)
      modifies this`bits, this`avail, this`nAvail, this`nAdjac, this`chunkDirty, this`ndirty, this`inDirty, this`runs
      ensures Sound() && runs == a + [Loosened(GrownAfter(f, b))] + LeftAfter(f, b) && pages == GrownAfter(f, b).pages
      ensures FreeMarked(bits, runInd, pages, dirty) && AllMarked(bits, a) && AllMarked(bits, LeftAfter(f, b))
      ensures After(Alike, GrownAfter(f, b), LeftAfter(f, b)) == 0
    {
      hide Kept, Tiled, FreeMarked, AllMarked, PredTold, SuccTold, OnlyWithin;
      KeptTiled(runs, bias, npages, restDirty, Book());
      Neighbours(a, Loosened(f), b, bias, npages);
      NextRead(a, f, b);
      pages := runPages;
      if runInd + runPages < npages && !bits[runInd + runPages].inUse && bits[runInd + runPages].dirty == dirty {
        var n := bits[runInd + runPages].size;
        ghost var l, m, rest := Loosened(f), b[0], b[1..];
        assert a + [l] + b == (a + [l]) + [m] + rest;
        AlikeSides(a + [l], m, rest, bias, npages, restDirty, Book());
        AvailRemove(runInd + runPages, n, false, true, a + [l], m, rest);
        pages := pages + n;
        assert runs == a + [l] + ([Loosened(m)] + rest);
        JoinLoose(a, l, Loosened(m), Loosened(GrownAfter(f, b)), rest, bias, npages, restDirty, Book());
        SizeMarks(bits, runInd, runPages, n, dirty);
        StillAllMarked(bits, SizeMark(bits, runInd, pages), runInd, runInd + pages, a, bias, runInd);
        RestMarked(bits, b);
        StillAllMarked(bits, SizeMark(bits, runInd, pages), runInd, runInd + pages, rest, runInd + pages, npages);
        SizeMarkLen(bits, runInd, pages);
        bits := SizeMark(bits, runInd, pages);
        runs := a + [Loosened(GrownAfter(f, b))] + rest;
      }
    }

    /** What the page map says of the run that follows a loose one. */
    lemma NextRead(a: seq<Run>, f: Run, b: seq<Run>)
      requires |bits| == npages && Tiled(a + [Loosened(f)] + b, bias, npages) && f.kind.Free?
      requires AllMarked(bits, a) && AllMarked(bits, b) && NoLoose(b)
      ensures b == [] <==> End(f) == npages
      ensures End(f) <= npages
      ensures b != [] ==> End(f) < npages && (Absorbs(f, b[0]) <==> !bits[End(f)].inUse && bits[End(f)].dirty == f.dirty)
      ensures b != [] && Absorbs(f, b[0]) ==>
                && FreeMarked(bits, End(f), bits[End(f)].size, f.dirty) && bits[End(f)].size == b[0].pages && b[0].start == End(f)
                && PredTold(false, a + [Loosened(f)], b[0]) && End(b[0]) <= npages && SuccTold(true, b[0], b[1..])
    {
      hide Tiled;
      var l := Loosened(f);
      Neighbours(a, l, b, bias, npages);
      if b != [] {
        assert Marked(bits, b[0]);
        assert a + [l] + b == (a + [l]) + [b[0]] + b[1..];
        Neighbours(a + [l], b[0], b[1..], bias, npages);
        if b[1..] != [] {
          assert b[1..][0] == b[1] && Marked(bits, b[1]);
        }
      }
    }

    /** The backward half of `arena_run_coalesce`. */
    method CoalescePrev(runInd: nat, runPages: nat, dirty: bool, ghost a: seq<Run>, ghost f: Run, ghost b: seq<Run>)
        returns (ind: nat, pages: nat)
      requires Sound() && runs == a + [Loosened(f)] + b && f.kind.Free? && f.start == runInd && f.pages == runPages && f.dirty == dirty
      requires FreeMarked(bits, runInd, runPages, dirty) && AllMarked(bits, a) && AllMarked(bits, b) && NoLoose(a)
      modifies this`bits, this`avail, this`nAvail, this`nAdjac, this`chunkDirty, this`ndirty, this`inDirty, this`runs
      ensures Sound() && runs == LeftBefore(a, f) + [Loosened(GrownBefore(a, f))] + b
      ensures ind == GrownBefore(a, f).start && pages == GrownBefore(a, f).pages
      ensures FreeMarked(bits, ind, pages, dirty) && AllMarked(bits, LeftBefore(a, f)) && AllMarked(bits, b)
      ensures Before(Alike, LeftBefore(a, f), GrownBefore(a, f)) == 0
    {
      hide Kept, Tiled, FreeMarked, AllMarked, PredTold, SuccTold, OnlyWithin;
      KeptTiled(runs, bias, npages, restDirty, Book());
      Neighbours(a, Loosened(f), b, bias, npages);
      PrevRead(a, f, b);
      ind, pages := runInd, runPages;
      if runInd > bias && !bits[runInd - 1].inUse && bits[runInd - 1].dirty == dirty {
        var n := bits[runInd - 1].size;
        ind := ind - n;
        ghost var l, p, before := Loosened(f), LastOf(a), a[..|a| - 1];
        assert a == before + [p];
        assert a + [l] + b == before + [p] + ([l] + b);
        AlikeSides(before, p, [l] + b, bias, npages, restDirty, Book());
        AvailRemove(ind, n, true, false, before, p, [l] + b);
        pages := pages + n;
        JoinLoose(before, Loosened(p), l, Loosened(GrownBefore(a, f)), b, bias, npages, restDirty, Book());
        SizeMarks(bits, ind, n, runPages, dirty);
        FirstMarked(bits, a);
        StillAllMarked(bits, SizeMark(bits, ind, pages), ind, ind + pages, before, bias, ind);
        StillAllMarked(bits, SizeMark(bits, ind, pages), ind, ind + pages, b, ind + pages, npages);
        SizeMarkLen(bits, ind, pages);
        bits := SizeMark(bits, ind, pages);
        runs := before + [Loosened(GrownBefore(a, f))] + b;
      }
    }

    /** What the page map says of the run before a loose one. */
    lemma PrevRead(a: seq<Run>, f: Run, b: seq<Run>)
      requires |bits| == npages && Tiled(a + [Loosened(f)] + b, bias, npages) && f.kind.Free?
      requires AllMarked(bits, a) && AllMarked(bits, b) && NoLoose(a)
      ensures a == [] <==> f.start == bias
      ensures bias <= f.start && End(f) <= npages
      ensures a != [] ==> f.start > bias && (Absorbs(f, LastOf(a)) <==> !bits[f.start - 1].inUse && bits[f.start - 1].dirty == f.dirty)
      ensures a != [] && Absorbs(f, LastOf(a)) ==>
                && bits[f.start - 1].size == LastOf(a).pages && LastOf(a).start == f.start - LastOf(a).pages
                && FreeMarked(bits, LastOf(a).start, LastOf(a).pages, f.dirty) && PredTold(true, a[..|a| - 1], LastOf(a))
                && SuccTold(false, LastOf(a), [Loosened(f)] + b)
    {
      hide Tiled, PredTold, Marked, FreeMarked;
      var l := Loosened(f);
      Neighbours(a, l, b, bias, npages);
      if a != [] {
        var before, p := a[..|a| - 1], LastOf(a);
        assert Marked(bits, p);
        assert a + [l] + b == before + [p] + ([l] + b);
        Neighbours(before, p, [l] + b, bias, npages);
        if before != [] {
          assert LastOf(before) == a[|a| - 2] && Marked(bits, a[|a| - 2]);
        }
        PredByMark(before, p);
        ReadLast(bits, p);
      }
    }

    lemma PredByMark(a: seq<Run>, r: Run)
      requires r.start <= |bits|
      requires a != [] ==> End(LastOf(a)) == r.start && LastOf(a).pages > 0 && bias <= LastOf(a).start
      requires a != [] ==> Marked(bits, LastOf(a)) && !LastOf(a).kind.Loose?
      ensures PredTold(true, a, r)
    {
    }

    /** `arena_run_coalesce` between the marking and the filing of a freed run, as `arena_run_dalloc` does them. */
    method FileFreed(runInd: nat, runPages: nat, dirty: bool, ghost a: seq<Run>, ghost f: Run, ghost b: seq<Run>) returns (pages: nat)
      requires Sound() && runs == a + [Loosened(f)] + b && f.kind.Free? && f.start == runInd && f.pages == runPages && f.dirty == dirty
      requires FreeMarked(bits, runInd, runPages, dirty) && AllMarked(bits, a) && AllMarked(bits, b) && NoLoose(a) && NoLoose(b)
      modifies this`bits, this`avail, this`nAvail, this`nAdjac, this`chunkDirty, this`ndirty, this`inDirty, this`runs
      ensures Sound() && runs == Freed(a, f, b) && AllMarked(bits, runs) && NoLoose(runs)
      ensures pages == GrownBefore(a, GrownAfter(f, b)).pages
    {
      hide Kept, Tiled, FreeMarked, AllMarked, PredTold, SuccTold, NoLoose, Before, After;
      ghost var g, b' := GrownAfter(f, b), LeftAfter(f, b);
      ghost var h, a' := GrownBefore(a, g), LeftBefore(a, g);
      FreedParts(a, f, b);
      var n := CoalesceNext(runInd, runPages, dirty, a, f, b);
      var ind;
      ind, pages := CoalescePrev(runInd, n, dirty, a, g, b');
      KeptTiled(runs, bias, npages, restDirty, Book());
      Neighbours(a', Loosened(h), b', bias, npages);
      ToldByMarks(a', Loosened(h), h, b');
      AvailInsert(ind, pages, true, true, a', h, b');
      AllMarkedJoin(bits, a', h, b');
    }

    /** A chunk that is all one free run and has left the tree: the arena's spare. */
    ghost predicate Spare()
      reads this
    {
      && Sound() && |runs| == 1 && runs[0].kind.Loose? && nactive == restActive
      && FreeMarked(bits, runs[0].start, runs[0].pages, runs[0].dirty)
    }

    /**
      `arena_run_dalloc`: the run is free, joined with the free runs like it on either side; a chunk left with
      nothing allocated becomes the spare. `binPages` is the length of the runs of a small run's bin.
     */
    method Dalloc(runInd: nat, dirty: bool, cleaned: bool, binPages: nat, ghost a: seq<Run>, ghost r: Run, ghost b: seq<Run>)
        returns (emptied: bool)
      requires Valid() && runs == a + [r] + b && (r.kind.Large? || r.kind.Small?) && r.start == runInd
      requires r.kind.Small? ==> binPages == r.pages
      modifies this
      ensures !emptied ==> Valid() && runs == Freed(a, Run(r.start, r.pages, Free, dirty || (!cleaned && r.dirty)), b)
      ensures emptied ==> Spare()
      ensures emptied <==> |Freed(a, Run(r.start, r.pages, Free, dirty || (!cleaned && r.dirty)), b)| == 1
    {
      hide Kept, Tiled, Total, AllMarked, NoLoose, FreeMark, FreeMarked, OnlyWithin, Freed;
      KeptTiled(runs, bias, npages, restDirty, Book());
      Neighbours(a, r, b, bias, npages);
      AllMarkedJoin(bits, a, r, b);
      var runPages := if bits[runInd].large then bits[runInd].size else binPages;
      nactive := nactive - runPages;
      var nowDirty := dirty || (!cleaned && bits[runInd].dirty);
      ghost var f := Run(r.start, r.pages, Free, nowDirty);
      StillAllMarked(bits, FreeMark(bits, runInd, runPages, nowDirty), runInd, runInd + runPages, a, bias, runInd);
      StillAllMarked(bits, FreeMark(bits, runInd, runPages, nowDirty), runInd, runInd + runPages, b, runInd + runPages, npages);
      FreeMarkLen(bits, runInd, runPages, nowDirty);
      bits := FreeMark(bits, runInd, runPages, nowDirty);
      Loosen(a, r, f, b, bias, npages, restDirty, Book());
      runs := a + [Loosened(f)] + b;
      var pages := FileFreed(runInd, runPages, nowDirty, a, f, b);
      FreedActive(a, r, f, b);
      KeptTiled(runs, bias, npages, restDirty, Book());
      Whole(a, f, b, bias, npages);
      emptied := pages == npages - bias;
      if emptied {
        ChunkDealloc(runs[0]);
      }
    }

    /** The part of `arena_chunk_dealloc` that takes the chunk's one run out of the tree. */
    method ChunkDealloc(ghost r: Run)
      requires Valid() && runs == [r] && r.kind.Free?
      modifies this`avail, this`nAvail, this`nAdjac, this`chunkDirty, this`ndirty, this`inDirty, this`runs
      ensures Spare() && runs == [Loosened(r)]
    {
      hide Kept, Tiled, Pairs, Filed;
      assert [] + [r] + [] == [r] && [] + [Loosened(r)] + [] == [Loosened(r)];
      KeptTiled(runs, bias, npages, restDirty, Book());
      Neighbours([], r, [], bias, npages);
      assert Marked(bits, runs[0]);
      AvailRemove(bias, npages - bias, false, false, [], r, []);
      assert Total(ActivePages, [r]) == 0;
    }

    /** `arena_chunk_alloc` with a spare: its one run goes back into the tree. */
    method ChunkAllocSpare()
      requires Spare()
      modifies this`avail, this`nAvail, this`nAdjac, this`chunkDirty, this`ndirty, this`inDirty, this`runs
      ensures Valid() && |runs| == 1 && runs[0].kind.Free?
    {
      hide Kept, Tiled, Pairs, Filed;
      ghost var r := runs[0].(kind := Free);
      assert runs == [Loosened(r)];
      assert [] + [r] + [] == [r] && [] + [Loosened(r)] + [] == [Loosened(r)];
      KeptTiled(runs, bias, npages, restDirty, Book());
      Neighbours([], Loosened(r), [], bias, npages);
      AvailInsert(bias, npages - bias, false, false, [], r, []);
      assert Total(ActivePages, [r]) == 0;
    }

    /** A large run re-marked as two of them. */
    method Cut(pageind: nat, first: nat, second: nat, ghost a: seq<Run>, ghost r: Run, ghost b: seq<Run>)
      requires Valid() && runs == a + [r] + b && r.kind.Large? && r.start == pageind && first > 0 && second > 0 && first + second == r.pages
      modifies this`bits, this`runs
      ensures Valid() && runs == a + [Run(pageind, first, Large, r.dirty)] + ([Run(pageind + first, second, Large, r.dirty)] + b)
    {
      hide Kept, Tiled, Total, AllMarked, NoLoose, CutLarge, LargeMarked, OnlyWithin;
      KeptTiled(runs, bias, npages, restDirty, Book());
      Neighbours(a, r, b, bias, npages);
      AllMarkedJoin(bits, a, r, b);
      LargeDirty(bits, r);
      var dirty := bits[pageind].dirty;
      ghost var x, y := Run(pageind, first, Large, r.dirty), Run(pageind + first, second, Large, r.dirty);
      CutMarks(bits, pageind, first, second, dirty);
      ghost var now := CutLarge(bits, pageind, first, second, dirty);
      StillAllMarked(bits, now, pageind, End(r), a, bias, pageind);
      StillAllMarked(bits, now, pageind, End(r), b, End(r), npages);
      AllMarkedJoin(now, [], y, b);
      assert [] + [y] + b == [y] + b;
      NoneLoose();
      AllMarkedJoin(now, a, x, [y] + b);
      CutKeeps(a, r, x, y, b, bias, npages, restDirty, Book());
      bits := CutLarge(bits, pageind, first, second, dirty);
      runs := a + [x] + ([y] + b);
    }

    /** `arena_run_trim_head`: the leading pages of a large run are freed. */
    method TrimHead(pageind: nat, oldPages: nat, newPages: nat, ghost a: seq<Run>, ghost r: Run, ghost b: seq<Run>)
      requires Valid() && runs == a + [r] + b && r.kind.Large? && r.start == pageind && 0 < newPages < oldPages == r.pages
      modifies this
      ensures Valid()
      ensures runs == Freed(a, Run(pageind, oldPages - newPages, Free, r.dirty),
                            [Run(pageind + oldPages - newPages, newPages, Large, r.dirty)] + b)
    {
      hide Sound, Kept, Tiled, Total, AllMarked, NoLoose, Freed;
      var head := oldPages - newPages;
      Cut(pageind, head, newPages, a, r, b);
      ghost var rest := [Run(pageind + head, newPages, Large, r.dirty)] + b;
      NotEmptied(a, Run(pageind, head, Free, r.dirty), rest);
      var emptied := Dalloc(pageind, false, false, 0, a, Run(pageind, head, Large, r.dirty), rest);
    }

    /** `arena_run_trim_tail`: the trailing pages of a large run are freed. */
    method TrimTail(pageind: nat, oldPages: nat, newPages: nat, dirty: bool, ghost a: seq<Run>, ghost r: Run, ghost b: seq<Run>)
      requires Valid() && runs == a + [r] + b && r.kind.Large? && r.start == pageind && 0 < newPages < oldPages == r.pages
      modifies this
      ensures Valid()
      ensures runs == Freed(a + [Run(pageind, newPages, Large, r.dirty)],
                            Run(pageind + newPages, oldPages - newPages, Free, dirty || r.dirty), b)
    {
      hide Sound, Kept, Tiled, Total, AllMarked, NoLoose, Freed;
      Cut(pageind, newPages, oldPages - newPages, a, r, b);
      ghost var x, y := Run(pageind, newPages, Large, r.dirty), Run(pageind + newPages, oldPages - newPages, Large, r.dirty);
      assert a + [x] + ([y] + b) == (a + [x]) + [y] + b;
      NotEmptied(a + [x], Run(pageind + newPages, oldPages - newPages, Free, dirty || r.dirty), b);
      var emptied := Dalloc(pageind + newPages, dirty, false, 0, a + [x], y, b);
    }
  }

  lemma KeptTiled(runs: seq<Run>, lo: nat, hi: nat, rest: int, k: Books)
    requires Kept(runs, lo, hi, rest, k)
    ensures Tiled(runs, lo, hi)
  {
  }

  lemma KeptPairs(runs: seq<Run>, lo: nat, hi: nat, rest: int, k: Books)
    requires Kept(runs, lo, hi, rest, k)
    ensures k.nAvail > k.nAdjac || (k.nAvail == 0 && k.nAdjac == 0)
  {
    FewerPairs(runs);
  }

  lemma KeptFree(a: seq<Run>, r: Run, b: seq<Run>, lo: nat, hi: nat, rest: int, k: Books)
    requires Kept(a + [r] + b, lo, hi, rest, k) && r.kind.Free?
    ensures k.nAvail > 0
  {
    TotalAround(Available, a, [r], b);
  }

  lemma KeptDirty(runs: seq<Run>, lo: nat, hi: nat, rest: int, k: Books)
    requires Kept(runs, lo, hi, rest, k)
    ensures k.inDirty <==> k.chunkDirty != 0
  {
  }
}
