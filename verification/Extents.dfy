/** deps/jemalloc/src/chunk.c: free address ranges kept in two trees, split on recycling and joined on recording. */
module Extents {
  import opened Prelude

  /** One past the largest `size_t`. */
  const WORD: nat := 0x1_0000_0000_0000_0000

  /** A node of the trees: a free address range. */
  datatype Extent = Extent(addr: nat, size: nat, zeroed: bool)

  function End(e: Extent): nat {
    e.addr + e.size
  }

  // ---- the trees --------------------------------------------------------------------------

  /** `extent_szad_comp`: by size, then by address. */
  predicate LessSzad(a: Extent, b: Extent) {
    a.size < b.size || (a.size == b.size && a.addr < b.addr)
  }

  /** `extent_ad_comp`. */
  predicate LessAd(a: Extent, b: Extent) {
    a.addr < b.addr
  }

  /** The first node in size order that is not below a key. */
  ghost predicate IsFirstFit(tree: set<Extent>, key: Extent, e: Extent) {
    e in tree && !LessSzad(e, key) && forall x :: x in tree && !LessSzad(x, key) ==> !LessSzad(x, e)
  }

  /** `extent_tree_szad_nsearch`. */
  method NSearchSzad(tree: set<Extent>, key: Extent) returns (r: Option<Extent>)
    ensures r.None? <==> forall x :: x in tree ==> LessSzad(x, key)
    ensures r.Some? ==> IsFirstFit(tree, key, r.value)
  {
    r := None;
    var todo := tree;
    while todo != {}
      invariant todo <= tree
      invariant r.None? ==> forall x :: x in tree && x !in todo ==> LessSzad(x, key)
      invariant r.Some? ==> IsFirstFit(tree - todo, key, r.value)
      decreases |todo|
    {
      var e :| e in todo;
      todo := todo - {e};
      if !LessSzad(e, key) && (r.None? || LessSzad(e, r.value)) {
        r := Some(e);
      }
    }
    assert tree - todo == tree;
  }

  /** `extent_tree_ad_nsearch`: the first node in address order at or after an address. */
  method NSearchAd(tree: set<Extent>, addr: nat) returns (r: Option<Extent>)
    ensures r.None? <==> forall x :: x in tree ==> x.addr < addr
    ensures r.Some? ==> r.value in tree && r.value.addr >= addr
    ensures r.Some? ==> forall x :: x in tree && x.addr >= addr ==> !LessAd(x, r.value)
  {
    r := None;
    var todo := tree;
    while todo != {}
      invariant todo <= tree
      invariant r.None? ==> forall x :: x in tree && x !in todo ==> x.addr < addr
      invariant r.Some? ==> r.value in tree && r.value.addr >= addr
      invariant r.Some? ==> forall x :: x in tree && x !in todo && x.addr >= addr ==> !LessAd(x, r.value)
      decreases |todo|
    {
      var e :| e in todo;
      todo := todo - {e};
      if e.addr >= addr && (r.None? || LessAd(e, r.value)) {
        r := Some(e);
      }
    }
  }

  /** `extent_tree_ad_prev`. */
  method PrevAd(tree: set<Extent>, node: Extent) returns (r: Option<Extent>)
    ensures r.None? <==> forall x :: x in tree ==> !LessAd(x, node)
    ensures r.Some? ==> r.value in tree && LessAd(r.value, node)
    ensures r.Some? ==> forall x :: x in tree && LessAd(x, node) ==> !LessAd(r.value, x)
  {
    r := None;
    var todo := tree;
    while todo != {}
      invariant todo <= tree
      invariant r.None? ==> forall x :: x in tree && x !in todo ==> !LessAd(x, node)
      invariant r.Some? ==> r.value in tree && LessAd(r.value, node)
      invariant r.Some? ==> forall x :: x in tree && x !in todo && LessAd(x, node) ==> !LessAd(r.value, x)
      decreases |todo|
    {
      var e :| e in todo;
      todo := todo - {e};
      if LessAd(e, node) && (r.None? || LessAd(r.value, e)) {
        r := Some(e);
      }
    }
  }

  /** `extent_tree_szad_insert` and `extent_tree_ad_insert`: no node may compare equal. */
  function InsertSzad(tree: set<Extent>, e: Extent): set<Extent>
    requires forall x :: x in tree ==> LessSzad(x, e) || LessSzad(e, x)
  {
    tree + {e}
  }

  function InsertAd(tree: set<Extent>, e: Extent): set<Extent>
    requires forall x :: x in tree ==> LessAd(x, e) || LessAd(e, x)
  {
    tree + {e}
  }

  function Remove(tree: set<Extent>, e: Extent): set<Extent>
    requires e in tree
  {
    tree - {e}
  }

  /** A node changed in place while in the address tree: it may not change its position there. */
  function Rekey(tree: set<Extent>, e: Extent, e': Extent): set<Extent>
    requires e in tree
    requires forall x :: x in tree && x != e ==> (LessAd(x, e) <==> LessAd(x, e')) && (LessAd(e, x) <==> LessAd(e', x))
  {
    tree - {e} + {e'}
  }

  // ---- free space -------------------------------------------------------------------------

  ghost predicate Within(a: int, e: Extent) {
    e.addr <= a < End(e)
  }

  ghost predicate IsFree(tree: set<Extent>, a: int) {
    exists e :: e in tree && Within(a, e)
  }

  /** Neither overlapping nor touching. */
  predicate Apart(a: Extent, b: Extent) {
    End(a) < b.addr || End(b) < a.addr
  }

  ghost predicate Separate(tree: set<Extent>) {
    forall a, b :: a in tree && b in tree && a != b ==> Apart(a, b)
  }

  /** A multiple of a unit. */
  predicate Aligned(x: nat, unit: nat)
    requires unit > 0
  {
    if x < unit then x == 0 else Aligned(x - unit, unit)
  }

  ghost predicate WellSized(tree: set<Extent>, chunk: nat)
    requires chunk > 0
  {
    forall e :: e in tree ==> e.size > 0 && Aligned(e.addr, chunk) && Aligned(e.size, chunk) && End(e) < WORD
  }

  /** The low bits that masking with an alignment clears. */
  function Rest(x: nat, unit: nat): (r: nat)
    requires unit > 0
    ensures r < unit && r <= x
  {
    if x < unit then x else Rest(x - unit, unit)
  }

  /** `ALIGNMENT_CEILING`. */
  function Ceiling(a: nat, alignment: nat): (r: nat)
    requires alignment > 0
  {
    a + alignment - 1 - Rest(a + alignment - 1, alignment)
  }

  lemma {:induction false} RestCleared(x: nat, unit: nat)
    requires unit > 0
    ensures Aligned(x - Rest(x, unit), unit)
  {
    if x >= unit {
      RestCleared(x - unit, unit);
    }
  }

  lemma {:induction false} AlignedSum(a: nat, b: nat, unit: nat)
    requires unit > 0 && Aligned(a, unit) && Aligned(b, unit)
    ensures Aligned(a + b, unit)
    decreases a
  {
    if a >= unit {
      AlignedSum(a - unit, b, unit);
    }
  }

  lemma {:induction false} AlignedDifference(a: nat, b: nat, unit: nat)
    requires unit > 0 && Aligned(a, unit) && Aligned(b, unit) && b <= a
    ensures Aligned(a - b, unit)
    decreases a
  {
    if b >= unit {
      AlignedDifference(a - unit, b - unit, unit);
    }
  }

  lemma {:induction false} CoarserAligned(r: nat, alignment: nat, chunk: nat)
    requires chunk > 0 && alignment > 0 && Aligned(r, alignment) && Aligned(alignment, chunk)
    ensures Aligned(r, chunk)
    decreases r
  {
    if r >= alignment {
      CoarserAligned(r - alignment, alignment, chunk);
      AlignedSum(r - alignment, alignment, chunk);
    }
  }

  /** Multiples of a unit that differ, differ by a unit. */
  lemma {:induction false} AlignedGap(d: nat, k: nat, unit: nat)
    requires unit > 0 && Aligned(d, unit) && Aligned(k, unit) && d < k
    ensures d + unit <= k
    decreases d
  {
    if d >= unit {
      AlignedGap(d - unit, k - unit, unit);
    }
  }

  /** The first aligned address not below another. */
  predicate FirstAligned(r: nat, a: nat, alignment: nat)
    requires alignment > 0
  {
    a <= r < a + alignment && Aligned(r, alignment)
  }

  lemma CeilingBounds(a: nat, alignment: nat)
    requires alignment > 0
    ensures FirstAligned(Ceiling(a, alignment), a, alignment)
  {
    hide Aligned;
    RestCleared(a + alignment - 1, alignment);
  }

  /** Rounding up to a coarser unit costs at most that unit less one finer unit. */
  lemma LeadBound(a: nat, alignment: nat, chunk: nat)
    requires chunk > 0 && alignment > 0 && Aligned(a, chunk) && Aligned(alignment, chunk)
    ensures FirstAligned(Ceiling(a, alignment), a, alignment)
    ensures Ceiling(a, alignment) <= a + alignment - chunk && Aligned(Ceiling(a, alignment) - a, chunk)
  {
    hide Ceiling, Aligned;
    CeilingBounds(a, alignment);
    var r := Ceiling(a, alignment);
    CoarserAligned(r, alignment, chunk);
    AlignedDifference(r, a, chunk);
    AlignedGap(r - a, alignment, chunk);
  }

  predicate InRange(a: int, addr: int, size: int) {
    addr <= a < addr + size
  }

  // ---- splitting and joining --------------------------------------------------------------

  /** What is left of a node around a block taken from it. */
  function Pieces(node: Extent, r: nat, size: nat): set<Extent>
    requires node.addr <= r && r + size <= End(node)
  {
    (if r > node.addr then {Extent(node.addr, r - node.addr, node.zeroed)} else {})
    + (if r + size < End(node) then {Extent(r + size, End(node) - r - size, node.zeroed)} else {})
  }

  /** Taking a block from a node frees nothing else and keeps the nodes apart. */
  lemma Carve(tree: set<Extent>, node: Extent, r: nat, size: nat)
    requires Separate(tree) && node in tree && size > 0 && node.addr <= r && r + size <= End(node)
    ensures Separate(tree - {node} + Pieces(node, r, size))
    ensures forall a :: IsFree(tree - {node} + Pieces(node, r, size), a) <==> IsFree(tree, a) && !InRange(a, r, size)
  {
    var pieces := Pieces(node, r, size);
    var tree' := tree - {node} + pieces;
    forall p | p in pieces ensures node.addr <= p.addr && End(p) <= End(node) {
    }
    forall x, y | x in tree' && y in tree' && x != y ensures Apart(x, y) {
      if x in tree - {node} {
        assert Apart(x, node);
      }
      if y in tree - {node} {
        assert Apart(y, node);
      }
    }
    forall a ensures IsFree(tree', a) <==> IsFree(tree, a) && !InRange(a, r, size) {
      CarveAt(tree, node, r, size, a);
    }
  }

  lemma CarveAt(tree: set<Extent>, node: Extent, r: nat, size: nat, a: int)
    requires Separate(tree) && node in tree && size > 0 && node.addr <= r && r + size <= End(node)
    ensures IsFree(tree - {node} + Pieces(node, r, size), a) <==> IsFree(tree, a) && !InRange(a, r, size)
  {
    var tree' := tree - {node} + Pieces(node, r, size);
    if IsFree(tree, a) && !InRange(a, r, size) {
      var e :| e in tree && Within(a, e);
      if e == node {
        if a < r {
          assert Within(a, Extent(node.addr, r - node.addr, node.zeroed));
        } else {
          assert Within(a, Extent(r + size, End(node) - r - size, node.zeroed));
        }
      } else {
        assert e in tree';
      }
    }
    if IsFree(tree', a) {
      var e :| e in tree' && Within(a, e);
      if e in tree - {node} {
        assert Apart(e, node) && Within(a, e);
      } else {
        assert Within(a, node);
      }
    }
  }

  lemma PiecesAligned(node: Extent, r: nat, size: nat, chunk: nat)
    requires chunk > 0 && node.addr <= r && r + size <= End(node) && size > 0
    requires Aligned(node.addr, chunk) && Aligned(node.size, chunk) && Aligned(r - node.addr, chunk) && Aligned(size, chunk)
    requires End(node) < WORD
    ensures WellSized(Pieces(node, r, size), chunk)
  {
    hide Aligned;
    AlignedSum(node.addr, r - node.addr, chunk);
    AlignedSum(r, size, chunk);
    AlignedSum(node.addr, node.size, chunk);
    AlignedDifference(End(node), r + size, chunk);
  }

  /** A free block added beside its neighbours, which it absorbs. */
  lemma Join(tree: set<Extent>, gone: set<Extent>, e: Extent, addr: nat, size: nat)
    requires Separate(tree) && gone <= tree && size > 0
    requires forall a :: InRange(a, addr, size) ==> !IsFree(tree, a)
    requires forall x :: x in gone ==> End(x) == addr || x.addr == addr + size
    requires forall x :: x in tree && x !in gone ==> End(x) != addr && x.addr != addr + size && x.size > 0
    requires e.addr <= addr && addr + size <= End(e)
    requires forall x :: x in gone ==> e.addr <= x.addr && End(x) <= End(e)
    requires e.addr == addr || exists x :: x in gone && x.addr == e.addr && End(x) == addr
    requires End(e) == addr + size || exists x :: x in gone && End(x) == End(e) && x.addr == addr + size
    ensures Separate(tree - gone + {e})
    ensures forall a :: IsFree(tree - gone + {e}, a) <==> IsFree(tree, a) || InRange(a, addr, size)
  {
    var tree' := tree - gone + {e};
    forall x | x in tree - gone ensures Apart(x, e) {
      JoinApart(tree, gone, e, addr, size, x);
    }
    forall a ensures IsFree(tree', a) <==> IsFree(tree, a) || InRange(a, addr, size) {
      if IsFree(tree', a) {
        var x :| x in tree' && Within(a, x);
        if x in tree - gone {
          assert x in tree;
        }
      }
      if InRange(a, addr, size) {
        assert e in tree' && Within(a, e);
      } else if IsFree(tree, a) {
        var x :| x in tree && Within(a, x);
        if x in gone {
          assert e in tree' && Within(a, e);
        } else {
          assert x in tree' && Within(a, x);
        }
      }
    }
  }

  lemma JoinApart(tree: set<Extent>, gone: set<Extent>, e: Extent, addr: nat, size: nat, x: Extent)
    requires Separate(tree) && gone <= tree && size > 0 && x in tree - gone && x.size > 0
    requires forall a :: InRange(a, addr, size) ==> !IsFree(tree, a)
    requires End(x) != addr && x.addr != addr + size
    requires e.addr == addr || exists y :: y in gone && y.addr == e.addr && End(y) == addr
    requires End(e) == addr + size || exists y :: y in gone && End(y) == End(e) && y.addr == addr + size
    ensures Apart(x, e)
  {
    var low := if x.addr >= addr then x.addr else addr;
    if low < End(x) && low < addr + size {
      assert Within(low, x) && IsFree(tree, low) && InRange(low, addr, size);
    }
  }

  /** The free space has lost one range. */
  ghost predicate Taken(was: set<Extent>, now: set<Extent>, addr: int, size: int) {
    forall a :: IsFree(now, a) <==> IsFree(was, a) && !InRange(a, addr, size)
  }

  /** The free space has gained one range. */
  ghost predicate Added(was: set<Extent>, now: set<Extent>, addr: int, size: int) {
    forall a :: IsFree(now, a) <==> IsFree(was, a) || InRange(a, addr, size)
  }

  /** The ranges held are the maximal runs of free addresses, whatever history made them. */
  lemma {:induction false} Canonical(s: set<Extent>, t: set<Extent>, e: Extent) returns (f: Extent)
    requires Separate(s) && Separate(t) && (forall x :: x in s ==> x.size > 0) && (forall x :: x in t ==> x.size > 0)
    requires forall a :: IsFree(s, a) <==> IsFree(t, a)
    requires e in s
    ensures f in t && f.addr == e.addr && f.size == e.size
  {
    assert Within(e.addr, e) && IsFree(s, e.addr);
    f :| f in t && Within(e.addr, f);
    StartsWith(s, t, e, f);
    EndsWith(s, t, e, f);
    EndsWith(t, s, f, e);
  }

  lemma StartsWith(s: set<Extent>, t: set<Extent>, e: Extent, f: Extent)
    requires Separate(s) && e in s && e.size > 0 && f in t && Within(e.addr, f)
    requires forall a :: IsFree(t, a) ==> IsFree(s, a)
    ensures f.addr == e.addr
  {
    if f.addr < e.addr {
      var a := e.addr - 1;
      assert Within(a, f) && IsFree(t, a);
      var x :| x in s && Within(a, x);
    }
  }

  lemma EndsWith(s: set<Extent>, t: set<Extent>, e: Extent, f: Extent)
    requires Separate(s) && e in s && e.size > 0 && f in t && f.addr == e.addr
    requires forall a :: IsFree(t, a) ==> IsFree(s, a)
    ensures End(f) <= End(e)
  {
    if End(f) > End(e) {
      assert Within(End(e), f) && IsFree(t, End(e));
      var x :| x in s && Within(End(e), x);
    }
  }

  // ---- the cache --------------------------------------------------------------------------

  /** Memory marked as zeroed is zero. */
  ghost predicate ZerosOk(tree: set<Extent>, zeros: iset<int>) {
    forall e, a :: e in tree && e.zeroed && Within(a, e) ==> a in zeros
  }

  /** What the recycler looks for. */
  function SizeKey(size: nat): Extent {
    Extent(0, size, false)
  }

  lemma OthersApart(tree: set<Extent>, node: Extent)
    requires Separate(tree) && node in tree
    ensures forall x :: x in tree && x != node ==> Apart(x, node)
  {
  }

  lemma CarveValid(tree: set<Extent>, zeros: iset<int>, chunk: nat, node: Extent, r: nat, size: nat)
    requires chunk > 0 && Separate(tree) && WellSized(tree, chunk) && ZerosOk(tree, zeros)
    requires node in tree && size > 0 && node.addr <= r && r + size <= End(node)
    requires Aligned(r - node.addr, chunk) && Aligned(size, chunk)
    ensures Separate(tree - {node} + Pieces(node, r, size)) && WellSized(tree - {node} + Pieces(node, r, size), chunk)
    ensures ZerosOk(tree - {node} + Pieces(node, r, size), zeros)
  {
    hide IsFree, Aligned;
    Carve(tree, node, r, size);
    PiecesAligned(node, r, size, chunk);
    forall e, a | e in Pieces(node, r, size) && e.zeroed && Within(a, e) ensures a in zeros {
      assert Within(a, node);
    }
  }

  /** The free space after a block, or the block and all behind it, has been taken. */
  lemma CarveBoth(tree: set<Extent>, node: Extent, r: nat, size: nat)
    requires Separate(tree) && node in tree && size > 0 && node.addr <= r && r + size <= End(node)
    ensures forall a :: InRange(a, r, size) ==> IsFree(tree, a)
    ensures Taken(tree, tree - {node} + Pieces(node, r, size), r, size)
    ensures Taken(tree, tree - {node} + Pieces(node, r, End(node) - r), r, End(node) - r)
  {
    Carve(tree, node, r, size);
    Carve(tree, node, r, End(node) - r);
    forall a | InRange(a, r, size) ensures IsFree(tree, a) {
      assert Within(a, node);
    }
  }

  lemma ZeroBlock(tree: set<Extent>, zeros: iset<int>, node: Extent, r: nat, size: nat)
    requires ZerosOk(tree, zeros) && node in tree && node.addr <= r && r + size <= End(node)
    ensures node.zeroed ==> forall a :: InRange(a, r, size) ==> a in zeros
  {
    forall a | node.zeroed && InRange(a, r, size) ensures a in zeros {
      assert Within(a, node);
    }
  }

  /** A node big enough for any alignment holds an aligned block: the code's own assertion. */
  lemma FitBounds(tree: set<Extent>, chunk: nat, node: Extent, size: nat, alignment: nat)
    requires chunk > 0 && WellSized(tree, chunk) && node in tree && node.size >= size + alignment - chunk
    requires alignment > 0 && Aligned(alignment, chunk)
    ensures node.addr <= Ceiling(node.addr, alignment) && Ceiling(node.addr, alignment) + size <= End(node)
    ensures FirstAligned(Ceiling(node.addr, alignment), node.addr, alignment)
    ensures Aligned(Ceiling(node.addr, alignment) - node.addr, chunk)
  {
    LeadBound(node.addr, alignment, chunk);
  }

  lemma AtLeastOne(x: nat, chunk: nat)
    requires chunk > 0 && x > 0 && Aligned(x, chunk)
    ensures x >= chunk
  {
  }

  function Single(e: Option<Extent>): set<Extent> {
    match e case None => {} case Some(x) => {x}
  }

  /** Every node lies wholly before or wholly after a range. */
  ghost predicate Clear(tree: set<Extent>, addr: int, size: int) {
    forall e :: e in tree ==> e.size > 0 && (End(e) <= addr || addr + size <= e.addr)
  }

  ghost function Purged(zeros: iset<int>, addr: int, size: int, unzeroed: bool): iset<int> {
    iset a: int | if InRange(a, addr, size) then !unzeroed else a in zeros
  }

  lemma PurgeKeeps(tree: set<Extent>, zeros: iset<int>, addr: int, size: int, unzeroed: bool)
    requires ZerosOk(tree, zeros) && forall a :: InRange(a, addr, size) ==> !IsFree(tree, a)
    ensures ZerosOk(tree, Purged(zeros, addr, size, unzeroed))
  {
    forall e, a | e in tree && e.zeroed && Within(a, e) ensures a in Purged(zeros, addr, size, unzeroed) {
      assert IsFree(tree, a);
    }
  }

  /** Every node lies wholly before or wholly after a range that is not free. */
  lemma ClearOf(tree: set<Extent>, chunk: nat, addr: int, size: int)
    requires chunk > 0 && WellSized(tree, chunk) && size > 0
    requires forall a :: InRange(a, addr, size) ==> !IsFree(tree, a)
    ensures Clear(tree, addr, size)
  {
    forall e | e in tree ensures End(e) <= addr || addr + size <= e.addr {
      var a := if e.addr >= addr then e.addr else addr;
      if a < End(e) && a < addr + size {
        assert Within(a, e) && InRange(a, addr, size);
      }
    }
  }

  /** If the last node before the block does not touch it, none does. */
  lemma NoneTouches(tree: set<Extent>, now: set<Extent>, e: Extent, addr: nat, prev: Option<Extent>)
    requires Separate(tree) && e.addr == addr
    requires forall x :: x in tree && x.addr < addr ==> x in now && x.size > 0
    requires forall x :: x in now && x != e ==> x in tree
    requires prev.None? ==> forall x :: x in now ==> !LessAd(x, e)
    requires prev.Some? ==> prev.value in now && LessAd(prev.value, e) && End(prev.value) != addr
    requires prev.Some? ==> forall x :: x in now && LessAd(x, e) ==> !LessAd(prev.value, x)
    ensures forall x :: x in tree && x.size > 0 ==> End(x) != addr
  {
    forall x | x in tree && x.size > 0 ensures End(x) != addr {
      if End(x) == addr {
        assert x in now && LessAd(x, e);
      }
    }
  }

  /** The ranges that touch the block, replaced by one that spans them and it. */
  lemma JoinValid(tree: set<Extent>, chunk: nat, zeros: iset<int>, next: Option<Extent>, prev: Option<Extent>,
                  addr: nat, size: nat, unzeroed: bool, gone: set<Extent>, e: Extent)
    requires chunk > 0 && Separate(tree) && WellSized(tree, chunk) && ZerosOk(tree, zeros)
    requires size > 0 && addr + size < WORD && Aligned(addr, chunk) && Aligned(size, chunk)
    requires forall a :: InRange(a, addr, size) ==> !IsFree(tree, a)
    requires forall a :: InRange(a, addr, size) && !unzeroed ==> a in zeros
    requires forall x :: x in tree && x.addr == addr + size <==> next == Some(x)
    requires forall x :: x in tree && End(x) == addr <==> prev == Some(x)
    requires gone == Single(next) + Single(prev)
    requires e.addr == (if prev.Some? then prev.value.addr else addr)
    requires End(e) == (if next.Some? then End(next.value) else addr + size)
    requires e.zeroed ==> !unzeroed && (next.Some? ==> next.value.zeroed) && (prev.Some? ==> prev.value.zeroed)
    ensures Separate(tree - gone + {e}) && WellSized(tree - gone + {e}, chunk) && ZerosOk(tree - gone + {e}, zeros)
    ensures Added(tree, tree - gone + {e}, addr, size)
  {
    hide Aligned, IsFree;
    Join(tree, gone, e, addr, size);
    JoinAligned(chunk, next, prev, addr, size, e);
    forall a | e.zeroed && Within(a, e) ensures a in zeros {
      if !InRange(a, addr, size) {
        if a < addr {
          assert Within(a, prev.value);
        } else {
          assert Within(a, next.value);
        }
      }
    }
  }

  lemma JoinAligned(chunk: nat, next: Option<Extent>, prev: Option<Extent>, addr: nat, size: nat, e: Extent)
    requires chunk > 0 && Aligned(addr, chunk) && Aligned(size, chunk)
    requires next.Some? ==> next.value.addr == addr + size && Aligned(next.value.size, chunk)
    requires prev.Some? ==> Aligned(prev.value.addr, chunk)
    requires e.addr == (if prev.Some? then prev.value.addr else addr)
    requires End(e) == (if next.Some? then End(next.value) else addr + size)
    ensures Aligned(e.addr, chunk) && Aligned(e.size, chunk)
  {
    hide Aligned;
    AlignedSum(addr, size, chunk);
    if next.Some? {
      AlignedSum(addr + size, next.value.size, chunk);
    }
    AlignedDifference(End(e), e.addr, chunk);
  }

  lemma NodeAligned(tree: set<Extent>, chunk: nat, node: Extent, r: nat)
    requires chunk > 0 && WellSized(tree, chunk) && node in tree && node.addr <= r && Aligned(r - node.addr, chunk)
    ensures Aligned(r, chunk) && End(node) < WORD
  {
    AlignedSum(node.addr, r - node.addr, chunk);
  }

  /** Nothing is left of a range that was taken, and no extent begins in it. */
  lemma NotFree(was: set<Extent>, now: set<Extent>, chunk: nat, addr: nat, size: nat, end: nat)
    requires chunk > 0 && WellSized(now, chunk) && Taken(was, now, addr, end - addr) && size > 0 && addr + size < end
    ensures forall a :: InRange(a, addr, size) ==> !IsFree(now, a)
    ensures forall e :: e in now ==> e.addr != addr + size
  {
    forall a | InRange(a, addr, size) ensures !IsFree(now, a) {
      assert InRange(a, addr, end - addr);
    }
    forall e | e in now ensures e.addr != addr + size {
      assert Within(e.addr, e) && IsFree(now, e.addr);
      assert !InRange(e.addr, addr, end - addr);
    }
  }

  /** With the block put back, only what lay behind it is gone. */
  lemma OnlyTrailLost(was: set<Extent>, mid: set<Extent>, now: set<Extent>, addr: nat, size: nat, end: nat)
    requires Taken(was, mid, addr, end - addr) && Added(mid, now, addr, size) && addr + size <= end
    requires forall a :: InRange(a, addr, size) ==> IsFree(was, a)
    ensures Taken(was, now, addr + size, end - addr - size)
  {
    hide IsFree;
  }

  class Cache {
    const chunk: nat
    var szad: set<Extent>
    var ad: set<Extent>
    /** The free addresses that read as zero. */
    ghost var zeros: iset<int>

    constructor (chunksize: nat)
      requires chunksize > 0
      ensures Valid() && chunk == chunksize && ad == {}
    {
      chunk, szad, ad, zeros := chunksize, {}, {}, iset{};
    }

    ghost predicate Valid()
      reads this
    {
      chunk > 0 && szad == ad && Separate(ad) && WellSized(ad, chunk) && ZerosOk(ad, zeros)
    }

    /** The search of `chunk_recycle`, whose sum may wrap around. */
    method Search(size: nat, alignment: nat) returns (found: Option<Extent>)
      requires Valid() && 0 < size < WORD && chunk <= alignment < WORD
      ensures found.None? <==> forall e :: e in ad ==> e.size < size + alignment - chunk
      ensures found.Some? ==> IsFirstFit(ad, SizeKey(size + alignment - chunk), found.value)
    {
      var allocSize := (size + alignment - chunk) % WORD;
      if allocSize < size {
        return None;
      }
      found := NSearchSzad(szad, SizeKey(allocSize));
    }

    /** The block taken from a node, the rest of it put back. */
    method Split(node: Extent, r: nat, size: nat, spare: bool) returns (dropped: bool)
      requires Valid() && node in ad && size > 0 && node.addr <= r && r + size <= End(node)
      requires Aligned(r - node.addr, chunk) && Aligned(size, chunk)
      modifies this`szad, this`ad
      ensures Valid()
      ensures dropped <==> node.addr < r && r + size < End(node) && !spare
      ensures ad == old(ad) - {node} + Pieces(node, r, if dropped then End(node) - r else size)
    {
      hide Aligned, IsFree, Separate, ZerosOk;
      ghost var was := ad;
      CarveValid(ad, zeros, chunk, node, r, size);
      AlignedDifference(node.size, r - node.addr, chunk);
      CarveValid(ad, zeros, chunk, node, r, End(node) - r);
      OthersApart(ad, node);
      var leadsize := r - node.addr;
      var trailsize := node.size - leadsize - size;
      szad := Remove(szad, node);
      ad := Remove(ad, node);
      var have := true;
      if leadsize != 0 {
        var lead := node.(size := leadsize);
        szad := InsertSzad(szad, lead);
        ad := InsertAd(ad, lead);
        have := false;
      }
      if trailsize != 0 {
        if !have && !spare {
          assert ad == was - {node} + Pieces(node, r, End(node) - r);
          return true;
        }
        var trail := Extent(r + size, trailsize, node.zeroed);
        szad := InsertSzad(szad, trail);
        ad := InsertAd(ad, trail);
      }
      assert ad == was - {node} + Pieces(node, r, size);
      dropped := false;
    }

    /** Forward coalescing, or a node of its own for the block. */
    method JoinNext(addr: nat, size: nat, unzeroed: bool, spare: bool) returns (r: Option<Extent>, ghost next: Option<Extent>)
      requires szad == ad && Separate(ad) && Clear(ad, addr, size) && size > 0
      modifies this`szad, this`ad
      ensures szad == ad && (r.None? <==> next.None? && !spare)
      ensures forall x :: x in old(ad) && x.addr == addr + size <==> next == Some(x)
      ensures r.None? ==> ad == old(ad)
      ensures r.Some? ==> ad == old(ad) - Single(next) + {r.value} && r.value !in old(ad)
      ensures r.Some? ==> r.value.addr == addr && End(r.value) == (if next.Some? then End(next.value) else addr + size)
      ensures r.Some? && r.value.zeroed ==> !unzeroed && (next.Some? ==> next.value.zeroed)
    {
      var found := NSearchAd(ad, addr + size);
      next := None;
      if found.Some? && found.value.addr == addr + size {
        var node := found.value;
        next := found;
        OthersApart(ad, node);
        szad := Remove(szad, node);
        var e := Extent(addr, node.size + size, node.zeroed && !unzeroed);
        ad := Rekey(ad, node, e);
        szad := InsertSzad(szad, e);
        return Some(e), next;
      }
      if !spare {
        return None, None;
      }
      var e := Extent(addr, size, !unzeroed);
      ad := InsertAd(ad, e);
      szad := InsertSzad(szad, e);
      r := Some(e);
    }

    /** Backward coalescing. */
    method JoinPrev(node: Extent, addr: nat, size: nat, ghost was: set<Extent>, ghost next: Option<Extent>)
        returns (e: Extent, ghost prev: Option<Extent>)
      requires szad == ad && Separate(was) && Clear(was, addr, size) && size > 0 && node.addr == addr && node !in was
      requires ad == was - Single(next) + {node} && (next.Some? ==> next.value in was && next.value.addr == addr + size)
      requires forall x :: x in was && x.addr == addr + size <==> next == Some(x)
      requires End(node) == (if next.Some? then End(next.value) else addr + size)
      modifies this`szad, this`ad
      ensures szad == ad == was - Single(next) - Single(prev) + {e}
      ensures forall x :: x in was && End(x) == addr <==> prev == Some(x)
      ensures e.addr == (if prev.Some? then prev.value.addr else addr) && End(e) == End(node)
      ensures e.zeroed ==> node.zeroed && (prev.Some? ==> prev.value.zeroed)
    {
      hide Separate;
      var found := PrevAd(ad, node);
      e, prev := node, None;
      if found.Some? && End(found.value) == addr {
        var p := found.value;
        prev := found;
        OthersApart(was, p);
        szad := Remove(szad, p);
        ad := Remove(ad, p);
        szad := Remove(szad, node);
        e := Extent(p.addr, node.size + p.size, node.zeroed && p.zeroed);
        ad := Rekey(ad, node, e);
        szad := InsertSzad(szad, e);
      } else {
        NoneTouches(was, ad, node, addr, found);
      }
    }

    /**
      `chunk_record`: the block is joined with the free ranges it touches. `unzeroed` is what purging its pages
      reported, and `spare` whether a node could be had; a block that needs one and has none is leaked.
     */
    method Record(addr: nat, size: nat, unzeroed: bool, spare: bool) returns (kept: bool)
      requires Valid() && size > 0 && addr + size < WORD && Aligned(addr, chunk) && Aligned(size, chunk)
      requires forall a :: InRange(a, addr, size) ==> !IsFree(ad, a)
      modifies this
      ensures Valid()
      ensures kept <==> spare || exists e :: e in old(ad) && e.addr == addr + size
      ensures kept ==> Added(old(ad), ad, addr, size)
      ensures !kept ==> ad == old(ad)
      ensures zeros == Purged(old(zeros), addr, size, unzeroed)
    {
      hide Separate, WellSized, ZerosOk, IsFree, Aligned, Added, Clear;
      ghost var was := ad;
      PurgeKeeps(ad, zeros, addr, size, unzeroed);
      ClearOf(ad, chunk, addr, size);
      zeros := Purged(zeros, addr, size, unzeroed);
      var node, next := JoinNext(addr, size, unzeroed, spare);
      if node.None? {
        return false;
      }
      var e, prev := JoinPrev(node.value, addr, size, was, next);
      assert was - Single(next) - Single(prev) + {e} == was - (Single(next) + Single(prev)) + {e};
      JoinValid(was, chunk, zeros, next, prev, addr, size, unzeroed, Single(next) + Single(prev), e);
      kept := true;
    }

    /**
      `chunk_recycle`: the first fit in size order, split at the first aligned address in it. `spare` says whether a
      node can be had for the trailing space. Without one the block is given up through `chunk_dealloc`: `released`
      says whether the system takes it, and otherwise it is recorded, with `unzeroed` and `again` for the recording.
     */
    method Recycle(size: nat, alignment: nat, base: bool, zero: bool, spare: bool, released: bool, unzeroed: bool, again: bool)
        returns (ret: Option<nat>, zero': bool, cleared: bool, dropped: bool, ghost from: Extent, ghost at: nat)
      requires Valid() && 0 < size < WORD && 0 < alignment < WORD && Aligned(size, chunk) && Aligned(alignment, chunk)
      modifies this
      ensures Valid() && (!dropped ==> zeros == old(zeros))
      ensures ret.None? && !dropped ==> ad == old(ad)
      ensures ret.None? && !dropped <==> base || forall e :: e in old(ad) ==> e.size < size + alignment - chunk
      ensures ret.Some? || dropped ==>
                IsFirstFit(old(ad), SizeKey(size + alignment - chunk), from) && FirstAligned(at, from.addr, alignment)
      ensures ret.Some? ==>
                && !dropped && ret.value == at
                && (forall a :: InRange(a, ret.value, size) ==> old(IsFree(ad, a)))
                && Taken(old(ad), ad, ret.value, size)
      ensures ret.Some? ==>
                && (zero' <==> zero || from.zeroed)
                && (zero' ==> cleared || forall a :: InRange(a, ret.value, size) ==> a in zeros)
      ensures ret.Some? ==> spare || at == from.addr || at + size == End(from)
      ensures dropped ==> ret.None? && !spare && at > from.addr && at + size < End(from)
      ensures dropped ==> if !released && again then Taken(old(ad), ad, at + size, End(from) - at - size)
                          else Taken(old(ad), ad, at, End(from) - at)
    {
      hide Separate, WellSized, ZerosOk, IsFree, Aligned, FirstAligned, Ceiling, Taken, Added;
      ret, zero', cleared, dropped, from, at := None, zero, false, false, SizeKey(0), 0;
      if base {
        return;
      }
      AtLeastOne(alignment, chunk);
      var found := Search(size, alignment);
      if found.None? {
        return;
      }
      var node := found.value;
      from := node;
      FitBounds(ad, chunk, node, size, alignment);
      var r := Ceiling(node.addr, alignment);
      at := r;
      if node.zeroed {
        zero' := true;
      }
      CarveBoth(ad, node, r, size);
      ZeroBlock(ad, zeros, node, r, size);
      NodeAligned(ad, chunk, node, r);
      ghost var was := ad;
      dropped := Split(node, r, size, spare);
      if dropped {
        Dealloc(r, size, released, unzeroed, again, was, End(node));
        return;
      }
      if zero' && !node.zeroed {
        cleared := true;
      }
      ret := Some(r);
    }

    /** `chunk_dealloc` of a block whose trailing space was dropped: back to the system, or recorded. */
    method Dealloc(addr: nat, size: nat, released: bool, unzeroed: bool, again: bool, ghost was: set<Extent>, ghost end: nat)
      requires Valid() && size > 0 && addr + size < end < WORD && Aligned(addr, chunk) && Aligned(size, chunk)
      requires Taken(was, ad, addr, end - addr) && forall a :: InRange(a, addr, size) ==> IsFree(was, a)
      modifies this
      ensures Valid()
      ensures if !released && again then Taken(was, ad, addr + size, end - addr - size) else Taken(was, ad, addr, end - addr)
    {
      hide Separate, WellSized, ZerosOk, IsFree, Aligned, Taken, Added;
      if !released {
        NotFree(was, ad, chunk, addr, size, end);
        ghost var mid := ad;
        var kept := Record(addr, size, unzeroed, again);
        if kept {
          OnlyTrailLost(was, mid, ad, addr, size, end);
        }
      }
    }
  }
}
