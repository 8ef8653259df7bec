/** deps/jemalloc/src/ckh.c: cuckoo hashing with two hashes and buckets of four cells. */
module Cuckoo {
  import opened Prelude
  import opened Words

  /** `1 << LG_CKH_BUCKET_CELLS` with 64-byte cache lines and 8-byte pointers. */
  const CELLS: nat := 4

  /** An insertion that fails, a rebuild, and an insertion that fails again. */
  const DRAWS: nat := 3 + CELLS + 3

  /** A table of 2^59 cells would take 2^63 bytes, which no allocation grants. */
  const LG_MAX_CELLS: nat := 59

  datatype Item<K, V> = Item(key: K, data: V)

  type Cell<K, V> = Option<Item<K, V>>

  /** The low bits of a hash: the number of a bucket. */
  function Bucket(hash: nat, lg: nat): (b: nat)
    ensures b < Pow2(lg)
  {
    if lg == 0 then 0 else hash % 2 + 2 * Bucket(hash / 2, lg - 1)
  }

  /** Where an item evicted from a bucket goes: its other bucket, if it has one. */
  function Alternate<K>(key: K, bucket: nat, lg: nat, h0: K -> nat, h1: K -> nat): (b: nat)
    ensures b < Pow2(lg) && Home(key, b, lg, h0, h1)
    ensures Home(key, bucket, lg, h0, h1) && b == bucket ==> forall x :: Home(key, x, lg, h0, h1) ==> x == bucket
  {
    if Bucket(h1(key), lg) == bucket then Bucket(h0(key), lg) else Bucket(h1(key), lg)
  }

  // ---- what a table holds -----------------------------------------------------------------

  /** The occupied cells. */
  ghost function Items<K, V>(tab: seq<Cell<K, V>>): multiset<Cell<K, V>> {
    multiset(tab)[None := 0]
  }

  /** Each key once, with its value. */
  ghost predicate Models<K(!new), V(!new)>(tab: seq<Cell<K, V>>, m: map<K, V>) {
    forall k, v :: Items(tab)[Some(Item(k, v))] == if k in m && m[k] == v then 1 else 0
  }

  /** Every item is in one of its two buckets. */
  ghost predicate Placed<K, V>(tab: seq<Cell<K, V>>, lg: nat, h0: K -> nat, h1: K -> nat) {
    forall i :: 0 <= i < |tab| && tab[i].Some? ==> Home(tab[i].value.key, i / CELLS, lg, h0, h1)
  }

  predicate Home<K>(key: K, bucket: nat, lg: nat, h0: K -> nat, h1: K -> nat) {
    bucket == Bucket(h0(key), lg) || bucket == Bucket(h1(key), lg)
  }

  ghost predicate Counted<K, V>(tab: seq<Cell<K, V>>, count: nat) {
    |Items(tab)| == count
  }

  /** No free cell in a bucket. */
  ghost predicate Full<K, V>(tab: seq<Cell<K, V>>, bucket: nat)
    requires CELLS * bucket + CELLS <= |tab|
  {
    forall i :: CELLS * bucket <= i < CELLS * bucket + CELLS ==> tab[i].Some?
  }

  /** A bucket with an item in its first free cell, if it has one. */
  ghost function Filled<K, V>(tab: seq<Cell<K, V>>, bucket: nat, item: Item<K, V>, from: nat := 0): (r: seq<Cell<K, V>>)
    requires CELLS * bucket + CELLS <= |tab| && from <= CELLS
    decreases CELLS - from
  {
    if from == CELLS then tab
    else if tab[CELLS * bucket + from].None? then tab[CELLS * bucket + from := Some(item)]
    else Filled(tab, bucket, item, from + 1)
  }

  /** Storing in a cell exchanges one item for another. */
  lemma Stored<K, V>(tab: seq<Cell<K, V>>, i: nat, item: Item<K, V>)
    requires i < |tab|
    ensures Items(tab[i := Some(item)]) + (if tab[i].Some? then multiset{tab[i]} else multiset{}) == Items(tab) + multiset{Some(item)}
  {
    assert multiset(tab[i := Some(item)]) == multiset(tab) - multiset{tab[i]} + multiset{Some(item)};
    assert tab[i] in multiset(tab);
  }

  lemma HeldIsItem<K, V>(tab: seq<Cell<K, V>>, i: nat)
    requires i < |tab| && tab[i].Some?
    ensures tab[i] in Items(tab)
  {
    assert tab[i] in multiset(tab);
  }

  /** Every item outside a bucket is one of these. */
  ghost predicate Elsewhere<K, V>(tab: seq<Cell<K, V>>, bucket: nat, items: multiset<Cell<K, V>>) {
    forall i :: 0 <= i < |tab| && tab[i].Some? && i / CELLS != bucket ==> tab[i] in items
  }

  lemma OwnItems<K, V>(tab: seq<Cell<K, V>>, bucket: nat)
    ensures Elsewhere(tab, bucket, Items(tab))
  {
    forall i | 0 <= i < |tab| && tab[i].Some? ensures tab[i] in Items(tab) {
      HeldIsItem(tab, i);
    }
  }

  /** A bucket's worth of items, one after the other, fill a bucket from its first cell on. */
  /** A full bucket copied so far into an empty table. */
  ghost predicate Copied<K, V>(source: seq<Cell<K, V>>, tab: seq<Cell<K, V>>, i: nat) {
    && |source| == CELLS <= |tab| && i <= CELLS && tab[..i] == source[..i] && Full(source, 0)
    && forall j :: i <= j < |tab| ==> tab[j].None?
  }

  lemma FilledAt<K, V>(source: seq<Cell<K, V>>, tab: seq<Cell<K, V>>, i: nat)
    requires Copied(source, tab, i) && i < CELLS
    ensures source[i].Some? && !Full(tab, 0) && Copied(source, Filled(tab, 0, source[i].value), i + 1)
  {
    forall j | 0 <= j < i ensures tab[j].Some? {
      assert tab[..i][j] == source[..i][j];
    }
    assert tab[i].None?;
    assert Filled(tab, 0, source[i].value) == tab[i := source[i]];
    assert tab[i := source[i]][..i + 1] == tab[..i] + [source[i]];
    assert source[..i + 1] == source[..i] + [source[i]];
  }

  lemma AllCopied<K, V>(source: seq<Cell<K, V>>, tab: seq<Cell<K, V>>)
    requires Copied(source, tab, CELLS)
    ensures tab[..CELLS] == source
  {
    assert source[..CELLS] == source;
  }

  lemma NoneCopied<K, V>(source: seq<Cell<K, V>>, tab: seq<Cell<K, V>>)
    requires |source| == CELLS <= |tab| && Full(source, 0) && forall j :: 0 <= j < |tab| ==> tab[j].None?
    ensures Copied(source, tab, 0)
  {
  }

  /** A table that has given up an item still has one. */
  lemma SomeItems<K, V>(was: seq<Cell<K, V>>, tab: seq<Cell<K, V>>, count: nat, given: Item<K, V>, hand: Item<K, V>)
    requires Items(tab) + multiset{Some(hand)} == Items(was) + multiset{Some(given)} && Some(hand) in Items(was) && Counted(tab, count)
    ensures count > 0
  {
    assert |Items(tab) + multiset{Some(hand)}| == |Items(tab)| + 1;
    assert |Items(was) + multiset{Some(given)}| == |Items(was)| + 1;
  }

  lemma {:induction false} FullCount<K, V>(tab: seq<Cell<K, V>>, count: nat)
    requires |tab| == CELLS && Counted(tab, count)
    ensures Full(tab, 0) <==> count == CELLS
  {
    if Full(tab, 0) {
      assert None !in multiset(tab);
    }
    if count == CELLS {
      assert multiset(tab)[None := 0] <= multiset(tab);
      assert multiset(tab) == multiset(tab)[None := 0] + multiset{}[None := multiset(tab)[None]];
      forall i | 0 <= i < CELLS ensures tab[i].Some? {
        assert tab[i] in multiset(tab);
      }
    }
  }

  lemma StillFull<K, V>(was: seq<Cell<K, V>>, item: Item<K, V>, tab: seq<Cell<K, V>>)
    requires |was| == CELLS <= |tab| && Full(was, 0)
    ensures tab == was || tab[..CELLS] == was[0 := Some(item)] ==> Full(tab, 0)
    ensures Full(was[0 := Some(item)], 0)
    ensures tab[..CELLS] == was[0 := Some(item)] ==> tab[0] == Some(item)
  {
    if tab[..CELLS] == was[0 := Some(item)] {
      forall i | 0 <= i < CELLS ensures tab[i].Some? {
        assert tab[..CELLS][i] == was[0 := Some(item)][i];
      }
    }
  }

  lemma Cleared<K, V>(tab: seq<Cell<K, V>>, i: nat)
    requires i < |tab| && tab[i].Some?
    ensures Items(tab[i := None]) + multiset{tab[i]} == Items(tab)
  {
    assert multiset(tab[i := None]) == multiset(tab) - multiset{tab[i]} + multiset{None};
    assert tab[i] in multiset(tab);
  }

  /** A stored item is one the table models. */
  lemma HeldIsModelled<K(!new), V(!new)>(tab: seq<Cell<K, V>>, m: map<K, V>, i: nat)
    requires Models(tab, m) && i < |tab| && tab[i].Some?
    ensures tab[i].value.key in m && m[tab[i].value.key] == tab[i].value.data
  {
    assert tab[i] in multiset(tab);
    assert Items(tab)[Some(Item(tab[i].value.key, tab[i].value.data))] > 0;
  }

  lemma ItemIsModelled<K(!new), V(!new)>(tab: seq<Cell<K, V>>, m: map<K, V>, item: Item<K, V>)
    requires Models(tab, m)
    ensures Some(item) in Items(tab) ==> item.key in m
  {
    assert Items(tab)[Some(Item(item.key, item.data))] == if item.key in m && m[item.key] == item.data then 1 else 0;
  }

  /** A modelled key is in a cell of one of its buckets. */
  lemma ModelledIsHeld<K(!new), V(!new)>(tab: seq<Cell<K, V>>, m: map<K, V>, lg: nat, h0: K -> nat, h1: K -> nat, key: K)
      returns (i: nat)
    requires Models(tab, m) && Placed(tab, lg, h0, h1) && key in m
    ensures i < |tab| && tab[i] == Some(Item(key, m[key])) && Home(key, i / CELLS, lg, h0, h1)
  {
    assert Items(tab)[Some(Item(key, m[key]))] == 1;
    assert Some(Item(key, m[key])) in multiset(tab);
    i :| 0 <= i < |tab| && tab[i] == Some(Item(key, m[key]));
  }

  /** What a table models follows its items. */
  lemma AddedModels<K(!new), V(!new)>(tab: seq<Cell<K, V>>, m: map<K, V>, tab': seq<Cell<K, V>>, key: K, data: V)
    requires Models(tab, m) && key !in m && Items(tab') == Items(tab) + multiset{Some(Item(key, data))}
    ensures Models(tab', m[key := data])
  {
  }

  lemma RemovedModels<K(!new), V(!new)>(tab: seq<Cell<K, V>>, m: map<K, V>, tab': seq<Cell<K, V>>, key: K)
    requires Models(tab, m) && key in m && Items(tab') + multiset{Some(Item(key, m[key]))} == Items(tab)
    ensures Models(tab', m - {key})
  {
  }

  lemma SameModels<K(!new), V(!new)>(tab: seq<Cell<K, V>>, tab': seq<Cell<K, V>>, m: map<K, V>)
    requires Models(tab, m) && Items(tab) == Items(tab')
    ensures Models(tab', m)
  {
  }

  /** The items of a failed insertion are those there were and the new one, but for the one in hand. */
  lemma LostModels<K(!new), V(!new)>(was: seq<Cell<K, V>>, m: map<K, V>, tab: seq<Cell<K, V>>, key: K, data: V, hand: Item<K, V>)
    requires Models(was, m) && key !in m
    requires Items(tab) + multiset{Some(hand)} == multiset{Some(Item(key, data))} + Items(was)
    ensures hand.key in m[key := data] && m[key := data][hand.key] == hand.data
    ensures Models(tab, m[key := data] - {hand.key})
  {
    var all := Items(tab) + multiset{Some(hand)};
    assert all[Some(Item(hand.key, hand.data))] > 0;
    forall k, v ensures Items(tab)[Some(Item(k, v))] == if k in m[key := data] - {hand.key} && m[key := data][k] == v then 1 else 0 {
      assert all[Some(Item(k, v))] == Items(tab)[Some(Item(k, v))] + multiset{Some(hand)}[Some(Item(k, v))];
    }
  }

  /** Counting round a bucket from an offset. */
  function Around(i: nat, offset: nat): (r: nat)
    ensures r < CELLS
  {
    (i + offset) % CELLS
  }

  /** Going round a bucket once visits every cell. */
  lemma AllAround<K, V>(tab: seq<Cell<K, V>>, bucket: nat, offset: nat)
    requires CELLS * bucket + CELLS <= |tab| && offset < CELLS
    requires forall j :: 0 <= j < CELLS ==> tab[CELLS * bucket + Around(j, offset)].Some?
    ensures Full(tab, bucket)
  {
    forall i | CELLS * bucket <= i < CELLS * bucket + CELLS ensures tab[i].Some? {
      assert Around((i - CELLS * bucket + CELLS - offset) % CELLS, offset) == i - CELLS * bucket;
    }
  }

  lemma NoItems<K, V>(tab: seq<Cell<K, V>>, lg: nat, h0: K -> nat, h1: K -> nat)
    requires forall i :: 0 <= i < |tab| ==> tab[i].None?
    ensures Items(tab) == multiset{} == Items<K, V>([]) && Counted(tab, 0) && Placed(tab, lg, h0, h1)
  {
    forall c | c in multiset(tab) ensures c == None {
      var i :| 0 <= i < |tab| && tab[i] == c;
    }
  }

  lemma SplitItems<K, V>(tab: seq<Cell<K, V>>, i: nat)
    requires i <= |tab|
    ensures Items(tab) == Items(tab[..i]) + Items(tab[i..])
  {
    assert tab == tab[..i] + tab[i..];
  }

  /** The items of a table up to a cell, and past it. */
  lemma NextItem<K, V>(tab: seq<Cell<K, V>>, i: nat)
    requires i < |tab|
    ensures Items(tab[..i + 1]) == Items(tab[..i]) + (if tab[i].Some? then multiset{tab[i]} else multiset{})
  {
    assert tab[..i + 1] == tab[..i] + [tab[i]];
  }

  /** Fewer items than the table holds: there are cells left. */
  lemma MoreItems<K, V>(tab: seq<Cell<K, V>>, i: nat, total: nat)
    requires Counted(tab, total) && i <= |tab| && |Items(tab[..i])| < total
    ensures i < |tab|
  {
    assert tab[..|tab|] == tab;
  }

  lemma AllItems<K, V>(tab: seq<Cell<K, V>>, i: nat, total: nat)
    requires Counted(tab, total) && i <= |tab| && |Items(tab[..i])| >= total
    ensures Items(tab[..i]) == Items(tab)
  {
    hide Items;
    SplitItems(tab, i);
  }

  // ---- the table --------------------------------------------------------------------------

  /** The least power of two, and at least a bucket, that leaves a quarter of the cells free. */
  method LgMinCells(minitems: nat) returns (n: nat)
    ensures n >= 2 && 3 * Pow2(n) >= 4 * minitems
    ensures n == 2 || Pow2(n) < 8 * (minitems / 3 + 1)
  {
    var mincells := (minitems + (3 - minitems % 3)) / 3 * 4;
    CellsFor(minitems);
    n := 2;
    while Pow2(n) < mincells
      invariant n >= 2 && n <= Pow2(n) && (n == 2 || Pow2(n - 1) < mincells)
      decreases mincells - n
    {
      n := n + 1;
    }
  }

  lemma CellsFor(minitems: nat)
    ensures (minitems + (3 - minitems % 3)) / 3 == minitems / 3 + 1 && 3 * (minitems / 3 + 1) >= minitems
  {
  }

  lemma FourTimes(lg: nat)
    ensures Pow2(lg + 2) == CELLS * Pow2(lg) && Pow2(2) == CELLS
  {
    assert Pow2(lg + 2) == 2 * Pow2(lg + 1) == 4 * Pow2(lg);
    assert Pow2(1) == 2 && Pow2(2) == 2 * Pow2(1);
  }

  /** How an attempt to insert ends; a chain of evictions is followed for as long as its fuel lasts. */
  datatype Outcome = Done | Failed | Unfinished

  class Table<K(==, !new), V(!new)> {
    const h0: K -> nat
    const h1: K -> nat
    const lgMin: nat
    /** The draws of `prng32`, whatever they are. */
    const roll: nat -> nat
    var lg: nat
    var count: nat
    var tab: seq<Cell<K, V>>
    var drawn: nat

    /** `ckh_new`: room for the items asked for and a third more. */
    constructor (minitems: nat, h0: K -> nat, h1: K -> nat, roll: nat -> nat)
      requires minitems > 0
      ensures Valid(map[]) && this.h0 == h0 && this.h1 == h1 && this.roll == roll && lg == lgMin && 3 * |tab| >= 4 * minitems
      ensures |tab| == CELLS || |tab| < 8 * (minitems / 3 + 1)
    {
      var n := LgMinCells(minitems);
      this.h0, this.h1, this.roll, lgMin, lg, count, drawn := h0, h1, roll, n - 2, n - 2, 0, 0;
      tab := seq(Pow2(n), i => None);
      new;
      FourTimes(lg);
      NoItems(tab, lg, h0, h1);
    }

    /** Everything but what the table is meant to hold. */
    ghost predicate Shaped()
      reads this
    {
      |tab| == CELLS * Pow2(lg) && Placed(tab, lg, h0, h1) && Counted(tab, count)
    }

    ghost predicate Valid(m: map<K, V>)
      reads this
    {
      Shaped() && Models(tab, m)
    }

    /** `prng32` for a cell of a bucket. */
    method Draw() returns (r: nat)
      modifies this`drawn
      ensures r == roll(old(drawn)) % CELLS && drawn == old(drawn) + 1
    {
      r := roll(drawn) % CELLS;
      drawn := drawn + 1;
    }

    /** Every key collides with every other, and each of the n draws from the first on is the first cell. */
    ghost predicate Straight(first: nat, n: nat) {
      && (forall k, lg :: Bucket(h0(k), lg) == 0) && (forall k, lg :: Bucket(h1(k), lg) == 0)
      && forall i :: first <= i < first + n ==> roll(i) % CELLS == 0
    }

    lemma StraightOn(first: nat, n: nat, later: nat, n': nat)
      requires Straight(first, n) && first <= later && later + n' <= first + n
      ensures Straight(later, n')
    {
    }

    /** `ckh_bucket_search`. */
    method BucketSearch(bucket: nat, key: K) returns (r: Option<nat>)
      requires CELLS * bucket + CELLS <= |tab|
      ensures r.Some? ==> r.value < |tab| && tab[r.value].Some? && tab[r.value].value.key == key
      ensures r.None? ==> forall i :: CELLS * bucket <= i < CELLS * bucket + CELLS && tab[i].Some? ==> tab[i].value.key != key
    {
      for i := 0 to CELLS
        invariant forall j :: CELLS * bucket <= j < CELLS * bucket + i && tab[j].Some? ==> tab[j].value.key != key
      {
        var cell := tab[CELLS * bucket + i];
        if cell.Some? && cell.value.key == key {
          return Some(CELLS * bucket + i);
        }
      }
      r := None;
    }

    /** `ckh_isearch`: finds exactly the keys the table holds. */
    method ISearch(key: K, ghost m: map<K, V>) returns (r: Option<nat>)
      requires Valid(m)
      ensures r.Some? <==> key in m
      ensures r.Some? ==> r.value < |tab| && tab[r.value] == Some(Item(key, m[key]))
    {
      hide Models, Placed, Bucket;
      ghost var at: nat;
      if key in m {
        at := ModelledIsHeld(tab, m, lg, h0, h1, key);
      }
      r := BucketSearch(Bucket(h0(key), lg), key);
      if r.None? {
        r := BucketSearch(Bucket(h1(key), lg), key);
      }
      if r.Some? {
        HeldIsModelled(tab, m, r.value);
      }
    }

    /** `ckh_search`: agrees with the map. */
    method Search(key: K, ghost m: map<K, V>) returns (r: Option<V>)
      requires Valid(m)
      ensures r == if key in m then Some(m[key]) else None
    {
      hide Models, Placed, Counted;
      var cell := ISearch(key, m);
      r := if cell.Some? then Some(tab[cell.value].value.data) else None;
    }

    /** `ckh_try_bucket_insert`: takes a free cell of the bucket, wherever the search for one starts. */
    method TryBucketInsert(bucket: nat, item: Item<K, V>) returns (ok: bool)
      requires Shaped() && bucket < Pow2(lg) && Home(item.key, bucket, lg, h0, h1)
      modifies this`tab, this`count, this`drawn
      ensures Shaped()
      ensures ok ==> Items(tab) == old(Items(tab)) + multiset{Some(item)}
      ensures ok <==> !old(Full(tab, bucket))
      ensures !ok ==> tab == old(tab)
      ensures drawn == old(drawn) + 1
      ensures Straight(old(drawn), 1) ==> tab == Filled(old(tab), bucket, item)
    {
      hide Bucket, Items;
      var offset := Draw();
      for i := 0 to CELLS
        invariant forall j :: 0 <= j < i ==> tab[CELLS * bucket + Around(j, offset)].Some?
        invariant tab == old(tab) && count == old(count)
        invariant offset == roll(old(drawn)) % CELLS && drawn == old(drawn) + 1
        invariant Straight(old(drawn), 1) ==> Filled(tab, bucket, item) == Filled(tab, bucket, item, i)
      {
        var c := CELLS * bucket + Around(i, offset);
        if tab[c].None? {
          Stored(tab, c, item);
          assert Items(tab[c := Some(item)]) == Items(tab) + multiset{Some(item)};
          tab := tab[c := Some(item)];
          count := count + 1;
          return true;
        }
      }
      AllAround(tab, bucket, offset);
      ok := false;
    }

    /**
      `ckh_evict_reloc_insert`: whatever is drawn and however far the chain has come, the items in the table and
      the one in hand are those there were.
     */
    method EvictReloc(argbucket: nat, item: Item<K, V>, fuel: nat) returns (out: Outcome, hand: Item<K, V>)
      requires Shaped() && argbucket < Pow2(lg) && Home(item.key, argbucket, lg, h0, h1) && Full(tab, argbucket)
      modifies this`tab, this`count, this`drawn
      ensures Shaped()
      ensures out == Done ==> Items(tab) == old(Items(tab)) + multiset{Some(item)}
      ensures out != Done ==> Items(tab) + multiset{Some(hand)} == old(Items(tab)) + multiset{Some(item)}
      ensures out == Failed ==> Some(hand) in old(Items(tab))
      ensures drawn >= old(drawn)
      ensures Straight(old(drawn), 1) && fuel > 0 ==>
                && out == Failed && drawn == old(drawn) + 1
                && old(tab)[CELLS * argbucket] == Some(hand) && tab == old(tab)[CELLS * argbucket := Some(item)]
    {
      hide Items, Bucket;
      var bucket: nat := argbucket;
      hand := item;
      ghost var was := tab;
      OwnItems(tab, argbucket);
      for step := 0 to fuel
        invariant Shaped() && bucket < Pow2(lg) && Home(hand.key, bucket, lg, h0, h1) && Full(tab, bucket)
        invariant Items(tab) + multiset{Some(hand)} == old(Items(tab)) + multiset{Some(item)}
        invariant step == 0 ==> bucket == argbucket && tab == was && hand == item
        invariant step > 0 ==> bucket != argbucket && Some(hand) in Items(was)
        invariant Elsewhere(tab, argbucket, Items(was))
        invariant drawn >= old(drawn) && (step == 0 ==> drawn == old(drawn))
        invariant Straight(old(drawn), 1) ==> step == 0
      {
        var i := Draw();
        hand := Swap(bucket, i, hand, argbucket, was);
        var tbucket := Alternate(hand.key, bucket, lg, h0, h1);
        if tbucket == argbucket {
          return Failed, hand;
        }
        bucket := tbucket;
        var ok := TryBucketInsert(bucket, hand);
        if ok {
          return Done, hand;
        }
      }
      out := Unfinished;
    }

    /** An item exchanged with one of a full bucket. */
    method Swap(bucket: nat, i: nat, item: Item<K, V>, ghost argbucket: nat, ghost was: seq<Cell<K, V>>) returns (evicted: Item<K, V>)
      requires Shaped() && bucket < Pow2(lg) && i < CELLS && Home(item.key, bucket, lg, h0, h1) && Full(tab, bucket)
      requires Elsewhere(tab, argbucket, Items(was)) && if bucket == argbucket then tab == was else Some(item) in Items(was)
      modifies this`tab
      ensures Elsewhere(tab, argbucket, Items(was)) && Some(evicted) in Items(was)
      ensures tab == old(tab)[CELLS * bucket + i := Some(item)] && old(tab)[CELLS * bucket + i] == Some(evicted)
      ensures Shaped() && Full(tab, bucket) && Home(evicted.key, bucket, lg, h0, h1)
      ensures Items(tab) + multiset{Some(evicted)} == old(Items(tab)) + multiset{Some(item)}
    {
      hide Bucket, Items;
      var c := CELLS * bucket + i;
      evicted := tab[c].value;
      Stored(tab, c, item);
      HeldIsItem(tab, c);
      assert |Items(tab[c := Some(item)]) + multiset{Some(evicted)}| == |Items(tab) + multiset{Some(item)}|;
      tab := tab[c := Some(item)];
    }

    /** `ckh_try_insert`. */
    method TryInsert(item: Item<K, V>, fuel: nat) returns (out: Outcome, hand: Item<K, V>)
      requires Shaped()
      modifies this`tab, this`count, this`drawn
      ensures Shaped()
      ensures out == Done ==> Items(tab) == old(Items(tab)) + multiset{Some(item)}
      ensures out != Done ==> Items(tab) + multiset{Some(hand)} == old(Items(tab)) + multiset{Some(item)}
      ensures out == Failed ==> Some(hand) in old(Items(tab))
      ensures drawn > old(drawn)
      ensures Straight(old(drawn), 3) && old(Full(tab, 0)) && fuel > 0 ==>
                out == Failed && drawn == old(drawn) + 3 && old(tab)[0] == Some(hand) && tab == old(tab)[0 := Some(item)]
      ensures Straight(old(drawn), 1) && !old(Full(tab, 0)) ==> out == Done && drawn == old(drawn) + 1 && tab == Filled(old(tab), 0, item)
    {
      hide Bucket, Items, Placed, Full, Filled;
      var ok := TryBucketInsert(Bucket(h0(item.key), lg), item);
      if ok {
        return Done, item;
      }
      ok := TryBucketInsert(Bucket(h1(item.key), lg), item);
      if ok {
        return Done, item;
      }
      out, hand := EvictReloc(Bucket(h1(item.key), lg), item, fuel);
    }

    /** `ckh_rebuild`: every item of the old table into the new, empty one; a failure leaves the count as it was. */
    method Rebuild(source: seq<Cell<K, V>>, fuel: nat) returns (out: Outcome)
      requires Counted(source, count) && |tab| == CELLS * Pow2(lg) && forall i :: 0 <= i < |tab| ==> tab[i].None?
      modifies this`tab, this`count, this`drawn
      ensures out == Done ==> Shaped() && Items(tab) == Items(source)
      ensures out == Failed ==> count == old(count)
      ensures drawn >= old(drawn) && (old(count) > 0 ==> drawn > old(drawn))
      ensures Straight(old(drawn), CELLS) && |source| == CELLS && Full(source, 0) ==>
                out == Done && drawn == old(drawn) + CELLS && tab[..CELLS] == source
    {
      hide Bucket, Items, Placed, Full, Filled, Straight, Copied;
      ghost var straight := Straight(drawn, CELLS) && |source| == CELLS && Full(source, 0);
      assert Pow2(lg) >= 1;
      if straight {
        NoneCopied(source, tab);
      }
      var total := count;
      NoItems(tab, lg, h0, h1);
      count := 0;
      var i, nins := 0, 0;
      while nins < total
        invariant 0 <= i <= |source| && Shaped() && nins == count && drawn >= old(drawn) + nins
        invariant Items(tab) == Items(source[..i])
        invariant straight ==> drawn == old(drawn) + i && nins == i && Copied(source, tab, i)
        decreases |source| - i
      {
        MoreItems(source, i, total);
        if straight {
          FilledAt(source, tab, i);
          StraightOn(old(drawn), CELLS, drawn, 1);
        }
        NextItem(source, i);
        if source[i].Some? {
          var hand;
          out, hand := TryInsert(source[i].value, fuel);
          if out != Done {
            count := total;
            return;
          }
          nins := nins + 1;
        }
        i := i + 1;
      }
      AllItems(source, i, total);
      if straight {
        FullCount(source, total);
        AllCopied(source, tab);
      }
      out := Done;
    }

    /**
      `ckh_grow`: doubles the table until a rebuild succeeds; otherwise all is as it was. `tries` counts the tables that
      were granted and rebuilt into; each try draws, if there is an item to move.
     */
    method Grow(grant: nat -> bool, fuel: nat) returns (out: Outcome, ghost tries: nat)
      requires Shaped()
      modifies this`tab, this`count, this`lg, this`drawn
      ensures out == Done ==> Shaped() && Items(tab) == old(Items(tab)) && old(lg) < lg
      ensures out == Done ==> lg + 2 < LG_MAX_CELLS
      ensures !grant(0) ==> out == Failed
      ensures forall t: nat :: t < tries ==> grant(t)
      ensures out == Failed ==> !grant(tries) || old(lg) + 3 + tries >= LG_MAX_CELLS
      ensures drawn >= old(drawn) && (old(count) > 0 ==> drawn >= old(drawn) + tries)
      ensures Straight(old(drawn), CELLS) && old(lg) == 0 && old(Full(tab, 0)) && grant(0) ==>
                out == Done && drawn == old(drawn) + CELLS && tab[..CELLS] == old(tab)
      ensures out == Failed ==> tab == old(tab) && lg == old(lg) && count == old(count)
    {
      hide Bucket, Items, Placed;
      var lgPrev, lgCells := lg, lg + 2;
      var n := 0;
      tries := 0;
      while true
        invariant n == tries
        invariant n == 0 ==> drawn == old(drawn)
        invariant drawn >= old(drawn) && (old(count) > 0 ==> drawn >= old(drawn) + tries)
        invariant n > 0 ==> grant(0) && !(Straight(old(drawn), CELLS) && old(lg) == 0 && old(Full(tab, 0)))
        invariant lgCells == lgPrev + 2 + n && forall t: nat :: t < n ==> grant(t)
        invariant tab == old(tab) && lg == lgPrev && count == old(count)
        decreases LG_MAX_CELLS - lgCells
      {
        lgCells := lgCells + 1;
        if lgCells >= LG_MAX_CELLS {
          return Failed, tries;
        }
        if !grant(n) {
          return Failed, tries;
        }
        n, tries := n + 1, tries + 1;
        var ttab := tab;
        assert Pow2(lgCells) == 2 * Pow2(lgCells - 1);
        tab := seq(Pow2(lgCells), i => None);
        lg := lgCells - 2;
        out := Rebuild(ttab, fuel);
        if out == Done || out == Unfinished {
          return;
        }
        tab := ttab;
        lg := lgPrev;
      }
    }

    /** `ckh_shrink`: halves the table if the items fit; otherwise all is as it was. */
    method Shrink(grant: bool, fuel: nat) returns (out: Outcome)
      requires Shaped() && lg > 0
      modifies this`tab, this`count, this`lg, this`drawn
      ensures out == Done ==> Shaped() && Items(tab) == old(Items(tab)) && lg == old(lg) - 1
      ensures out == Failed ==> tab == old(tab) && lg == old(lg) && count == old(count)
      ensures !grant ==> out == Failed
    {
      hide Bucket, Items, Placed;
      var lgPrev, lgCells := lg, lg + 1;
      if !grant {
        return Failed;
      }
      var ttab := tab;
      tab := seq(Pow2(lgCells), i => None);
      lg := lgCells - 2;
      out := Rebuild(ttab, fuel);
      if out == Failed {
        tab := ttab;
        lg := lgPrev;
      }
    }

    /** `ckh_insert`: the table gains the item, or, out of memory, is left with one item fewer: the one in hand. */
    method Insert(key: K, data: V, grant: nat -> nat -> bool, fuel: nat, ghost m: map<K, V>)
        returns (out: Outcome, hand: Item<K, V>, ghost rounds: nat, ghost tries: nat)
      requires Valid(m) && key !in m
      modifies this`tab, this`count, this`lg, this`drawn
      ensures out == Done ==> Valid(m[key := data])
      ensures out == Failed ==>
                && hand.key in m[key := data] && m[key := data][hand.key] == hand.data
                && Valid(m[key := data] - {hand.key})
      ensures out == Failed && lg == old(lg) ==> hand.key in m
      ensures out == Failed && !grant(0)(0) ==> lg == old(lg)
      ensures out == Failed ==> !grant(rounds)(tries) || lg + 3 + tries >= LG_MAX_CELLS
      ensures drawn >= old(drawn) + rounds + tries
      ensures Straight(old(drawn), DRAWS) && old(lg) == 0 && old(count) == CELLS && fuel > 0 && grant(0)(0) && !grant(1)(0) ==>
                out == Failed && hand == Item(key, data)
    {
      hide Bucket, Items, Placed, Counted, Models, Full;
      ghost var straight := Straight(drawn, DRAWS) && lg == 0 && count == CELLS && fuel > 0 && grant(0)(0) && !grant(1)(0);
      if straight {
        FullCount(tab, count);
      }
      ghost var was, goal := tab, multiset{Some(Item(key, data))} + Items(tab);
      hand := Item(key, data);
      var r := 0;
      rounds, tries := 0, 0;
      while true
        invariant r == rounds && tries == 0 && drawn >= old(drawn) + rounds
        invariant Shaped() && Items(tab) + multiset{Some(hand)} == goal
        invariant rounds == 0 ==> tab == was && lg == old(lg) && count == old(count) && hand == Item(key, data) && drawn == old(drawn)
        invariant rounds > 0 ==> grant(0)(0) && lg > old(lg)
        invariant straight ==> rounds <= 1
        invariant straight && rounds == 1 ==> drawn == old(drawn) + 3 + CELLS && Some(hand) == was[0] && tab[..CELLS] == was[0 := Some(Item(key, data))]
        decreases LG_MAX_CELLS - lg
      {
        if straight {
          StillFull(was, Item(key, data), tab);
        }
        ghost var before, given := tab, hand;
        out, hand := TryInsert(hand, fuel);
        if out == Unfinished {
          return;
        }
        if out == Done {
          AddedModels(was, m, tab, key, data);
          return;
        }
        SomeItems(before, tab, count, given, hand);
        out, tries := Grow(grant(r), fuel);
        if out == Unfinished {
          return;
        }
        if out == Failed {
          LostModels(was, m, tab, key, data, hand);
          ItemIsModelled(was, m, hand);
          return;
        }
        r, rounds, tries := r + 1, rounds + 1, 0;
      }
    }

    /** `ckh_remove`: takes the key out, whether or not the table then shrinks. */
    method Remove(key: K, grant: bool, fuel: nat, ghost m: map<K, V>) returns (r: Option<V>, out: Outcome)
      requires Valid(m)
      modifies this`tab, this`count, this`lg, this`drawn
      ensures r == if key in m then Some(m[key]) else None
      ensures out != Unfinished ==> Valid(m - {key})
      ensures if key in m && old(count) - 1 < Pow2(old(lg)) && old(lg) > lgMin
              then (out == Done ==> lg == old(lg) - 1) && (out == Failed ==> lg == old(lg)) && (!grant ==> out == Failed)
              else out == Done && lg == old(lg)
    {
      hide Bucket, Items, Models, Full;
      var cell := ISearch(key, m);
      if cell.None? {
        assert m - {key} == m;
        return None, Done;
      }
      r := Some(tab[cell.value].value.data);
      Cleared(tab, cell.value);
      ghost var was := tab;
      assert |Items(tab[cell.value := None]) + multiset{tab[cell.value]}| == |Items(tab)|;
      tab := tab[cell.value := None];
      count := count - 1;
      RemovedModels(was, m, tab, key);
      out := Done;
      if count < Pow2(lg) && lg > lgMin {
        ghost var shrunk := tab;
        out := Shrink(grant, fuel);
        if out == Done {
          SameModels(shrunk, tab, m - {key});
        }
      }
    }
  }
}
