/** src/dict.c: the dictionary with its two tables and incremental rehashing, as a plain map. */
module Dict {
  import opened Prelude
  import opened Words
  import opened DictTable

  const INITIAL_SIZE: nat := 4
  const FORCE_RESIZE_RATIO: nat := 5
  const LONG_MAX: nat := 0x7fff_ffff_ffff_ffff

  /** The parts of a dictionary that a lookup reads. */
  datatype State<K, V> = State(ht0: Table<K, V>, ht1: Table<K, V>, rehashidx: int)

  /** While rehashing, the buckets below `rehashidx` have moved and no key is in both tables. */
  ghost predicate Ok<K(!new), V>(hash: K -> Word, s: State<K, V>) {
    && TableOk(hash, s.ht0) && TableOk(hash, s.ht1)
    && (s.rehashidx == -1 ==> s.ht1 == NoTable())
    && (s.rehashidx != -1 ==>
          && s.ht0.chains != [] && s.ht1.chains != []
          && 0 <= s.rehashidx <= |s.ht0.chains|
          && forall b :: 0 <= b < s.rehashidx ==> s.ht0.chains[b] == [])
    && forall k :: Get(hash, s.ht0, k).Some? ==> Get(hash, s.ht1, k).None?
  }

  ghost function Lookup<K(!new), V>(hash: K -> Word, s: State<K, V>, k: K): Option<V>
    requires Ok(hash, s)
  {
    var r := Get(hash, s.ht0, k);
    if r.Some? then r else Get(hash, s.ht1, k)
  }

  /** The dictionary holds exactly the pairs of the map. */
  ghost predicate Models<K(!new), V>(hash: K -> Word, s: State<K, V>, m: map<K, V>)
    requires Ok(hash, s)
  {
    && (forall k :: k in m ==> Lookup(hash, s, k) == Some(m[k]))
    && (forall k :: Lookup(hash, s, k).Some? ==> k in m)
  }

  /** One entry moves from the head of a chain of the old table to the new table. */
  function MoveOne<K, V>(hash: K -> Word, s: State<K, V>): State<K, V>
    requires 0 <= s.rehashidx < |s.ht0.chains| && s.ht0.chains[s.rehashidx] != [] && s.ht1.bits <= WORD
    requires |s.ht1.chains| == Pow2(s.ht1.bits)
  {
    var chain := s.ht0.chains[s.rehashidx];
    var b := Index(hash(chain[0].key), s.ht1.bits);
    State(WithChain(s.ht0, s.rehashidx, chain[1..]), WithChain(s.ht1, b, [chain[0]] + s.ht1.chains[b]), s.rehashidx)
  }

  lemma MoveOneKeeps<K(!new), V>(hash: K -> Word, s: State<K, V>)
    requires Ok(hash, s) && 0 <= s.rehashidx < |s.ht0.chains| && s.ht0.chains[s.rehashidx] != []
    ensures Ok(hash, MoveOne(hash, s))
    ensures forall k :: Lookup(hash, MoveOne(hash, s), k) == Lookup(hash, s, k)
  {
    hide Index, Get, TableOk;
    var b := s.rehashidx;
    var chain := s.ht0.chains[b];
    assert chain[..0] + chain[1..] == chain[1..];
    HeadFound(hash, s.ht0, b);
    RemoveOk(hash, s.ht0, b, 0);
    PushOk(hash, s.ht1, chain[0]);
    TableShape(hash, s.ht1);
  }

  lemma HeadFound<K(!new), V>(hash: K -> Word, t: Table<K, V>, b: nat)
    requires TableOk(hash, t) && b < |t.chains| && t.chains[b] != []
    ensures Get(hash, t, t.chains[b][0].key) == Some(t.chains[b][0].val)
  {
    hide Index;
    assert Index(hash(t.chains[b][0].key), t.bits) == b;
  }

  /** When the old table is empty the new one takes its place. */
  lemma FinishKeeps<K(!new), V>(hash: K -> Word, s: State<K, V>)
    requires Ok(hash, s) && s.rehashidx != -1 && s.ht0.used == 0
    ensures var s' := State(s.ht1, NoTable(), -1);
      Ok(hash, s') && forall k :: Lookup(hash, s', k) == Lookup(hash, s, k)
  {
    hide Index;
    TotalZero(s.ht0.chains);
    assert forall k :: Get(hash, s.ht0, k).None?;
  }

  /** If the old table still has entries, some bucket from `rehashidx` on is not empty. */
  lemma MoreToMove<K(!new), V>(hash: K -> Word, s: State<K, V>) returns (b: nat)
    requires Ok(hash, s) && s.rehashidx != -1 && s.ht0.used != 0
    ensures s.rehashidx <= b < |s.ht0.chains| && s.ht0.chains[b] != []
  {
    TotalZero(s.ht0.chains);
    b :| 0 <= b < |s.ht0.chains| && s.ht0.chains[b] != [];
  }

  lemma SameLookups<K(!new), V>(hash: K -> Word, s: State<K, V>, s': State<K, V>, m: map<K, V>)
    requires Ok(hash, s) && Ok(hash, s') && Models(hash, s, m)
    requires forall k :: Lookup(hash, s', k) == Lookup(hash, s, k)
    ensures Models(hash, s', m)
  {
  }

  /** The smallest power of two that is at least 4 and a size. */
  ghost predicate IsPower(bits: nat, size: nat) {
    2 <= bits && Pow2(bits) >= size && (bits == 2 || Pow2(bits - 1) < size)
  }

  /**
    `_dictNextPower`, as the number of bits: the smallest power of two that is at least 4 and the size. `None` stands
    for LONG_MAX, which is the answer for every size from there on.
   */
  method NextPower(size: nat) returns (power: Option<nat>)
    ensures power.None? <==> size >= LONG_MAX
    ensures power.Some? ==> power.value <= 63 && IsPower(power.value, size)
  {
    if size >= LONG_MAX {
      return None;
    }
    var bits := 2;
    var i := INITIAL_SIZE;
    assert Pow2(0) == 1 && Pow2(1) == 2;
    while i < size
      invariant 2 <= bits <= 63 && i == Pow2(bits) && (bits == 2 || Pow2(bits - 1) < size)
      decreases size - i
    {
      Pow2Room(bits);
      i := i * 2;
      bits := bits + 1;
    }
    power := Some(bits);
  }

  lemma {:induction false} Pow2Sum(a: nat, b: nat)
    ensures Pow2(a + b) == Pow2(a) * Pow2(b)
    decreases a
  {
    if a > 0 {
      Pow2Sum(a - 1, b);
    }
  }

  lemma Pow2Of3()
    ensures Pow2(3) == 8
  {
    assert Pow2(1) == 2;
  }

  lemma Pow2Of63()
    ensures Pow2(63) == 0x8000_0000_0000_0000
  {
    hide Pow2;
    Pow2Of3();
    Pow2Sum(3, 3);
    Pow2Sum(6, 6);
    Pow2Sum(12, 12);
    Pow2Sum(24, 24);
    Pow2Sum(48, 12);
    Pow2Sum(60, 3);
  }

  lemma Pow2Room(bits: nat)
    requires Pow2(bits) < LONG_MAX
    ensures bits <= 62
  {
    hide Pow2;
    if bits >= 63 {
      Pow2Monotone(63, bits);
      Pow2Of63();
    }
  }

  lemma {:induction false} Pow2Monotone(a: nat, b: nat)
    requires a <= b
    ensures Pow2(a) <= Pow2(b)
    decreases b
  {
    if a < b {
      Pow2Monotone(a, b - 1);
    }
  }

  class Dictionary<K(!new, ==), V> {
    const hash: K -> Word
    var ht0: Table<K, V>
    var ht1: Table<K, V>
    var rehashidx: int
    var iterators: nat
    var canResize: bool
    ghost var m: map<K, V>

    function St(): State<K, V>
      reads this
    {
      State(ht0, ht1, rehashidx)
    }

    ghost predicate Valid()
      reads this
    {
      Ok(hash, St()) && Models(hash, St(), m)
    }

    /** `dictCreate`. */
    constructor (hash: K -> Word, canResize: bool)
      ensures Valid() && m == map[] && this.hash == hash && this.canResize == canResize && iterators == 0
    {
      this.hash := hash;
      ht0, ht1, rehashidx, iterators := NoTable(), NoTable(), -1, 0;
      this.canResize := canResize;
      m := map[];
    }

    /**
      `dictExpand`: allocates the first table, or a second one to rehash into. A table of LONG_MAX buckets cannot be
      had, and the server gives up.
     */
    method Expand(size: nat) returns (ok: bool, aborted: bool)
      requires Valid()
      modifies this`ht0, this`ht1, this`rehashidx
      ensures Valid() && m == old(m)
      ensures ok || aborted <==> old(rehashidx) == -1 && old(ht0.used) <= size
      ensures ok ==> size < LONG_MAX
      ensures aborted ==> size >= LONG_MAX
      ensures !ok ==> St() == old(St())
      ensures ok && old(ht0.chains) == [] ==> ht0.chains != [] && rehashidx == -1 && IsPower(ht0.bits, size)
      ensures ok && old(ht0.chains) != [] ==> ht0 == old(ht0) && rehashidx == 0 && IsPower(ht1.bits, size)
    {
      hide Index, Get, TableOk;
      var power := NextPower(size);
      if rehashidx != -1 || ht0.used > size {
        return false, false;
      }
      if power.None? {
        return false, true;
      }
      var bits := power.value;
      ghost var s := St();
      FreshOk<K, V>(hash, bits);
      if ht0.chains == [] {
        FirstTable(hash, s, bits);
        ht0 := Fresh(bits);
        SameLookups(hash, s, St(), m);
        return true, false;
      }
      SecondTable(hash, s, bits);
      ht1, rehashidx := Fresh(bits), 0;
      SameLookups(hash, s, St(), m);
      ok, aborted := true, false;
    }

    /** `dictRehash`: n buckets are moved; false once the old table is gone. */
    method Rehash(n: nat) returns (more: bool)
      requires Valid()
      modifies this`ht0, this`ht1, this`rehashidx
      ensures Valid() && m == old(m)
      ensures old(rehashidx) == -1 ==> St() == old(St()) && !more
      ensures !more ==> rehashidx == -1
      ensures more ==> rehashidx >= old(rehashidx) + n && rehashidx != -1
      ensures n > old(|ht0.chains|) ==> !more
      ensures old(ht0.chains) != [] ==> ht0.chains != []
    {
      hide Index, Get, TableOk;
      if rehashidx == -1 {
        return false;
      }
      var left := n;
      while left > 0
        invariant Valid() && m == old(m) && rehashidx != -1 && ht0.chains != []
        invariant 0 <= left <= n && rehashidx >= old(rehashidx) + n - left && |ht0.chains| == old(|ht0.chains|)
      {
        left := left - 1;
        if ht0.used == 0 {
          FinishKeeps(hash, St());
          ghost var s := St();
          ht0, ht1, rehashidx := ht1, NoTable(), -1;
          SameLookups(hash, s, St(), m);
          return false;
        }
        MoveBucket();
      }
      more := true;
    }

    /** One turn of the loop: skips the empty buckets, then empties the next one. */
    method MoveBucket()
      requires Valid() && rehashidx != -1 && ht0.used != 0
      modifies this`ht0, this`ht1, this`rehashidx
      ensures Valid() && m == old(m) && rehashidx > old(rehashidx) && ht0.chains != [] && |ht0.chains| == old(|ht0.chains|)
    {
      hide Index, Get, TableOk;
      ghost var full := MoreToMove(hash, St());
      while ht0.chains[rehashidx] == []
        invariant old(rehashidx) <= rehashidx <= full && ht0 == old(ht0) && ht1 == old(ht1)
        invariant Valid() && m == old(m)
        decreases full - rehashidx
      {
        ghost var s := St();
        SkipKeeps(hash, s);
        rehashidx := rehashidx + 1;
        SameLookups(hash, s, St(), m);
      }
      while ht0.chains[rehashidx] != []
        invariant old(rehashidx) <= rehashidx < |ht0.chains| == old(|ht0.chains|) && Valid() && m == old(m)
        decreases |ht0.chains[rehashidx]|
      {
        ghost var s := St();
        MoveOneKeeps(hash, s);
        TableShape(hash, ht1);
        var s' := MoveOne(hash, St());
        ht0, ht1 := s'.ht0, s'.ht1;
        SameLookups(hash, s, s', m);
      }
      ghost var s := St();
      SkipKeeps(hash, s);
      rehashidx := rehashidx + 1;
      SameLookups(hash, s, St(), m);
    }

    /** `_dictRehashStep`: moves a bucket on, unless an iterator is about. */
    method RehashStep()
      requires Valid()
      modifies this`ht0, this`ht1, this`rehashidx
      ensures Valid() && m == old(m)
      ensures if iterators == 0 && old(rehashidx) != -1 then rehashidx == -1 || rehashidx > old(rehashidx) else St() == old(St())
      ensures old(ht0.chains) != [] ==> ht0.chains != []
    {
      if iterators == 0 && rehashidx != -1 {
        var _ := Rehash(1);
      }
    }

    /** Where an entry is: its table, 0 or 1, its bucket and its place in the chain; table -1 if nowhere. */
    method Locate(key: K) returns (table: int, b: nat, i: nat)
      requires Valid() && ht0.chains != []
      ensures -1 <= table <= 1 && (table == -1 <==> key !in m)
      ensures table == 0 ==> b < |ht0.chains| && i < |ht0.chains[b]| && ht0.chains[b][i].key == key
      ensures table == 1 ==> b < |ht1.chains| && i < |ht1.chains[b]| && ht1.chains[b][i].key == key
      ensures table == 0 ==> ht0.chains[b][i].val == m[key]
      ensures table == 1 ==> ht1.chains[b][i].val == m[key]
    {
      hide Index, TableOk;
      TableShape(hash, ht0);
      ghost var s := St();
      b := Index(hash(key), ht0.bits);
      i := Walk(ht0.chains[b], key);
      if i < |ht0.chains[b]| {
        return 0, b, i;
      }
      if rehashidx == -1 {
        assert Get(hash, s.ht1, key).None?;
        return -1, 0, 0;
      }
      TableShape(hash, ht1);
      b := Index(hash(key), ht1.bits);
      i := Walk(ht1.chains[b], key);
      table := if i < |ht1.chains[b]| then 1 else -1;
    }

    /** `dictFind`. */
    method Find(key: K) returns (r: Option<V>)
      requires Valid()
      modifies this`ht0, this`ht1, this`rehashidx
      ensures Valid() && m == old(m)
      ensures if iterators == 0 && old(rehashidx) != -1 then rehashidx == -1 || rehashidx > old(rehashidx) else St() == old(St())
      ensures r == if key in m then Some(m[key]) else None
    {
      hide Index, TableOk, Ok, Models;
      if ht0.chains == [] {
        HasTable(hash, St(), m);
        return None;
      }
      RehashStep();
      var table, b, i := Locate(key);
      if table == 0 {
        r := Some(ht0.chains[b][i].val);
      } else if table == 1 {
        r := Some(ht1.chains[b][i].val);
      } else {
        r := None;
      }
    }

    /** Not rehashing, with an entry per bucket, and free to resize or far over the ratio. */
    predicate Crowded()
      requires ht0.chains != []
      reads this
    {
      rehashidx == -1 && ht0.used >= |ht0.chains| && (canResize || ht0.used / |ht0.chains| > FORCE_RESIZE_RATIO)
    }

    /** `_dictExpandIfNeeded`: the first table, or twice the size once there is an entry per bucket. */
    method ExpandIfNeeded()
      requires Valid() && ht0.used * 2 < LONG_MAX
      modifies this`ht0, this`ht1, this`rehashidx
      ensures Valid() && m == old(m) && ht0.chains != []
      ensures old(ht0.chains) != [] && !old(Crowded()) ==> St() == old(St())
      ensures old(ht0.chains) != [] && old(Crowded()) ==>
                ht0 == old(ht0) && rehashidx == 0 && IsPower(ht1.bits, old(ht0.used) * 2)
    {
      hide Index, Get, TableOk;
      if rehashidx != -1 {
        return;
      }
      if ht0.chains == [] {
        NoEntries(hash, ht0);
        var _, _ := Expand(INITIAL_SIZE);
        return;
      }
      NonNegative(hash, ht0);
      if ht0.used >= |ht0.chains| && (canResize || ht0.used / |ht0.chains| > FORCE_RESIZE_RATIO) {
        var _, _ := Expand(ht0.used * 2);
      }
    }

    /** `dictAdd`: nothing changes when the key is there already. */
    method Add(key: K, val: V) returns (ok: bool)
      requires Valid() && |m| * 2 < LONG_MAX
      modifies this`ht0, this`ht1, this`rehashidx, this`m
      ensures Valid()
      ensures ok <==> key !in old(m)
      ensures m == if ok then old(m)[key := val] else old(m)
      ensures ht0.chains != [] && (rehashidx == -1 ==> ht0.used <= (if canResize then 1 else FORCE_RESIZE_RATIO + 1) * |ht0.chains|)
      ensures old(rehashidx) == -1 && old(ht0.chains) != [] ==> (rehashidx != -1 <==> old(Crowded()))
      ensures iterators == 0 && old(rehashidx) > 0 ==> rehashidx != old(rehashidx)
    {
      hide Index, Models, Lookup, Ok;
      if ht0.chains == [] {
        HasTable(hash, St(), m);
      }
      RehashStep();
      UsedIsSmall(hash, St(), m);
      ExpandIfNeeded();
      UsedIsSmall(hash, St(), m);
      if rehashidx == -1 {
        LoadBound(ht0.used, |ht0.chains|, canResize);
      }
      var table, b, i := Locate(key);
      if table != -1 {
        return false;
      }
      Place(key, val);
      ok := true;
    }

    /** The part of `dictAddRaw` that links a new entry at the head of its chain, in the newer table. */
    method Place(key: K, val: V)
      requires Valid() && ht0.chains != [] && key !in m
      modifies this`ht0, this`ht1, this`m
      ensures Valid() && m == old(m)[key := val] && |ht0.chains| == old(|ht0.chains|)
      ensures rehashidx == -1 ==> ht0.used == old(ht0.used) + 1
    {
      hide Index, Models, Lookup;
      ghost var s := St();
      var e := Entry(key, val);
      var b;
      if rehashidx != -1 {
        TableShape(hash, ht1);
        AddOk(hash, s, e, m);
        b := Index(hash(key), ht1.bits);
        ht1 := WithChain(ht1, b, [e] + ht1.chains[b]);
      } else {
        TableShape(hash, ht0);
        AddOk(hash, s, e, m);
        b := Index(hash(key), ht0.bits);
        ht0 := WithChain(ht0, b, [e] + ht0.chains[b]);
      }
      m := m[key := val];
    }

    /** `dictReplace`: adds the key or changes its value; true when it was added. */
    method Replace(key: K, val: V) returns (added: bool)
      requires Valid() && |m| * 2 < LONG_MAX
      modifies this
      ensures Valid() && m == old(m)[key := val]
      ensures added <==> key !in old(m)
    {
      hide Index, Ok, Models, Lookup;
      added := Add(key, val);
      if !added {
        var present := Find(key);
        if ht0.chains == [] {
          HasTable(hash, St(), m);
        }
        var table, b, i := Locate(key);
        ghost var s := St();
        SetOk(hash, s, table, b, i, val, m);
        if table == 0 {
          ht0 := WithChain(ht0, b, ht0.chains[b][i := Entry(key, val)]);
        } else {
          ht1 := WithChain(ht1, b, ht1.chains[b][i := Entry(key, val)]);
        }
        m := m[key := val];
      }
    }

    /** `dictGenericDelete`: unlinks the entry from its chain. */
    method Delete(key: K) returns (ok: bool)
      requires Valid()
      modifies this`ht0, this`ht1, this`rehashidx, this`m
      ensures Valid()
      ensures ok <==> key in old(m)
      ensures m == old(m) - {key}
      ensures iterators == 0 && old(rehashidx) != -1 ==> rehashidx == -1 || rehashidx > old(rehashidx)
    {
      hide Index, Ok, Models, Lookup;
      if ht0.chains == [] {
        HasTable(hash, St(), m);
        assert m - {key} == m;
        return false;
      }
      RehashStep();
      var table, b, i := Locate(key);
      if table == -1 {
        assert m - {key} == m;
        return false;
      }
      ghost var s := St();
      DeleteOk(hash, s, table, b, i, m);
      if table == 0 {
        ht0 := WithChain(ht0, b, ht0.chains[b][..i] + ht0.chains[b][i + 1..]);
      } else {
        ht1 := WithChain(ht1, b, ht1.chains[b][..i] + ht1.chains[b][i + 1..]);
      }
      m := m - {key};
      ok := true;
    }
  }

  /** A table that is not crowded has room for an entry below the ratio at which it is made to grow. */
  lemma LoadBound(used: int, n: nat, canResize: bool)
    requires n > 0 && (used < n || (!canResize && used / n <= FORCE_RESIZE_RATIO))
    ensures used + 1 <= (if canResize then 1 else FORCE_RESIZE_RATIO + 1) * n
  {
    if used >= n {
      assert used == used / n * n + used % n;
      assert used / n * n <= FORCE_RESIZE_RATIO * n;
    }
  }

  lemma NoEntries<K(!new), V>(hash: K -> Word, t: Table<K, V>)
    requires TableOk(hash, t) && t.chains == []
    ensures t.used == 0
  {
  }

  lemma NonNegative<K(!new), V>(hash: K -> Word, t: Table<K, V>)
    requires TableOk(hash, t)
    ensures t.used >= 0
  {
  }

  /** Without a first table there is nothing in the dictionary. */
  lemma HasTable<K(!new), V>(hash: K -> Word, s: State<K, V>, m: map<K, V>)
    requires Ok(hash, s) && Models(hash, s, m) && s.ht0.chains == []
    ensures m == map[] && s.rehashidx == -1
  {
    assert forall k :: Lookup(hash, s, k).None?;
  }

  /** Adding an entry to the table that takes new ones. */
  lemma AddOk<K(!new), V>(hash: K -> Word, s: State<K, V>, e: Entry<K, V>, m: map<K, V>)
    requires Ok(hash, s) && Models(hash, s, m) && e.key !in m && s.ht0.chains != []
    ensures s.rehashidx != -1 ==>
      var b := Index(hash(e.key), s.ht1.bits);
      var s' := s.(ht1 := WithChain(s.ht1, b, [e] + s.ht1.chains[b]));
      Ok(hash, s') && Models(hash, s', m[e.key := e.val])
    ensures s.rehashidx == -1 ==>
      var b := Index(hash(e.key), s.ht0.bits);
      var s' := s.(ht0 := WithChain(s.ht0, b, [e] + s.ht0.chains[b]));
      Ok(hash, s') && Models(hash, s', m[e.key := e.val])
  {
    hide Index, Get, TableOk;
    TableShape(hash, s.ht0);
    assert Lookup(hash, s, e.key).None?;
    if s.rehashidx != -1 {
      TableShape(hash, s.ht1);
      PushOk(hash, s.ht1, e);
    } else {
      PushOk(hash, s.ht0, e);
    }
  }

  lemma SetOk<K(!new), V>(hash: K -> Word, s: State<K, V>, table: int, b: nat, i: nat, v: V, m: map<K, V>)
    requires Ok(hash, s) && Models(hash, s, m) && (table == 0 || table == 1)
    requires var t := if table == 0 then s.ht0 else s.ht1;
      b < |t.chains| && i < |t.chains[b]|
    ensures var t := if table == 0 then s.ht0 else s.ht1;
      var k := t.chains[b][i].key;
      var t' := WithChain(t, b, t.chains[b][i := Entry(k, v)]);
      var s' := if table == 0 then s.(ht0 := t') else s.(ht1 := t');
      Ok(hash, s') && Models(hash, s', m[k := v])
  {
    hide Index, Get, TableOk;
    var t := if table == 0 then s.ht0 else s.ht1;
    EntryFound(hash, t, b, i);
    SetValOk(hash, t, b, i, v);
  }

  lemma DeleteOk<K(!new), V>(hash: K -> Word, s: State<K, V>, table: int, b: nat, i: nat, m: map<K, V>)
    requires Ok(hash, s) && Models(hash, s, m) && (table == 0 || table == 1)
    requires var t := if table == 0 then s.ht0 else s.ht1;
      b < |t.chains| && i < |t.chains[b]|
    ensures var t := if table == 0 then s.ht0 else s.ht1;
      var t' := WithChain(t, b, t.chains[b][..i] + t.chains[b][i + 1..]);
      var s' := if table == 0 then s.(ht0 := t') else s.(ht1 := t');
      Ok(hash, s') && Models(hash, s', m - {t.chains[b][i].key})
  {
    hide Index, Get, TableOk;
    var t := if table == 0 then s.ht0 else s.ht1;
    EntryFound(hash, t, b, i);
    RemoveOk(hash, t, b, i);
  }

  lemma EntryFound<K(!new), V>(hash: K -> Word, t: Table<K, V>, b: nat, i: nat)
    requires TableOk(hash, t) && b < |t.chains| && i < |t.chains[b]|
    ensures Get(hash, t, t.chains[b][i].key).Some?
  {
    hide Index;
    assert Index(hash(t.chains[b][i].key), t.bits) == b;
  }

  /** The walk along a chain: the place of the key, or the chain's end. */
  method Walk<K(==), V>(chain: seq<Entry<K, V>>, key: K) returns (i: nat)
    ensures i <= |chain|
    ensures i < |chain| ==> chain[i].key == key && FindIn(chain, key) == Some(chain[i].val)
    ensures i == |chain| ==> FindIn(chain, key) == None
  {
    i := 0;
    while i < |chain| && chain[i].key != key
      invariant 0 <= i <= |chain|
      invariant FindIn(chain[i..], key) == FindIn(chain, key)
    {
      assert chain[i..][1..] == chain[i + 1..];
      i := i + 1;
    }
  }

  lemma FirstTable<K(!new), V>(hash: K -> Word, s: State<K, V>, bits: nat)
    requires Ok(hash, s) && s.rehashidx == -1 && s.ht0.chains == [] && 2 <= bits <= 63
    ensures var s' := State(Fresh(bits), s.ht1, -1);
      Ok(hash, s') && forall k :: Lookup(hash, s', k) == Lookup(hash, s, k)
  {
    hide Index;
    FreshOk<K, V>(hash, bits);
  }

  lemma SecondTable<K(!new), V>(hash: K -> Word, s: State<K, V>, bits: nat)
    requires Ok(hash, s) && s.rehashidx == -1 && s.ht0.chains != [] && 2 <= bits <= 63
    ensures var s' := State(s.ht0, Fresh(bits), 0);
      Ok(hash, s') && forall k :: Lookup(hash, s', k) == Lookup(hash, s, k)
  {
    hide Index;
    FreshOk<K, V>(hash, bits);
  }

  lemma SkipKeeps<K(!new), V>(hash: K -> Word, s: State<K, V>)
    requires Ok(hash, s) && 0 <= s.rehashidx < |s.ht0.chains| && s.ht0.chains[s.rehashidx] == []
    ensures var s' := s.(rehashidx := s.rehashidx + 1);
      Ok(hash, s') && forall k :: Lookup(hash, s', k) == Lookup(hash, s, k)
  {
  }

  lemma TableShape<K(!new), V>(hash: K -> Word, t: Table<K, V>)
    requires TableOk(hash, t) && t.chains != []
    ensures 2 <= t.bits <= 63 && |t.chains| == Pow2(t.bits)
  {
  }

  /** The keys of a chain. */
  ghost function Keys<K, V>(chain: seq<Entry<K, V>>): set<K> {
    set i | 0 <= i < |chain| :: chain[i].key
  }

  lemma {:induction false} ChainSize<K, V>(chain: seq<Entry<K, V>>)
    requires Distinct(chain)
    ensures |Keys(chain)| == |chain|
  {
    if chain != [] {
      var n := |chain| - 1;
      ChainSize(chain[..n]);
      assert Keys(chain) == Keys(chain[..n]) + {chain[n].key};
    }
  }

  ghost function AllKeys<K, V>(chains: seq<seq<Entry<K, V>>>): set<K> {
    if chains == [] then {} else AllKeys(chains[..|chains| - 1]) + Keys(chains[|chains| - 1])
  }

  /** The keys of one table are as many as its chains are long together. */
  lemma {:induction false} TableSize<K(!new), V>(hash: K -> Word, bits: nat, chains: seq<seq<Entry<K, V>>>)
    requires bits <= WORD
    requires forall b :: 0 <= b < |chains| ==> Distinct(chains[b]) && Placed(hash, bits, chains[b], b)
    ensures |AllKeys(chains)| == Total(chains)
    ensures forall k :: k in AllKeys(chains) ==>
              Index(hash(k), bits) < |chains| && k in Keys(chains[Index(hash(k), bits)])
  {
    hide Index;
    if chains != [] {
      var n := |chains| - 1;
      TableSize(hash, bits, chains[..n]);
      ChainSize(chains[n]);
      assert Keys(chains[n]) !! AllKeys(chains[..n]);
    }
  }

  /** A table has no more entries than the map has keys. */
  lemma UsedIsSmall<K(!new), V>(hash: K -> Word, s: State<K, V>, m: map<K, V>)
    requires Ok(hash, s) && Models(hash, s, m)
    ensures s.ht0.used <= |m|
  {
    hide Index;
    if s.ht0.chains != [] {
      TableSize(hash, s.ht0.bits, s.ht0.chains);
      forall k | k in AllKeys(s.ht0.chains) ensures k in m.Keys {
        assert Get(hash, s.ht0, k).Some?;
      }
      SubsetSize(AllKeys(s.ht0.chains), m.Keys);
      assert |m.Keys| == |m|;
    }
  }

  lemma {:induction false} SubsetSize<T>(a: set<T>, b: set<T>)
    requires a <= b
    ensures |a| <= |b|
  {
    if a != {} {
      var x :| x in a;
      SubsetSize(a - {x}, b - {x});
    }
  }
}
