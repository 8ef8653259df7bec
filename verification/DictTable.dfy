/** One hash table of src/dict.c: chains of entries in a power of two of buckets. */
module DictTable {
  import opened Prelude
  import opened Words

  type Word = b: Bits | |b| == WORD witness Fill(WORD, false)

  datatype Entry<K, V> = Entry(key: K, val: V)

  /** `dictht`; a table that was never allocated has no chains. */
  datatype Table<K, V> = Table(bits: nat, chains: seq<seq<Entry<K, V>>>, used: int)

  function NoTable<K, V>(): Table<K, V> {
    Table(0, [], 0)
  }

  /** `h & sizemask`. */
  function Index(h: Word, bits: nat): (i: nat)
    requires bits <= WORD
    ensures i < Pow2(bits)
  {
    ValBound(h[..bits]);
    Val(h[..bits])
  }

  function Total<K, V>(chains: seq<seq<Entry<K, V>>>): nat {
    if chains == [] then 0 else Total(chains[..|chains| - 1]) + |chains[|chains| - 1]|
  }

  lemma {:induction false} TotalUpdate<K, V>(chains: seq<seq<Entry<K, V>>>, b: nat, c: seq<Entry<K, V>>)
    requires b < |chains|
    ensures Total(chains[b := c]) == Total(chains) - |chains[b]| + |c|
  {
    var n := |chains| - 1;
    if b == n {
      assert chains[b := c][..n] == chains[..n];
    } else {
      TotalUpdate(chains[..n], b, c);
      assert chains[b := c][..n] == chains[..n][b := c];
    }
  }

  lemma {:induction false} TotalZero<K, V>(chains: seq<seq<Entry<K, V>>>)
    ensures Total(chains) == 0 <==> forall b :: 0 <= b < |chains| ==> chains[b] == []
  {
    if chains != [] {
      var n := |chains| - 1;
      TotalZero(chains[..n]);
      assert forall b :: 0 <= b < n ==> chains[..n][b] == chains[b];
    }
  }

  /** The walk along a chain. */
  function FindIn<K(==), V>(chain: seq<Entry<K, V>>, k: K): (r: Option<V>)
    ensures r.Some? <==> exists i :: 0 <= i < |chain| && chain[i].key == k
  {
    if chain == [] then None
    else if chain[0].key == k then Some(chain[0].val)
    else
      var r := FindIn(chain[1..], k);
      assert forall i :: 1 <= i < |chain| ==> chain[i] == chain[1..][i - 1];
      assert r.Some? ==> exists i :: 1 <= i < |chain| && chain[i].key == k by {
        if r.Some? {
          var j :| 0 <= j < |chain[1..]| && chain[1..][j].key == k;
          assert chain[j + 1].key == k;
        }
      }
      r
  }

  ghost predicate Distinct<K, V>(chain: seq<Entry<K, V>>) {
    forall i, j :: 0 <= i < j < |chain| ==> chain[i].key != chain[j].key
  }

  /** Every entry is in the bucket its hash selects. */
  ghost predicate Placed<K, V>(hash: K -> Word, bits: nat, chain: seq<Entry<K, V>>, b: nat)
    requires bits <= WORD
  {
    forall i :: 0 <= i < |chain| ==> Index(hash(chain[i].key), bits) == b
  }

  ghost predicate TableOk<K, V>(hash: K -> Word, t: Table<K, V>) {
    && (t.chains != [] ==> 2 <= t.bits <= 63 && |t.chains| == Pow2(t.bits))
    && t.used == Total(t.chains)
    && forall b :: 0 <= b < |t.chains| ==>
         Distinct(t.chains[b]) && t.bits <= WORD && Placed(hash, t.bits, t.chains[b], b)
  }

  /** The chain that key k belongs in. */
  ghost function ChainOf<K, V>(hash: K -> Word, t: Table<K, V>, k: K): seq<Entry<K, V>>
    requires TableOk(hash, t)
  {
    if t.chains == [] then [] else t.chains[Index(hash(k), t.bits)]
  }

  ghost function Get<K, V>(hash: K -> Word, t: Table<K, V>, k: K): Option<V>
    requires TableOk(hash, t)
  {
    FindIn(ChainOf(hash, t, k), k)
  }

  /** The table with another chain in bucket b. */
  function WithChain<K, V>(t: Table<K, V>, b: nat, chain: seq<Entry<K, V>>): Table<K, V>
    requires b < |t.chains|
  {
    t.(chains := t.chains[b := chain], used := t.used - |t.chains[b]| + |chain|)
  }

  lemma WithChainOk<K(!new), V>(hash: K -> Word, t: Table<K, V>, b: nat, chain: seq<Entry<K, V>>)
    requires TableOk(hash, t) && b < |t.chains| && Distinct(chain) && Placed(hash, t.bits, chain, b)
    ensures TableOk(hash, WithChain(t, b, chain))
    ensures forall k :: Get(hash, WithChain(t, b, chain), k)
              == if Index(hash(k), t.bits) == b then FindIn(chain, k) else Get(hash, t, k)
  {
    TotalUpdate(t.chains, b, chain);
  }

  /** A new entry goes to the head of its chain. */
  lemma PushOk<K(!new), V>(hash: K -> Word, t: Table<K, V>, e: Entry<K, V>)
    requires TableOk(hash, t) && t.chains != [] && Get(hash, t, e.key).None?
    ensures var b := Index(hash(e.key), t.bits);
      var t' := WithChain(t, b, [e] + t.chains[b]);
      TableOk(hash, t') && forall k :: Get(hash, t', k) == if k == e.key then Some(e.val) else Get(hash, t, k)
  {
    hide Index;
    var b := Index(hash(e.key), t.bits);
    var chain := [e] + t.chains[b];
    assert chain[1..] == t.chains[b];
    assert Distinct(chain) && Placed(hash, t.bits, chain, b);
    WithChainOk(hash, t, b, chain);
  }

  /** Taking the entry at position i out of its chain. */
  lemma RemoveOk<K(!new), V>(hash: K -> Word, t: Table<K, V>, b: nat, i: nat)
    requires TableOk(hash, t) && b < |t.chains| && i < |t.chains[b]|
    ensures var t' := WithChain(t, b, t.chains[b][..i] + t.chains[b][i + 1..]);
      TableOk(hash, t') && forall k :: Get(hash, t', k) == if k == t.chains[b][i].key then None else Get(hash, t, k)
  {
    hide Index;
    var chain := t.chains[b];
    var rest := chain[..i] + chain[i + 1..];
    assert Distinct(rest) && Placed(hash, t.bits, rest, b);
    WithChainOk(hash, t, b, rest);
    forall k ensures FindIn(rest, k) == if k == chain[i].key then None else FindIn(chain, k) {
      FindAfterRemove(chain, i, k);
    }
  }

  lemma {:induction false} FindAfterRemove<K, V>(chain: seq<Entry<K, V>>, i: nat, k: K)
    requires Distinct(chain) && i < |chain|
    ensures FindIn(chain[..i] + chain[i + 1..], k) == if k == chain[i].key then None else FindIn(chain, k)
    decreases |chain|
  {
    var rest := chain[..i] + chain[i + 1..];
    if i == 0 {
      assert rest == chain[1..];
    } else {
      assert rest[0] == chain[0] && rest[1..] == chain[1..][..i - 1] + chain[1..][i..];
      FindAfterRemove(chain[1..], i - 1, k);
    }
  }

  /** Changing the value of the entry at position i. */
  lemma SetValOk<K(!new), V>(hash: K -> Word, t: Table<K, V>, b: nat, i: nat, v: V)
    requires TableOk(hash, t) && b < |t.chains| && i < |t.chains[b]|
    ensures var k0 := t.chains[b][i].key;
      var t' := WithChain(t, b, t.chains[b][i := Entry(k0, v)]);
      TableOk(hash, t') && forall k :: Get(hash, t', k) == if k == k0 then Some(v) else Get(hash, t, k)
  {
    hide Index;
    var chain := t.chains[b];
    var chain' := chain[i := Entry(chain[i].key, v)];
    assert Distinct(chain') && Placed(hash, t.bits, chain', b);
    WithChainOk(hash, t, b, chain');
    forall k ensures FindIn(chain', k) == if k == chain[i].key then Some(v) else FindIn(chain, k) {
      FindAfterSet(chain, i, v, k);
    }
  }

  lemma {:induction false} FindAfterSet<K, V>(chain: seq<Entry<K, V>>, i: nat, v: V, k: K)
    requires Distinct(chain) && i < |chain|
    ensures FindIn(chain[i := Entry(chain[i].key, v)], k) == if k == chain[i].key then Some(v) else FindIn(chain, k)
    decreases |chain|
  {
    var chain' := chain[i := Entry(chain[i].key, v)];
    if i == 0 {
      assert chain'[1..] == chain[1..];
    } else {
      assert chain'[0] == chain[0] && chain'[1..] == chain[1..][i - 1 := Entry(chain[i].key, v)];
      FindAfterSet(chain[1..], i - 1, v, k);
    }
  }

  /** A newly allocated table. */
  function Fresh<K, V>(bits: nat): (t: Table<K, V>)
    ensures t.bits == bits && |t.chains| == Pow2(bits)
  {
    Table(bits, seq(Pow2(bits), i => []), 0)
  }

  lemma FreshOk<K(!new), V>(hash: K -> Word, bits: nat)
    requires 2 <= bits <= 63
    ensures TableOk(hash, Fresh<K, V>(bits))
    ensures forall k :: Get(hash, Fresh<K, V>(bits), k) == None
  {
    hide Index;
    TotalZero(Fresh<K, V>(bits).chains);
  }
}
