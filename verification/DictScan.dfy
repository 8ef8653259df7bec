/** `dictScan`: a stateless cursor that misses no key while the tables change under it. */
module DictScan {
  import opened Words
  import opened DictTable
  import opened Dict

  // ---- the order of the cursor ------------------------------------------------------------

  /** Bits compared from the low end: the order of the reversed numbers. */
  predicate Lex(a: Bits, b: Bits)
    requires |a| == |b|
  {
    a != [] && (if a[0] != b[0] then b[0] else Lex(a[1..], b[1..]))
  }

  lemma {:induction false} LexSplit(a: Bits, b: Bits, n: nat)
    requires |a| == |b| && n <= |a|
    ensures Lex(a, b) <==> Lex(a[..n], b[..n]) || (a[..n] == b[..n] && Lex(a[n..], b[n..]))
  {
    if n == 0 {
      assert a[0..] == a && b[0..] == b;
    } else {
      LexSplit(a[1..], b[1..], n - 1);
      FirstOff(a, n);
      FirstOff(b, n);
    }
  }

  lemma FirstOff(a: Bits, n: nat)
    requires 0 < n <= |a|
    ensures a[..n] == [a[0]] + a[1..][..n - 1] && a[..n][1..] == a[1..][..n - 1] && a[1..][n - 1..] == a[n..]
  {
    assert a[..n] == [a[0]] + a[1..][..n - 1];
  }

  /** Nothing comes before zero. */
  lemma {:induction false} LexZero(a: Bits, z: Bits)
    requires |a| == |z| && forall i :: 0 <= i < |z| ==> !z[i]
    ensures !Lex(a, z)
  {
    if a != [] {
      LexZero(a[1..], z[1..]);
    }
  }

  /** Everything comes before all ones, or is all ones. */
  lemma {:induction false} LexOnes(a: Bits, o: Bits)
    requires |a| == |o| && forall i :: 0 <= i < |o| ==> o[i]
    ensures a == o || Lex(a, o)
  {
    if a != [] {
      LexOnes(a[1..], o[1..]);
      assert a == [a[0]] + a[1..] && o == [o[0]] + o[1..];
    }
  }

  /** Adding one to the reversed bits and reversing them back. */
  function RevInc(p: Bits): (r: Bits)
    ensures |r| == |p|
  {
    Reverse(Inc(Reverse(p)))
  }

  lemma RevIncSnoc(p: Bits, b: bool)
    ensures RevInc(p + [b]) == if b then RevInc(p) + [false] else p + [true]
  {
    var r := Reverse(p + [b]);
    assert r == [b] + Reverse(p);
    assert r[1..] == Reverse(p);
    if b {
      assert Inc(r) == [false] + Inc(Reverse(p));
    } else {
      assert Inc(r) == [true] + Reverse(p);
    }
  }

  lemma LexOne(c: bool, d: bool)
    ensures Lex([c], [d]) <==> !c && d
  {
    assert [c][1..] == [] && [d][1..] == [];
  }

  /** The reversed increment is the successor in this order. */
  lemma {:induction false} RevIncIsNext(p: Bits, q: Bits)
    requires |p| == |q| && exists i :: 0 <= i < |p| && !p[i]
    ensures Lex(q, RevInc(p)) <==> q == p || Lex(q, p)
  {
    hide RevInc;
    var n := |p| - 1;
    var pi, qi, b, c := p[..n], q[..n], p[n], q[n];
    assert p == pi + [b] && q == qi + [c];
    RevIncSnoc(pi, b);
    var r := RevInc(p);
    LexSplit(q, r, n);
    LexSplit(q, p, n);
    LexOne(c, r[n]);
    LexOne(c, b);
    assert q[n..] == [c] && r[n..] == [r[n]] && p[n..] == [b];
    if b {
      var i :| 0 <= i < |p| && !p[i];
      assert !pi[i];
      RevIncIsNext(pi, qi);
      assert r[..n] == RevInc(pi);
    } else {
      assert r[..n] == pi;
    }
  }

  /** The successor of anything but all ones is not zero. */
  lemma {:induction false} RevIncNonzero(p: Bits)
    requires exists i :: 0 <= i < |p| && !p[i]
    ensures exists i :: 0 <= i < |p| && RevInc(p)[i]
  {
    hide RevInc;
    RevIncIsNext(p, p);
    if forall i :: 0 <= i < |p| ==> !RevInc(p)[i] {
      LexZero(p, RevInc(p));
    }
  }

  // ---- the cursor's arithmetic on words ---------------------------------------------------

  function Mask(k: nat): (m: Word)
    requires k <= WORD
    ensures forall i :: 0 <= i < WORD ==> m[i] == (i < k)
  {
    Fill(k, true) + Fill(WORD - k, false)
  }

  lemma {:induction false} ValPad(s: Bits, n: nat)
    ensures Val(s + Fill(n, false)) == Val(s)
  {
    if s == [] {
      assert s + Fill(n, false) == Fill(n, false);
    } else {
      ValPad(s[1..], n);
      assert (s + Fill(n, false))[1..] == s[1..] + Fill(n, false);
    }
  }

  /** `v & m` as a subscript. */
  lemma MaskedVal(v: Word, k: nat)
    requires k <= WORD
    ensures Val(And(v, Mask(k))) == Val(v[..k])
  {
    assert And(v, Mask(k)) == v[..k] + Fill(WORD - k, false);
    ValPad(v[..k], WORD - k);
  }

  lemma {:induction false} IncPrefix(s: Bits, n: nat)
    requires n <= |s|
    ensures Inc(s)[..n] == Inc(s[..n])
  {
    if n > 0 && s[0] {
      IncPrefix(s[1..], n - 1);
      assert s[..n][1..] == s[1..][..n - 1];
      assert Inc(s)[..n] == [false] + Inc(s[1..])[..n - 1];
    }
  }

  /** `(((v | m0) + 1) & ~m0) | (v & m0)`: one more in the bits above k, the same below. */
  function Bump(v: Word, k: nat): (r: Word)
    requires k <= WORD
  {
    var m := Mask(k);
    Or(And(Inc(Or(v, m)), Not(m)), And(v, m))
  }

  lemma BumpMeaning(v: Word, k: nat, k1: nat)
    requires k <= k1 <= WORD
    ensures Bump(v, k)[..k] == v[..k]
    ensures Bump(v, k)[k..k1] == Inc(v[k..k1])
  {
    hide Inc, Mask;
    var m := Mask(k);
    assert Or(v, m) == Fill(k, true) + v[k..];
    IncOverOnes(k, v[k..]);
    IncPrefix(v[k..], k1 - k);
    var w := Inc(Or(v, m));
    assert w[k..] == Inc(v[k..]);
    assert v[k..][..k1 - k] == v[k..k1];
    assert forall i :: k <= i < k1 ==> Bump(v, k)[i] == w[i];
    assert w[k..][..k1 - k] == w[k..k1];
  }

  /** The cursor that follows v for a table of 2^k buckets. */
  function NextCursor(v: Word, k: nat): (r: Word)
    requires k <= WORD
  {
    RevInc(v[..k]) + Fill(WORD - k, false)
  }

  lemma ReverseConcat(a: Bits, b: Bits)
    ensures Reverse(a + b) == Reverse(b) + Reverse(a)
  {
  }

  /** Setting the unmasked bits makes the reversed increment work on the masked ones. */
  lemma AdvanceMeaning(v: Word, k: nat)
    requires k <= WORD
    ensures Reverse(Inc(Reverse(Or(v, Not(Mask(k)))))) == NextCursor(v, k)
  {
    hide Inc, Reverse;
    var n := WORD - k;
    var w := Or(v, Not(Mask(k)));
    assert w == v[..k] + Fill(n, true);
    ReverseConcat(v[..k], Fill(n, true));
    assert Reverse(Fill(n, true)) == Fill(n, true);
    IncOverOnes(n, Reverse(v[..k]));
    ReverseConcat(Fill(n, false), Inc(Reverse(v[..k])));
    assert Reverse(Fill(n, false)) == Fill(n, false);
  }

  // ---- one call ---------------------------------------------------------------------------

  /** The smaller and the larger of the two tables while rehashing. */
  function Small<K, V>(s: State<K, V>): Table<K, V> {
    if s.rehashidx == -1 || |s.ht0.chains| <= |s.ht1.chains| then s.ht0 else s.ht1
  }

  function Large<K, V>(s: State<K, V>): Table<K, V> {
    if |s.ht0.chains| <= |s.ht1.chains| then s.ht1 else s.ht0
  }

  /** The bucket p of the larger table is one of those the call looks into. */
  predicate Expansion(v: Word, k0: nat, k1: nat, p: Bits)
    requires k0 <= k1 <= WORD
  {
    |p| == k1 && p[..k0] == v[..k0] && Val(p[k0..]) >= Val(v[k0..k1])
  }

  /** Every entry of the chain is in the output. */
  ghost predicate Includes<K, V>(out: seq<Entry<K, V>>, chain: seq<Entry<K, V>>) {
    forall i :: 0 <= i < |chain| ==> chain[i] in out
  }

  /** What a call on an allocated, non-empty dictionary does. */
  ghost predicate Scanned<K(!new), V>(hash: K -> Word, s: State<K, V>, v: Word, v': Word, out: seq<Entry<K, V>>)
    requires Ok(hash, s) && s.ht0.chains != []
  {
    var t0, t1 := Small(s), Large(s);
    && v' == NextCursor(v, t0.bits)
    && Includes(out, t0.chains[Index(v, t0.bits)])
    && (s.rehashidx != -1 ==>
          && t0.bits <= t1.bits
          && forall p :: Expansion(v, t0.bits, t1.bits, p) ==> Val(p) < |t1.chains| && Includes(out, t1.chains[Val(p)]))
  }

  /** Everything in the output comes from one of those buckets. */
  ghost predicate OnlyThose<K(!new), V>(hash: K -> Word, s: State<K, V>, v: Word, out: seq<Entry<K, V>>)
    requires Ok(hash, s) && s.ht0.chains != []
  {
    var t0, t1 := Small(s), Large(s);
    forall e :: e in out ==>
      || e in t0.chains[Index(v, t0.bits)]
      || (s.rehashidx != -1 && t0.bits <= t1.bits
          && exists p :: Expansion(v, t0.bits, t1.bits, p) && Val(p) < |t1.chains| && e in t1.chains[Val(p)])
  }

  lemma Shapes<K(!new), V>(hash: K -> Word, s: State<K, V>)
    requires Ok(hash, s) && s.ht0.chains != []
    ensures 2 <= Small(s).bits <= 63 && |Small(s).chains| == Pow2(Small(s).bits)
    ensures s.rehashidx != -1 ==> Small(s).bits <= Large(s).bits <= 63 && |Large(s).chains| == Pow2(Large(s).bits)
  {
    hide Index, Get;
    if s.rehashidx != -1 && Small(s).bits > Large(s).bits {
      Pow2Grows(Large(s).bits, Small(s).bits);
    }
  }

  lemma {:induction false} Pow2Grows(a: nat, b: nat)
    requires a < b
    ensures Pow2(a) < Pow2(b)
    decreases b
  {
    if a < b - 1 {
      Pow2Grows(a, b - 1);
    }
  }

  /** `dictScan`: the entries it hands to the callback, and the next cursor. */
  method Scan<K(!new), V(!new)>(hash: K -> Word, s: State<K, V>, v0: Word) returns (v: Word, out: seq<Entry<K, V>>)
    requires Ok(hash, s)
    ensures s.ht0.used + s.ht1.used == 0 ==> v == Fill(WORD, false) && out == []
    ensures s.ht0.used + s.ht1.used != 0 ==>
              s.ht0.chains != [] && Scanned(hash, s, v0, v, out) && OnlyThose(hash, s, v0, out)
  {
    hide Index, NextCursor, Get, Expansion, Val, Bump, Mask;
    if s.ht0.used + s.ht1.used == 0 {
      return Fill(WORD, false), [];
    }
    UsedTable(hash, s);
    Shapes(hash, s);
    var t0, t1 := Small(s), Large(s);
    var m0 := Mask(t0.bits);
    v := v0;
    MaskedIndex(v, t0.bits);
    out := t0.chains[Val(And(v, m0))];
    if s.rehashidx != -1 {
      var more;
      v, more := ScanLarge(t1, v0, t0.bits);
      out := out + more;
    }
    AdvanceMeaning(v, t0.bits);
    assert v[..t0.bits] == v0[..t0.bits];
    SameNext(v, v0, t0.bits);
    v := Or(v, Not(m0));
    v := RevWord(v);
    v := Inc(v);
    v := RevWord(v);
  }

  lemma SameNext(v: Word, v0: Word, k: nat)
    requires k <= WORD && v[..k] == v0[..k]
    ensures NextCursor(v, k) == NextCursor(v0, k)
  {
  }

  lemma MaskedIndex(v: Word, k: nat)
    requires k <= WORD
    ensures Val(And(v, Mask(k))) == Index(v, k) == Val(v[..k])
  {
    MaskedVal(v, k);
  }

  lemma UsedTable<K(!new), V>(hash: K -> Word, s: State<K, V>)
    requires Ok(hash, s) && s.ht0.used + s.ht1.used != 0
    ensures s.ht0.chains != []
  {
  }

  /** The entries of every expansion below x are in the output. */
  ghost predicate SeenUpTo<K, V>(t1: Table<K, V>, v0: Word, k0: nat, out: seq<Entry<K, V>>, x: nat)
    requires k0 <= t1.bits <= WORD
  {
    forall p :: Expansion(v0, k0, t1.bits, p) && Val(p[k0..]) < x ==>
      Val(p) < |t1.chains| && Includes(out, t1.chains[Val(p)])
  }

  ghost predicate FromExpansions<K, V>(t1: Table<K, V>, v0: Word, k0: nat, out: seq<Entry<K, V>>)
    requires k0 <= t1.bits <= WORD
  {
    forall e :: e in out ==>
      exists p :: Expansion(v0, k0, t1.bits, p) && Val(p) < |t1.chains| && e in t1.chains[Val(p)]
  }

  /** The loop over the buckets of the larger table that expand the cursor. */
  method ScanLarge<K(!new), V(!new)>(t1: Table<K, V>, v0: Word, k0: nat) returns (v: Word, out: seq<Entry<K, V>>)
    requires k0 <= t1.bits <= WORD && |t1.chains| == Pow2(t1.bits)
    ensures v[..k0] == v0[..k0]
    ensures forall p :: Expansion(v0, k0, t1.bits, p) ==> Val(p) < |t1.chains| && Includes(out, t1.chains[Val(p)])
    ensures FromExpansions(t1, v0, k0, out)
  {
    hide Val, Bump, Mask, Index, SeenUpTo, FromExpansions;
    var k1 := t1.bits;
    var m0, m1 := Mask(k0), Mask(k1);
    v, out := v0, [];
    ghost var x := Val(v0[k0..k1]);
    ValBound(v0[k0..k1]);
    NothingSeen(t1, v0, k0);
    var more := true;
    while more
      invariant v[..k0] == v0[..k0] && x >= Val(v0[k0..k1])
      invariant more ==> x == Val(v[k0..k1]) < Pow2(k1 - k0)
      invariant !more ==> x == Pow2(k1 - k0)
      invariant SeenUpTo(t1, v0, k0, out, x) && FromExpansions(t1, v0, k0, out)
      decreases Pow2(k1 - k0) - x, more
    {
      MaskedIndex(v, k1);
      EmitBucket(t1, v0, k0, v, out, x);
      out := out + t1.chains[Val(And(v, m1))];
      BumpMeaning(v, k0, k1);
      BumpCounts(v[k0..k1]);
      v := Bump(v, k0);
      AnyBetween(v, k0, k1);
      more := Val(And(v, Xor(m0, m1))) != 0;
      x := x + 1;
    }
    AllSeen(t1, v0, k0, out, x);
  }

  lemma NothingSeen<K, V>(t1: Table<K, V>, v0: Word, k0: nat)
    requires k0 <= t1.bits <= WORD
    ensures SeenUpTo(t1, v0, k0, [], Val(v0[k0..t1.bits])) && FromExpansions(t1, v0, k0, [])
  {
  }

  lemma AllSeen<K, V>(t1: Table<K, V>, v0: Word, k0: nat, out: seq<Entry<K, V>>, x: nat)
    requires k0 <= t1.bits <= WORD && SeenUpTo(t1, v0, k0, out, x) && x == Pow2(t1.bits - k0)
    ensures forall p :: Expansion(v0, k0, t1.bits, p) ==> Val(p) < |t1.chains| && Includes(out, t1.chains[Val(p)])
  {
    hide Val;
    forall p | Expansion(v0, k0, t1.bits, p) ensures Val(p[k0..]) < x {
      ValBound(p[k0..]);
    }
  }

  /** The bucket of the current cursor is the next expansion. */
  lemma EmitBucket<K(!new), V(!new)>(t1: Table<K, V>, v0: Word, k0: nat, v: Word, out: seq<Entry<K, V>>, x: nat)
    requires k0 <= t1.bits <= WORD && |t1.chains| == Pow2(t1.bits)
    requires v[..k0] == v0[..k0] && Val(v[k0..t1.bits]) == x >= Val(v0[k0..t1.bits])
    requires SeenUpTo(t1, v0, k0, out, x) && FromExpansions(t1, v0, k0, out)
    ensures Val(v[..t1.bits]) < |t1.chains|
    ensures var out' := out + t1.chains[Val(v[..t1.bits])];
      SeenUpTo(t1, v0, k0, out', x + 1) && FromExpansions(t1, v0, k0, out')
  {
    hide Val;
    var k1 := t1.bits;
    var q := v[..k1];
    ValBound(q);
    var out' := out + t1.chains[Val(q)];
    assert q[..k0] == v[..k0] && q[k0..] == v[k0..k1];
    assert Expansion(v0, k0, k1, q);
    forall p | Expansion(v0, k0, k1, p) && Val(p[k0..]) < x + 1
      ensures Val(p) < |t1.chains| && Includes(out', t1.chains[Val(p)])
    {
      if Val(p[k0..]) == x {
        ValInjective(p[k0..], q[k0..]);
        assert p == p[..k0] + p[k0..] && q == q[..k0] + q[k0..];
      }
    }
    forall e | e in out'
      ensures exists p :: Expansion(v0, k0, k1, p) && Val(p) < |t1.chains| && e in t1.chains[Val(p)]
    {
      if e !in out {
        assert e in t1.chains[Val(q)];
      }
    }
  }

  lemma BumpCounts(s: Bits)
    ensures Val(Inc(s)) == 0 <==> Val(s) + 1 == Pow2(|s|)
    ensures Val(Inc(s)) != 0 ==> Val(Inc(s)) == Val(s) + 1 && Val(s) + 1 < Pow2(|s|)
  {
    ValBound(s);
    ValBound(Inc(s));
    if exists i :: 0 <= i < |s| && !s[i] {
      IncAddsOne(s);
    } else {
      IncWraps(s);
      OnesVal(s);
    }
  }

  lemma {:induction false} OnesVal(s: Bits)
    requires forall i :: 0 <= i < |s| ==> s[i]
    ensures Val(s) + 1 == Pow2(|s|)
  {
    if s != [] {
      OnesVal(s[1..]);
    }
  }

  /** The loop's condition looks at the bits that only the larger mask covers. */
  lemma AnyBetween(v: Word, k0: nat, k1: nat)
    requires k0 <= k1 <= WORD
    ensures Val(And(v, Xor(Mask(k0), Mask(k1)))) == 0 <==> Val(v[k0..k1]) == 0
  {
    var w := And(v, Xor(Mask(k0), Mask(k1)));
    assert forall i :: 0 <= i < WORD ==> w[i] == (v[i] && k0 <= i < k1);
    assert forall i :: 0 <= i < k1 - k0 ==> v[k0..k1][i] == v[k0 + i];
    if Val(v[k0..k1]) == 0 {
      forall i | 0 <= i < WORD ensures !w[i] {
        if k0 <= i < k1 {
          assert !v[k0..k1][i - k0];
        }
      }
    }
    if Val(w) == 0 {
      forall i | 0 <= i < k1 - k0 ensures !v[k0..k1][i] {
        assert !w[k0 + i];
      }
    }
  }

  // ---- which calls may skip unvisited buckets ---------------------------------------------

  /** Ones come before zeros, from the low end: a number one below a power of two. */
  ghost predicate OnesFirst(s: Bits) {
    forall i, j :: 0 <= i < j < |s| && s[j] ==> s[i]
  }

  lemma OnesFirstTail(s: Bits)
    requires s != []
    ensures OnesFirst(s) <==> OnesFirst(s[1..]) && (s[0] || Val(s) == 0)
  {
    if OnesFirst(s[1..]) && (s[0] || Val(s) == 0) {
      forall i, j | 0 <= i < j < |s| && s[j] ensures s[i] {
        assert s[1..][j - 1];
        assert i > 0 ==> s[1..][i - 1];
      }
    }
    if OnesFirst(s) {
      forall i, j | 0 <= i < j < |s[1..]| && s[1..][j] ensures s[1..][i] {
        assert s[j + 1];
      }
    }
  }

  /** What is numerically below such a number also precedes it in the cursor's order. */
  lemma {:induction false} BelowPrecedes(x: Bits, y: Bits)
    requires |x| == |y| && OnesFirst(x) && Val(y) < Val(x)
    ensures Lex(y, x)
  {
    OnesFirstTail(x);
    if y[0] {
      BelowPrecedes(x[1..], y[1..]);
    }
  }

  /** Any other number has one numerically below it that comes after it in the cursor's order. */
  lemma {:induction false} BelowFollows(x: Bits) returns (y: Bits)
    requires !OnesFirst(x)
    ensures |y| == |x| && Val(y) < Val(x) && Lex(x, y)
  {
    if x == [] {
      assert false;
    }
    OnesFirstTail(x);
    if x[0] {
      var t := BelowFollows(x[1..]);
      y := [true] + t;
      assert y[1..] == t;
    } else {
      y := [true] + Fill(|x| - 1, false);
      assert y[1..] == Fill(|x| - 1, false);
      assert Val(y[1..]) == 0;
      NotOneOnly(x);
    }
  }

  lemma NotOneOnly(x: Bits)
    requires x != [] && !x[0] && !OnesFirst(x)
    ensures Val(x) >= 2
  {
    OnesFirstTail(x);
    if Val(x[1..]) == 0 {
      assert OnesFirst(x[1..]);
    }
  }

  /**
   * A call in the middle of a rehash looks into every bucket of the larger table that the scan has
   * not been through yet exactly when the cursor's bits between the two masks are ones first.
   */
  ghost predicate Complete(v: Word, k0: nat, k1: nat)
    requires k0 <= k1 <= WORD
  {
    forall p :: |p| == k1 && p[..k0] == v[..k0] && !Lex(p, v[..k1]) ==> Expansion(v, k0, k1, p)
  }

  lemma CompleteExactly(v: Word, k0: nat, k1: nat)
    requires k0 <= k1 <= WORD
    ensures Complete(v, k0, k1) <==> OnesFirst(v[k0..k1])
  {
    var x := v[k0..k1];
    assert v[..k1][..k0] == v[..k0] && v[..k1][k0..] == x;
    if OnesFirst(x) {
      forall p | |p| == k1 && p[..k0] == v[..k0] && !Lex(p, v[..k1]) ensures Expansion(v, k0, k1, p) {
        LexSplit(p, v[..k1], k0);
        if Val(p[k0..]) < Val(x) {
          BelowPrecedes(x, p[k0..]);
        }
      }
    } else {
      var y := BelowFollows(x);
      var p := v[..k0] + y;
      assert p[..k0] == v[..k0] && p[k0..] == y;
      LexSplit(p, v[..k1], k0);
      LexAsymmetric(x, y);
      LexIrreflexive(v[..k0]);
      assert !Expansion(v, k0, k1, p);
    }
  }

  lemma {:induction false} LexAsymmetric(a: Bits, b: Bits)
    requires |a| == |b| && Lex(a, b)
    ensures !Lex(b, a)
  {
    if a[0] == b[0] {
      LexAsymmetric(a[1..], b[1..]);
    }
  }

  lemma {:induction false} LexIrreflexive(a: Bits)
    ensures !Lex(a, a)
  {
    if a != [] {
      LexIrreflexive(a[1..]);
    }
  }

  /** The call may be made on this state with this cursor. */
  ghost predicate Safe<K(!new), V>(hash: K -> Word, s: State<K, V>, v: Word)
    requires Ok(hash, s)
  {
    s.rehashidx != -1 ==> Small(s).bits <= Large(s).bits <= WORD && OnesFirst(v[Small(s).bits..Large(s).bits])
  }

  /** A cursor below the size of the smaller table, or tables a factor of two apart, are safe. */
  lemma SafeWhen<K(!new), V>(hash: K -> Word, s: State<K, V>, v: Word)
    requires Ok(hash, s) && s.ht0.chains != []
    requires (forall i :: Small(s).bits <= i < WORD ==> !v[i])
          || (s.rehashidx != -1 ==> Large(s).bits <= Small(s).bits + 1)
    ensures Safe(hash, s, v)
  {
    hide Get, Index;
    Shapes(hash, s);
  }

  // ---- whole scans ------------------------------------------------------------------------

  ghost predicate Emitted<K, V>(out: seq<Entry<K, V>>, k: K) {
    exists i :: 0 <= i < |out| && out[i].key == k
  }

  /** A key that is present is emitted by the call, or precedes the cursor, or lies ahead of the next one. */
  lemma CallCovers<K(!new), V>(hash: K -> Word, s: State<K, V>, v: Word, v': Word, out: seq<Entry<K, V>>, k: K)
    requires Ok(hash, s) && s.ht0.chains != [] && Scanned(hash, s, v, v', out) && Safe(hash, s, v)
    requires Lookup(hash, s, k).Some? && hash(k)[..Small(s).bits] == v[..Small(s).bits]
    ensures Emitted(out, k) || Lex(hash(k), v)
  {
    hide Index, Val, NextCursor, Lex;
    Shapes(hash, s);
    var t0, t1 := Small(s), Large(s);
    var h := hash(k);
    if Get(hash, t0, k).Some? {
      SameBucket(h, v, t0.bits);
      FoundIn(hash, t0, k, out);
    } else {
      var k0, k1 := t0.bits, t1.bits;
      var p := h[..k1];
      assert p[..k0] == v[..k0];
      CompleteExactly(v, k0, k1);
      if Lex(p, v[..k1]) {
        LexSplit(h, v, k1);
      } else {
        assert Expansion(v, k0, k1, p);
        SameBucket(h, h, k1);
        FoundIn(hash, t1, k, out);
      }
    }
  }

  lemma SameBucket(h: Word, v: Word, k: nat)
    requires k <= WORD && h[..k] == v[..k]
    ensures Index(h, k) == Index(v, k) == Val(h[..k])
  {
  }

  lemma FoundIn<K(!new), V>(hash: K -> Word, t: Table<K, V>, k: K, out: seq<Entry<K, V>>)
    requires TableOk(hash, t) && Get(hash, t, k).Some? && Includes(out, ChainOf(hash, t, k))
    ensures Emitted(out, k)
  {
    hide Index;
    var chain := ChainOf(hash, t, k);
    var i :| 0 <= i < |chain| && chain[i].key == k;
    assert chain[i] in out;
    var j :| 0 <= j < |out| && out[j] == chain[i];
  }

  /** What precedes the next cursor preceded this one or is in its class. */
  lemma NextPrecedes(h: Word, v: Word, k: nat)
    requires k <= WORD && Lex(h, NextCursor(v, k))
    ensures h[..k] == v[..k] || Lex(h, v)
  {
    hide RevInc, Lex;
    var p, q, n := v[..k], h[..k], NextCursor(v, k);
    LexSplit(h, n, k);
    LexSplit(h, v, k);
    assert n[..k] == RevInc(p) && n[k..] == Fill(WORD - k, false);
    LexZero(h[k..], n[k..]);
    if exists i :: 0 <= i < |p| && !p[i] {
      RevIncIsNext(p, q);
    } else {
      LexOnes(q, p);
    }
  }

  /** When the cursor returns to zero, everything precedes the last cursor or is in its class. */
  lemma LastPrecedes(h: Word, v: Word, k: nat)
    requires k <= WORD && NextCursor(v, k) == Fill(WORD, false)
    ensures h[..k] == v[..k] || Lex(h, v)
  {
    hide RevInc, Lex;
    var p := v[..k];
    var n := NextCursor(v, k);
    assert forall i :: 0 <= i < k ==> n[i] == RevInc(p)[i];
    if exists i :: 0 <= i < |p| && !p[i] {
      RevIncNonzero(p);
    }
    LexOnes(h[..k], p);
    LexSplit(h, v, k);
  }

  /** A scan: a call on each of these states, whatever happened to the dictionary in between. */
  ghost predicate IsScan<K(!new), V>(
      hash: K -> Word, states: seq<State<K, V>>, cursors: seq<Word>, outs: seq<seq<Entry<K, V>>>)
  {
    && |cursors| == |states| + 1 && |outs| == |states| > 0
    && cursors[0] == Fill(WORD, false) && cursors[|states|] == Fill(WORD, false)
    && forall i :: 0 <= i < |states| ==>
         && Ok(hash, states[i])
         && states[i].ht0.chains != []
         && Scanned(hash, states[i], cursors[i], cursors[i + 1], outs[i])
  }

  ghost predicate EmittedBefore<K, V>(outs: seq<seq<Entry<K, V>>>, n: nat, k: K)
    requires n <= |outs|
  {
    exists i :: 0 <= i < n && Emitted(outs[i], k)
  }

  lemma {:induction false} PrecedingEmitted<K(!new), V>(
      hash: K -> Word, states: seq<State<K, V>>, cursors: seq<Word>, outs: seq<seq<Entry<K, V>>>, n: nat, k: K)
    requires IsScan(hash, states, cursors, outs) && n <= |states|
    requires forall i :: 0 <= i < |states| ==> Safe(hash, states[i], cursors[i]) && Lookup(hash, states[i], k).Some?
    requires Lex(hash(k), cursors[n])
    ensures EmittedBefore(outs, n, k)
    decreases n
  {
    hide Lex, Scanned, Safe, Lookup, Ok, Emitted;
    if n == 0 {
      LexZero(hash(k), cursors[0]);
    } else {
      var s, v := states[n - 1], cursors[n - 1];
      Shapes(hash, s);
      ScannedNext(hash, s, v, cursors[n], outs[n - 1]);
      NextPrecedes(hash(k), v, Small(s).bits);
      if Lex(hash(k), v) {
        PrecedingEmitted(hash, states, cursors, outs, n - 1, k);
      } else {
        CallCovers(hash, s, v, cursors[n], outs[n - 1], k);
      }
    }
  }

  lemma ScannedNext<K(!new), V>(hash: K -> Word, s: State<K, V>, v: Word, v': Word, out: seq<Entry<K, V>>)
    requires Ok(hash, s) && s.ht0.chains != [] && Scanned(hash, s, v, v', out)
    ensures Small(s).bits <= WORD && v' == NextCursor(v, Small(s).bits)
  {
    hide Index, Get;
    Shapes(hash, s);
  }

  /**
   * A scan from cursor 0 back to cursor 0 emits every key that is present at each of its calls, if
   * each call made in the middle of a rehash is safe.
   */
  lemma {:induction false} ScanCoversEverything<K(!new), V>(
      hash: K -> Word, states: seq<State<K, V>>, cursors: seq<Word>, outs: seq<seq<Entry<K, V>>>, k: K)
    requires IsScan(hash, states, cursors, outs)
    requires forall i :: 0 <= i < |states| ==> Safe(hash, states[i], cursors[i]) && Lookup(hash, states[i], k).Some?
    ensures EmittedBefore(outs, |states|, k)
  {
    hide Lex, Scanned, Safe, Lookup, Ok, Emitted;
    var n := |states|;
    var s, v := states[n - 1], cursors[n - 1];
    Shapes(hash, s);
    ScannedNext(hash, s, v, cursors[n], outs[n - 1]);
    LastPrecedes(hash(k), v, Small(s).bits);
    if Lex(hash(k), v) {
      PrecedingEmitted(hash, states, cursors, outs, n - 1, k);
    } else {
      CallCovers(hash, s, v, cursors[n], outs[n - 1], k);
    }
  }

  /** When the smaller table never gets smaller from one call to the next, every call is safe. */
  lemma {:induction false} GrowingTablesAreSafe<K(!new), V>(
      hash: K -> Word, states: seq<State<K, V>>, cursors: seq<Word>, outs: seq<seq<Entry<K, V>>>, n: nat)
    requires IsScan(hash, states, cursors, outs) && n < |states|
    requires forall i :: 0 < i < |states| ==> Small(states[i - 1]).bits <= Small(states[i]).bits
    ensures Safe(hash, states[n], cursors[n])
  {
    hide Scanned, Safe, Ok, RevInc;
    if n > 0 {
      ScannedNext(hash, states[n - 1], cursors[n - 1], cursors[n], outs[n - 1]);
      var k := Small(states[n - 1]).bits;
      assert forall i :: k <= i < WORD ==> !cursors[n][i];
    }
    SafeWhen(hash, states[n], cursors[n]);
  }
}
