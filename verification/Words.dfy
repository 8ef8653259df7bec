/** Machine words as sequences of bits, least significant first, and the order `dictScan` walks in. */
module Words {

  type Bits = seq<bool>

  const WORD: nat := 64

  function Val(s: Bits): (v: nat)
    ensures v == 0 <==> forall i :: 0 <= i < |s| ==> !s[i]
  {
    if s == [] then 0 else
      assert forall i :: 0 <= i < |s| ==> s[i] == if i == 0 then s[0] else s[1..][i - 1];
      (if s[0] then 1 else 0) + 2 * Val(s[1..])
  }

  function Pow2(n: nat): (p: nat)
    ensures p >= 1
  {
    if n == 0 then 1 else 2 * Pow2(n - 1)
  }

  lemma {:induction false} ValBound(s: Bits)
    ensures Val(s) < Pow2(|s|)
  {
    if s != [] {
      ValBound(s[1..]);
    }
  }

  /** Bits of one length are equal when their values are. */
  lemma {:induction false} ValInjective(s: Bits, t: Bits)
    requires |s| == |t| && Val(s) == Val(t)
    ensures s == t
  {
    if s != [] {
      ValInjective(s[1..], t[1..]);
      assert s == [s[0]] + s[1..] && t == [t[0]] + t[1..];
    }
  }

  function Fill(n: nat, b: bool): (r: Bits)
    ensures |r| == n && forall i :: 0 <= i < n ==> r[i] == b
  {
    seq(n, i => b)
  }

  /** Adding one, with the carry running towards the high end and out of it. */
  function Inc(s: Bits): (r: Bits)
    ensures |r| == |s|
  {
    if s == [] then [] else if !s[0] then [true] + s[1..] else [false] + Inc(s[1..])
  }

  lemma {:induction false} IncOverOnes(n: nat, t: Bits)
    ensures Inc(Fill(n, true) + t) == Fill(n, false) + Inc(t)
  {
    if n == 0 {
      assert Fill(0, true) + t == t && Fill(0, false) + Inc(t) == Inc(t);
    } else {
      var s := Fill(n, true) + t;
      assert s[1..] == Fill(n - 1, true) + t;
      IncOverOnes(n - 1, t);
      assert Inc(s) == [false] + Inc(s[1..]);
      assert [false] + Fill(n - 1, false) == Fill(n, false);
    }
  }

  lemma {:induction false} IncAddsOne(s: Bits)
    requires exists i :: 0 <= i < |s| && !s[i]
    ensures Val(Inc(s)) == Val(s) + 1
  {
    if !s[0] {
      assert ([true] + s[1..])[1..] == s[1..];
    } else {
      var i :| 0 <= i < |s| && !s[i];
      assert !s[1..][i - 1];
      IncAddsOne(s[1..]);
      assert ([false] + Inc(s[1..]))[1..] == Inc(s[1..]);
    }
  }

  /** All ones wrap around to zero. */
  lemma {:induction false} IncWraps(s: Bits)
    requires forall i :: 0 <= i < |s| ==> s[i]
    ensures Inc(s) == Fill(|s|, false)
  {
    if s != [] {
      IncWraps(s[1..]);
    }
  }

  function Reverse(s: Bits): (r: Bits)
    ensures |r| == |s|
    ensures forall i :: 0 <= i < |s| ==> r[i] == s[|s| - 1 - i]
  {
    seq(|s|, i requires 0 <= i < |s| => s[|s| - 1 - i])
  }

  // ---- the operators of C on words of one size --------------------------------------------

  function And(a: Bits, b: Bits): (r: Bits)
    requires |a| == |b|
    ensures |r| == |a| && forall i :: 0 <= i < |a| ==> r[i] == (a[i] && b[i])
  {
    seq(|a|, i requires 0 <= i < |a| => a[i] && b[i])
  }

  function Or(a: Bits, b: Bits): (r: Bits)
    requires |a| == |b|
    ensures |r| == |a| && forall i :: 0 <= i < |a| ==> r[i] == (a[i] || b[i])
  {
    seq(|a|, i requires 0 <= i < |a| => a[i] || b[i])
  }

  function Xor(a: Bits, b: Bits): (r: Bits)
    requires |a| == |b|
    ensures |r| == |a| && forall i :: 0 <= i < |a| ==> r[i] == (a[i] != b[i])
  {
    seq(|a|, i requires 0 <= i < |a| => a[i] != b[i])
  }

  function Not(a: Bits): (r: Bits)
    ensures |r| == |a| && forall i :: 0 <= i < |a| ==> r[i] == !a[i]
  {
    seq(|a|, i requires 0 <= i < |a| => !a[i])
  }

  function Shl(a: Bits, s: nat): (r: Bits)
    ensures |r| == |a| && forall i :: 0 <= i < |a| ==> r[i] == (i >= s && a[i - s])
  {
    seq(|a|, i requires 0 <= i < |a| => i >= s && a[i - s])
  }

  function Shr(a: Bits, s: nat): (r: Bits)
    ensures |r| == |a| && forall i :: 0 <= i < |a| ==> r[i] == (i + s < |a| && a[i + s])
  {
    seq(|a|, i requires 0 <= i < |a| => i + s < |a| && a[i + s])
  }

  // ---- rev --------------------------------------------------------------------------------

  /** The block sizes of the rounds of `rev`. */
  predicate BlockSize(s: nat) {
    s == 64 || s == 32 || s == 16 || s == 8 || s == 4 || s == 2 || s == 1
  }

  /** Position i with the blocks of size s in reverse order. */
  function Swapped(i: nat, s: nat): (j: nat)
    requires i < WORD && BlockSize(s)
    ensures j < WORD
  {
    if s == 64 then i
    else if s == 32 then (1 - i / 32) * 32 + i % 32
    else if s == 16 then (3 - i / 16) * 16 + i % 16
    else if s == 8 then (7 - i / 8) * 8 + i % 8
    else if s == 4 then (15 - i / 4) * 4 + i % 4
    else if s == 2 then (31 - i / 2) * 2 + i % 2
    else 63 - i
  }

  /** Position i lies in a block of even number. */
  predicate EvenBlock(i: nat, s: nat)
    requires i < WORD && BlockSize(s)
  {
    if s == 64 then true
    else if s == 32 then i / 32 % 2 == 0
    else if s == 16 then i / 16 % 2 == 0
    else if s == 8 then i / 8 % 2 == 0
    else if s == 4 then i / 4 % 2 == 0
    else if s == 2 then i / 2 % 2 == 0
    else i % 2 == 0
  }

  /** Going over to the neighbouring block of half the size. */
  function Neighbour(i: nat, s: nat): (j: int)
    requires i < WORD && BlockSize(s)
  {
    if EvenBlock(i, s) then i + s else i - s
  }

  /** What one round of `rev` does to position i, with blocks of size s. */
  ghost predicate Round(i: nat, s: nat)
    requires i < WORD && BlockSize(s) && s < 64
  {
    && 0 <= Neighbour(i, s) < WORD
    && Swapped(Neighbour(i, s), 2 * s) == Swapped(i, s)
    && (EvenBlock(i, s) <==> (EvenBlock(i, 2 * s) != (i >= s && EvenBlock(i - s, 2 * s))))
  }

  lemma Round32(i: nat)
    requires i < WORD
    ensures Round(i, 32)
  {
  }

  lemma Round16(i: nat)
    requires i < WORD
    ensures Round(i, 16)
  {
    var a, b := i / 32, i % 32;
    assert i == 32 * a + b;
    if b < 16 {
      assert i / 16 == 2 * a && i % 16 == b && (i + 16) / 32 == a && (i + 16) % 32 == b + 16;
    } else {
      assert i / 16 == 2 * a + 1 && i % 16 == b - 16 && (i - 16) / 32 == a && (i - 16) % 32 == b - 16;
    }
  }

  lemma Round8(i: nat)
    requires i < WORD
    ensures Round(i, 8)
  {
    var a, b := i / 16, i % 16;
    assert i == 16 * a + b;
    if b < 8 {
      assert i / 8 == 2 * a && i % 8 == b && (i + 8) / 16 == a && (i + 8) % 16 == b + 8;
    } else {
      assert i / 8 == 2 * a + 1 && i % 8 == b - 8 && (i - 8) / 16 == a && (i - 8) % 16 == b - 8;
    }
  }

  lemma Round4(i: nat)
    requires i < WORD
    ensures Round(i, 4)
  {
    var a, b := i / 8, i % 8;
    assert i == 8 * a + b;
    if b < 4 {
      assert i / 4 == 2 * a && i % 4 == b && (i + 4) / 8 == a && (i + 4) % 8 == b + 4;
    } else {
      assert i / 4 == 2 * a + 1 && i % 4 == b - 4 && (i - 4) / 8 == a && (i - 4) % 8 == b - 4;
    }
  }

  lemma Round2(i: nat)
    requires i < WORD
    ensures Round(i, 2)
  {
    var a, b := i / 4, i % 4;
    assert i == 4 * a + b;
    if b < 2 {
      assert i / 2 == 2 * a && i % 2 == b && (i + 2) / 4 == a && (i + 2) % 4 == b + 2;
    } else {
      assert i / 2 == 2 * a + 1 && i % 2 == b - 2 && (i - 2) / 4 == a && (i - 2) % 4 == b - 2;
    }
  }

  lemma Round1(i: nat)
    requires i < WORD
    ensures Round(i, 1)
  {
  }

  /** Each round exchanges neighbouring blocks of half the size and halves the mask's blocks. */
  lemma EveryRound(i: nat, s: nat)
    requires i < WORD && BlockSize(s) && s < 64
    ensures Round(i, s)
  {
    hide Round;
    match s
    case 32 => Round32(i);
    case 16 => Round16(i);
    case 8 => Round8(i);
    case 4 => Round4(i);
    case 2 => Round2(i);
    case 1 => Round1(i);
  }

  /** `rev`: swaps halves, then quarters, down to single bits. */
  method RevWord(v0: Bits) returns (v: Bits)
    requires |v0| == WORD
    ensures v == Reverse(v0)
  {
    v := v0;
    var s := WORD;
    var mask := Fill(WORD, true);
    while s > 1
      invariant BlockSize(s) && |mask| == |v| == WORD
      invariant forall i :: 0 <= i < WORD ==> mask[i] == EvenBlock(i, s)
      invariant forall i :: 0 <= i < WORD ==> v[i] == v0[Swapped(i, s)]
      decreases s
    {
      s := s / 2;
      mask, v := RevRound(v0, v, mask, s);
    }
    assert v == Reverse(v0);
  }

  /** One turn of the loop. */
  method RevRound(v0: Bits, v: Bits, mask: Bits, s: nat) returns (mask': Bits, v': Bits)
    requires |v0| == |v| == |mask| == WORD && BlockSize(s) && s < 64
    requires forall i :: 0 <= i < WORD ==> mask[i] == EvenBlock(i, 2 * s)
    requires forall i :: 0 <= i < WORD ==> v[i] == v0[Swapped(i, 2 * s)]
    ensures |mask'| == |v'| == WORD
    ensures forall i :: 0 <= i < WORD ==> mask'[i] == EvenBlock(i, s)
    ensures forall i :: 0 <= i < WORD ==> v'[i] == v0[Swapped(i, s)]
  {
    hide Swapped, EvenBlock;
    mask' := Xor(mask, Shl(mask, s));
    forall i | 0 <= i < WORD ensures mask'[i] == EvenBlock(i, s) {
      EveryRound(i, s);
    }
    v' := Or(And(Shr(v, s), mask'), And(Shl(v, s), Not(mask')));
    forall i | 0 <= i < WORD ensures v'[i] == v0[Swapped(i, s)] {
      EveryRound(i, s);
    }
  }
}
