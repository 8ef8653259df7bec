/** A scan that misses a key: the table shrinks under it and the cursor's high bits are not ones first. */
module ScanMisses {
  import opened Prelude
  import opened Words
  import opened DictTable
  import opened Dict
  import opened DictScan

  const F := false
  const T := true

  /** A cursor or hash below 32. */
  function Cursor(p: Bits): (w: Word)
    requires |p| == 5
    ensures w[..5] == p && w[..2] == p[..2] && w[2..5] == p[2..]
  {
    p + Fill(WORD - 5, false)
  }

  /** Every key hashes to 4. */
  function Four(k: nat): Word {
    Cursor([F, F, T, F, F])
  }

  const E := Entry(0, 0)
  const THIRTY_TWO: Table<nat, nat> := Fresh(5)
  const OLD: Table<nat, nat> := Table(5, seq(32, b => if b == 4 then [E] else []), 1)
  const BEFORE := State(OLD, NoTable(), -1)
  /** After `dictExpand` to four buckets, before any bucket has moved. */
  const DURING := State(OLD, Fresh(2), 0)

  lemma FiveBits(p: Bits)
    requires |p| == 5
    ensures Val(p) == Val(p[..2]) + 4 * Val(p[2..])
    ensures Val(p[..2]) == (if p[0] then 1 else 0) + (if p[1] then 2 else 0)
    ensures Val(p[2..]) == (if p[2] then 1 else 0) + (if p[3] then 2 else 0) + (if p[4] then 4 else 0)
  {
    var a, b, c := p[1..], p[2..], p[3..];
    assert a[1..] == b && b[1..] == c && c[1..] == [p[4]] && [p[4]][1..] == [];
    assert p[..2][1..] == [p[1]] && [p[1]][1..] == [];
  }

  lemma Pow2OfFive()
    ensures Pow2(5) == 32 && Pow2(2) == 4
  {
    assert Pow2(3) == 8 && Pow2(4) == 16;
  }

  lemma OldOk()
    ensures TableOk(Four, OLD) && Get(Four, OLD, 0) == Some(0)
  {
    hide TableOk, Get;
    Pow2OfFive();
    FiveBits([F, F, T, F, F]);
    FreshOk<nat, nat>(Four, 5);
    PushOk(Four, THIRTY_TWO, E);
    assert THIRTY_TWO.chains[4] == [] && [E] + [] == [E];
    assert OLD.chains == WithChain(THIRTY_TWO, 4, [E]).chains;
  }

  lemma TablesOk()
    ensures Ok(Four, BEFORE) && Ok(Four, DURING)
    ensures Lookup(Four, BEFORE, 0) == Some(0) && Lookup(Four, DURING, 0) == Some(0)
  {
    hide Index;
    OldOk();
    SecondTable(Four, BEFORE, 2);
  }

  lemma RevIncOf(p: Bits, b: bool, q: Bits)
    requires q == p + [b]
    ensures RevInc(q) == if b then RevInc(p) + [F] else p + [T]
  {
    RevIncSnoc(p, b);
  }

  /** The cursors of the scan: 0, 16, 8, and then 2, 1, 3 and 0 of the smaller table. */
  lemma Cursors()
    ensures NextCursor(Cursor([F, F, F, F, F]), 5) == Cursor([F, F, F, F, T])
    ensures NextCursor(Cursor([F, F, F, F, T]), 5) == Cursor([F, F, F, T, F])
    ensures NextCursor(Cursor([F, F, F, T, F]), 2) == Cursor([F, T, F, F, F])
    ensures NextCursor(Cursor([F, T, F, F, F]), 2) == Cursor([T, F, F, F, F])
    ensures NextCursor(Cursor([T, F, F, F, F]), 2) == Cursor([T, T, F, F, F])
    ensures NextCursor(Cursor([T, T, F, F, F]), 2) == Cursor([F, F, F, F, F])
  {
    hide RevInc;
    RevIncOf([F, F, F, F], F, [F, F, F, F, F]);
    RevIncOf([F, F, F], F, [F, F, F, F]);
    RevIncOf([F, F, F, F], T, [F, F, F, F, T]);
    RevIncOf([F], F, [F, F]);
    RevIncOf([], F, [F]);
    RevIncOf([F], T, [F, T]);
    RevIncOf([T], F, [T, F]);
    RevIncOf([T], T, [T, T]);
    RevIncOf([], T, [T]);
    NoBits();
    Padded([F, F, F, T, F], [F, F], [F, T]);
    Padded([F, T, F, F, F], [F, T], [T, F]);
    Padded([T, F, F, F, F], [T, F], [T, T]);
    Padded([T, T, F, F, F], [T, T], [F, F]);
  }

  lemma NoBits()
    ensures RevInc([]) == []
  {
  }

  lemma Padded(p: Bits, r: Bits, q: Bits)
    requires |p| == 5 && |q| == 2 && p[..2] == r && RevInc(r) == q
    ensures NextCursor(Cursor(p), 2) == Cursor(q + [F, F, F])
  {
    assert q + Fill(WORD - 2, false) == q + [F, F, F] + Fill(WORD - 5, false);
  }

  /** Before the table shrinks, a call with bit 2 of its cursor clear finds nothing. */
  lemma ScannedBefore(p: Bits, v': Word)
    requires Ok(Four, BEFORE) && |p| == 5 && !p[2] && v' == NextCursor(Cursor(p), 5)
    ensures Scanned(Four, BEFORE, Cursor(p), v', []) && OnlyThose(Four, BEFORE, Cursor(p), [])
  {
    FiveBits(p);
  }

  /** Afterwards a call finds nothing unless it expands to bucket 4. */
  lemma ScannedDuring(p: Bits, v': Word)
    requires Ok(Four, DURING) && |p| == 5 && v' == NextCursor(Cursor(p), 2)
    requires p[0] || p[1] || Val(p[2..]) >= 2
    ensures Scanned(Four, DURING, Cursor(p), v', []) && OnlyThose(Four, DURING, Cursor(p), [])
  {
    Pow2OfFive();
    forall q | Expansion(Cursor(p), 2, 5, q) ensures Val(q) < 32 && OLD.chains[Val(q)] == [] {
      ValBound(q);
      FiveBits(q);
      FiveBits(p);
      assert q[..2][0] == q[0] && q[..2][1] == q[1] && p[..2][0] == p[0] && p[..2][1] == p[1];
    }
  }

  /**
    Two calls on 32 buckets return cursor 8; the table is then resized to 4. From cursor 8 the loop over the larger table
    starts past bucket 4, which no later call looks into: the key there, present throughout, is never emitted.
   */
  lemma ScanCanMiss() returns (states: seq<State<nat, nat>>, cursors: seq<Word>, outs: seq<seq<Entry<nat, nat>>>)
    ensures IsScan(Four, states, cursors, outs)
    ensures forall i :: 0 <= i < |states| ==>
              OnlyThose(Four, states[i], cursors[i], outs[i]) && Lookup(Four, states[i], 0).Some?
    ensures !EmittedBefore(outs, |states|, 0)
  {
    hide Scanned, OnlyThose, Ok, Lookup, NextCursor;
    TablesOk();
    Cursors();
    var c := [[F, F, F, F, F], [F, F, F, F, T], [F, F, F, T, F], [F, T, F, F, F], [T, F, F, F, F], [T, T, F, F, F]];
    FiveBits(c[2]);
    ScannedBefore(c[0], Cursor(c[1]));
    ScannedBefore(c[1], Cursor(c[2]));
    ScannedDuring(c[2], Cursor(c[3]));
    ScannedDuring(c[3], Cursor(c[4]));
    ScannedDuring(c[4], Cursor(c[5]));
    ScannedDuring(c[5], Cursor(c[0]));
    states := [BEFORE, BEFORE, DURING, DURING, DURING, DURING];
    cursors := [Cursor(c[0]), Cursor(c[1]), Cursor(c[2]), Cursor(c[3]), Cursor(c[4]), Cursor(c[5]), Cursor(c[0])];
    outs := [[], [], [], [], [], []];
    assert Cursor(c[0]) == Fill(WORD, false);
  }
}
