/** src/ziplist.c: the packed list as a sequence, through insertion, deletion and the cascade. */
module Ziplist {
  import opened Prelude
  import opened Decimal
  import opened ZipCodec

  const HEADER_SIZE: nat := 10
  const UINT16_MAX: nat := 65535

  // ---- lists of entries -------------------------------------------------------------------

  /** An entry that fits even with the long form of its first field. */
  predicate Fits(n: Node) {
    NodeOk(n) && |Body(n.item)| + 5 <= UINT32_MAX
  }

  predicate AllFit(nodes: seq<Node>) {
    forall i :: 0 <= i < |nodes| ==> Fits(nodes[i])
  }

  function Ser(nodes: seq<Node>): seq<byte>
    requires AllFit(nodes)
  {
    if nodes == [] then [] else Ser(nodes[..|nodes| - 1]) + Enc(nodes[|nodes| - 1])
  }

  /** Every entry records the length of the one before it. */
  ghost predicate Linked(nodes: seq<Node>, first: nat)
    requires AllFit(nodes)
  {
    && (nodes != [] ==> nodes[0].prev == first)
    && forall i :: 0 < i < |nodes| ==> nodes[i].prev == Raw(nodes[i - 1])
  }

  function Texts(nodes: seq<Node>): (r: seq<seq<byte>>)
    ensures |r| == |nodes| && forall i :: 0 <= i < |nodes| ==> r[i] == Text(nodes[i].item)
  {
    seq(|nodes|, i requires 0 <= i < |nodes| => Text(nodes[i].item))
  }

  lemma {:induction false} SerConcat(a: seq<Node>, b: seq<Node>)
    requires AllFit(a) && AllFit(b)
    ensures AllFit(a + b) && Ser(a + b) == Ser(a) + Ser(b)
    decreases |b|
  {
    hide Enc, Fits;
    if b == [] {
      assert a + b == a;
    } else {
      var n := |b| - 1;
      SerConcat(a, b[..n]);
      assert (a + b)[..|a| + n] == a + b[..n] && (a + b)[|a| + n] == b[n];
    }
  }

  lemma SerOne(n: Node)
    requires Fits(n)
    ensures Ser([n]) == Enc(n)
  {
    hide Enc;
    assert [n][..0] == [];
  }

  /** The bytes of a list around entry i. */
  lemma SerAround(nodes: seq<Node>, i: nat)
    requires AllFit(nodes) && i < |nodes|
    ensures Ser(nodes) == Ser(nodes[..i]) + (Enc(nodes[i]) + Ser(nodes[i + 1..]))
  {
    hide Enc, Ser, Fits;
    SerConcat(nodes[..i], nodes[i..]);
    assert nodes == nodes[..i] + nodes[i..];
    SerConcat([nodes[i]], nodes[i + 1..]);
    assert nodes[i..] == [nodes[i]] + nodes[i + 1..];
    SerOne(nodes[i]);
  }

  // ---- the cascade on entries -------------------------------------------------------------

  /** The entry with another recorded length, in the long form of the field or the form it has. */
  function Relinked(n: Node, raw: nat, big: bool): (r: Node)
    requires Fits(n) && raw <= UINT32_MAX && (big || raw < ZIP_BIGLEN)
    ensures Fits(r) && r.item == n.item && r.prev == raw && r.big == big
  {
    n.(prev := raw, big := big)
  }

  /** `__ziplistCascadeUpdate` from entry i, whose length has changed. */
  function CascadeFrom(nodes: seq<Node>, i: nat): (r: seq<Node>)
    requires AllFit(nodes) && i < |nodes|
    ensures |r| == |nodes| && AllFit(r)
    decreases |nodes| - i
  {
    if i + 1 == |nodes| then nodes
    else
      assert Fits(nodes[i]) && Fits(nodes[i + 1]);
      var raw, next := Raw(nodes[i]), nodes[i + 1];
      if next.prev == raw then nodes
      else if !next.big && raw >= ZIP_BIGLEN then
        CascadeFrom(nodes[i + 1 := Relinked(next, raw, true)], i + 1)
      else nodes[i + 1 := Relinked(next, raw, next.big)]
  }

  /** It changes no payload, and nothing up to the entry it starts from. */
  lemma {:induction false} CascadeKeeps(nodes: seq<Node>, i: nat)
    requires AllFit(nodes) && i < |nodes|
    ensures CascadeFrom(nodes, i)[..i + 1] == nodes[..i + 1]
    ensures forall j :: 0 <= j < |nodes| ==> CascadeFrom(nodes, i)[j].item == nodes[j].item
    decreases |nodes| - i
  {
    hide Body, Enc;
    if i + 1 < |nodes| {
      var raw, next := Raw(nodes[i]), nodes[i + 1];
      if next.prev != raw && !next.big && raw >= ZIP_BIGLEN {
        var grown := nodes[i + 1 := Relinked(next, raw, true)];
        CascadeKeeps(grown, i + 1);
        assert grown[..i + 1] == nodes[..i + 1];
        assert CascadeFrom(grown, i + 1)[..i + 1] == CascadeFrom(grown, i + 1)[..i + 2][..i + 1];
      }
    }
  }

  /**
    It goes no further than it must: no field is made longer that has room for the new length, and behind an entry that
    stays as it was nothing changes.
   */
  lemma {:induction false} CascadeStops(nodes: seq<Node>, i: nat, j: nat)
    requires AllFit(nodes) && i + 1 < j < |nodes|
    requires forall x :: i + 1 < x < |nodes| ==> nodes[x].prev == Raw(nodes[x - 1])
    ensures var r := CascadeFrom(nodes, i);
      && (r[j].big <==> nodes[j].big || (r[j] != nodes[j] && r[j].prev >= ZIP_BIGLEN))
      && (Raw(r[j - 1]) == Raw(nodes[j - 1]) ==> r[j] == nodes[j])
    decreases |nodes| - i
  {
    hide Body, Enc;
    var raw, next := Raw(nodes[i]), nodes[i + 1];
    if next.prev != raw && !next.big && raw >= ZIP_BIGLEN {
      var grown := nodes[i + 1 := Relinked(next, raw, true)];
      if i + 2 < j {
        CascadeStops(grown, i + 1, j);
      } else {
        CascadeKeeps(grown, i + 1);
        assert CascadeFrom(grown, i + 1)[..i + 2][i + 1] == grown[i + 1];
        CascadeNext(grown, i + 1);
      }
    }
  }

  /** What becomes of the entry right behind the one it starts from. */
  lemma CascadeNext(nodes: seq<Node>, i: nat)
    requires AllFit(nodes) && i + 1 < |nodes|
    ensures var raw, next, r := Raw(nodes[i]), nodes[i + 1], CascadeFrom(nodes, i)[i + 1];
      && r.item == next.item && r.prev == raw
      && (r.big <==> next.big || raw >= ZIP_BIGLEN)
      && (next.prev == raw ==> r == next)
  {
    hide Body, Enc;
    var raw, next := Raw(nodes[i]), nodes[i + 1];
    if next.prev != raw && !next.big && raw >= ZIP_BIGLEN {
      var grown := nodes[i + 1 := Relinked(next, raw, true)];
      CascadeKeeps(grown, i + 1);
      assert CascadeFrom(grown, i + 1)[..i + 2][i + 1] == grown[i + 1];
    }
  }

  /** However far it runs, the cascade mends the links after the entry it starts from. */
  lemma {:induction false} CascadeLinks(nodes: seq<Node>, i: nat)
    requires AllFit(nodes) && i < |nodes|
    requires forall j :: 0 < j < |nodes| && j != i + 1 ==> nodes[j].prev == Raw(nodes[j - 1])
    ensures forall j :: 0 < j < |nodes| ==> CascadeFrom(nodes, i)[j].prev == Raw(CascadeFrom(nodes, i)[j - 1])
    decreases |nodes| - i
  {
    hide Body, Enc;
    if i + 1 < |nodes| {
      var raw, next := Raw(nodes[i]), nodes[i + 1];
      if next.prev != raw && !next.big && raw >= ZIP_BIGLEN {
        CascadeLinks(nodes[i + 1 := Relinked(next, raw, true)], i + 1);
      }
    }
  }

  /** The entries from k up to e gone: the next one takes over their first length, and the cascade mends the rest. */
  ghost function Closed(nodes: seq<Node>, k: nat, e: nat): seq<Node>
    requires AllFit(nodes) && k < e < |nodes|
  {
    assert Fits(nodes[k]) && Fits(nodes[e]);
    var prev := nodes[k].prev;
    nodes[..k] + CascadeFrom([Relinked(nodes[e], prev, prev >= ZIP_BIGLEN)] + nodes[e + 1..], 0)
  }

  // ---- editing a buffer -------------------------------------------------------------------

  /** `ziplistResize`: the new bytes are arbitrary but for the end mark. */
  function Resize(buf: seq<byte>, len: nat): (r: seq<byte>)
    requires len > 0
    ensures |r| == len && r[len - 1] == ZIP_END
    ensures forall i :: 0 <= i < |buf| && i < len - 1 ==> r[i] == buf[i]
  {
    (if len - 1 <= |buf| then buf[..len - 1] else buf + seq(len - 1 - |buf|, i => 0)) + [ZIP_END]
  }

  function MemMove(buf: seq<byte>, dst: nat, src: nat, n: nat): (r: seq<byte>)
    requires dst + n <= |buf| && src + n <= |buf|
    ensures |r| == |buf|
  {
    buf[..dst] + buf[src..src + n] + buf[dst + n..]
  }

  function Overwrite(buf: seq<byte>, p: nat, s: seq<byte>): (r: seq<byte>)
    requires p + |s| <= |buf|
    ensures |r| == |buf|
  {
    buf[..p] + s + buf[p + |s|..]
  }

  lemma MemMoveAt(buf: seq<byte>, dst: nat, src: nat, n: nat)
    requires dst + n <= |buf| && src + n <= |buf|
    ensures forall i :: dst <= i < dst + n ==> MemMove(buf, dst, src, n)[i] == buf[src + i - dst]
    ensures forall i :: 0 <= i < dst || dst + n <= i < |buf| ==> MemMove(buf, dst, src, n)[i] == buf[i]
  {
  }

  lemma OverwriteAt(buf: seq<byte>, p: nat, s: seq<byte>)
    requires p + |s| <= |buf|
    ensures forall i :: p <= i < p + |s| ==> Overwrite(buf, p, s)[i] == s[i - p]
    ensures forall i :: 0 <= i < p || p + |s| <= i < |buf| ==> Overwrite(buf, p, s)[i] == buf[i]
  {
  }

  /** The cascade's widening of the one-byte field at np. */
  function Widen(buf: seq<byte>, np: nat, field: seq<byte>): (r: seq<byte>)
    requires np + 2 <= |buf| && |field| == 5
    ensures |r| == |buf| + 4
  {
    Overwrite(MemMove(Resize(buf, |buf| + 4), np + 5, np + 1, |buf| - np - 1 - 1), np, field)
  }

  /** Widening a one-byte field in front of `rest`, as the cascade does it. */
  lemma WidenField(pre: seq<byte>, old': byte, rest: seq<byte>, field: seq<byte>)
    requires |field| == 5
    ensures var buf := pre + [old'] + rest + [ZIP_END];
      var np := |pre|;
      Widen(buf, np, field) == pre + field + rest + [ZIP_END]
  {
    var buf := pre + [old'] + rest + [ZIP_END];
    var np := |pre|;
    var a := Resize(buf, |buf| + 4);
    assert a[..|buf|] == buf;
    assert a[np + 1..np + 1 + |rest|] == rest;
    var b := MemMove(a, np + 5, np + 1, |rest|);
    assert b[..np] == pre && b[np + 5..] == rest + [ZIP_END];
  }

  /** Where entry i of a list behind `pref` begins, and what is read there. */
  lemma EntryAt(data: seq<byte>, pref: seq<byte>, nodes: seq<Node>, i: nat)
    requires AllFit(nodes) && i < |nodes| && data == pref + Ser(nodes) + [ZIP_END]
    ensures var p := |pref| + |Ser(nodes[..i])|;
      && p + Raw(nodes[i]) == |pref| + |Ser(nodes[..i + 1])| < |data|
      && data[p] != ZIP_END && ZipEntry(data, p) == Some(Decoded(nodes[i])) && Decoded(nodes[i]).Raw() == Raw(nodes[i])
    ensures i + 1 == |nodes| ==> data[|pref| + |Ser(nodes[..i + 1])|] == ZIP_END
  {
    hide Enc, Body, ZipEntry, Decoded, Ser;
    SerAround(nodes, i);
    var a, b, c := Ser(nodes[..i]), Enc(nodes[i]), Ser(nodes[i + 1..]);
    var p := |pref| + |a|;
    Middle(data, pref + a, b, c + [ZIP_END]);
    EntryReads(data, p, nodes[i]);
    assert nodes[..i + 1] == nodes[..i] + [nodes[i]];
    SerConcat(nodes[..i], [nodes[i]]);
    SerOne(nodes[i]);
    if i + 1 == |nodes| {
      assert nodes[..i + 1] == nodes;
    }
  }

  lemma Middle(data: seq<byte>, a: seq<byte>, b: seq<byte>, c: seq<byte>)
    requires data == a + b + c
    ensures data[|a|..] == b + c && data[|a|..|a| + |b|] == b
  {
  }

  lemma EndAt(data: seq<byte>, pref: seq<byte>, nodes: seq<Node>)
    requires AllFit(nodes) && data == pref + Ser(nodes) + [ZIP_END]
    ensures |pref| + |Ser(nodes)| == |data| - 1 && data[|data| - 1] == ZIP_END
  {
  }

  /** The bytes around the first field of entry i. */
  lemma FieldAround(pref: seq<byte>, nodes: seq<Node>, i: nat)
    requires AllFit(nodes) && i < |nodes|
    ensures var n := nodes[i];
      pref + Ser(nodes) + [ZIP_END]
        == (pref + Ser(nodes[..i])) + PrevField(n.prev, n.big) + (Body(n.item) + Ser(nodes[i + 1..])) + [ZIP_END]
  {
    hide Body, Ser, PrevField;
    SerAround(nodes, i);
    EncParts(nodes[i]);
  }

  lemma EncParts(n: Node)
    requires NodeOk(n)
    ensures Enc(n) == PrevField(n.prev, n.big) + Body(n.item)
  {
  }

  /** Another first field in entry i of the list. */
  lemma RelinkBytes(pref: seq<byte>, nodes: seq<Node>, i: nat, raw: nat, big: bool)
    requires AllFit(nodes) && i < |nodes| && raw <= UINT32_MAX && (big || raw < ZIP_BIGLEN)
    ensures var nodes' := nodes[i := Relinked(nodes[i], raw, big)];
      && AllFit(nodes')
      && pref + Ser(nodes') + [ZIP_END]
           == (pref + Ser(nodes[..i])) + PrevField(raw, big) + (Body(nodes[i].item) + Ser(nodes[i + 1..])) + [ZIP_END]
  {
    hide Body, Ser, PrevField;
    var nodes' := nodes[i := Relinked(nodes[i], raw, big)];
    FieldAround(pref, nodes', i);
    assert nodes'[..i] == nodes[..i] && nodes'[i + 1..] == nodes[i + 1..];
  }

  /** The cascade's two ways of writing the field of entry i. */
  lemma CascadeBytes(data: seq<byte>, pref: seq<byte>, nodes: seq<Node>, i: nat, raw: nat)
    requires AllFit(nodes) && i < |nodes| && raw <= UINT32_MAX && data == pref + Ser(nodes) + [ZIP_END]
    ensures var np := |pref| + |Ser(nodes[..i])|;
      var n := nodes[i];
      && (!n.big && raw >= ZIP_BIGLEN ==>
            && np + 2 <= |data|
            && Widen(data, np, PrevField(raw, true))
                 == pref + Ser(nodes[i := Relinked(n, raw, true)]) + [ZIP_END])
      && (n.big || raw < ZIP_BIGLEN ==>
            && np + |PrevField(raw, n.big)| <= |data|
            && Overwrite(data, np, PrevField(raw, n.big))
                 == pref + Ser(nodes[i := Relinked(n, raw, n.big)]) + [ZIP_END])
  {
    hide Body, Ser, Widen, Overwrite;
    var n := nodes[i];
    var head, rest := pref + Ser(nodes[..i]), Body(n.item) + Ser(nodes[i + 1..]);
    FieldAround(pref, nodes, i);
    if !n.big && raw >= ZIP_BIGLEN {
      RelinkBytes(pref, nodes, i, raw, true);
      WidenField(head, n.prev as byte, rest, PrevField(raw, true));
    } else {
      RelinkBytes(pref, nodes, i, raw, n.big);
      var f, g := PrevField(n.prev, n.big), PrevField(raw, n.big);
      assert data == head + f + (rest + [ZIP_END]);
      SwapMiddle(head, f, g, rest + [ZIP_END]);
    }
  }

  lemma SwapMiddle(a: seq<byte>, f: seq<byte>, g: seq<byte>, b: seq<byte>)
    requires |f| == |g|
    ensures Overwrite(a + f + b, |a|, g) == a + g + b
  {
  }

  /** Where the last entry begins after a field before it, or its own, has changed. */
  lemma TailMoves(nodes: seq<Node>, i: nat, raw: nat, big: bool)
    requires AllFit(nodes) && i < |nodes| && raw <= UINT32_MAX && (big || raw < ZIP_BIGLEN)
    ensures var n := |nodes| - 1;
      var nodes' := nodes[i := Relinked(nodes[i], raw, big)];
      AllFit(nodes') && AllFit(nodes[..n]) && AllFit(nodes'[..n])
      && |Ser(nodes'[..n])| == |Ser(nodes[..n])| + (if i == n then 0 else Raw(nodes'[i]) - Raw(nodes[i]))
  {
    hide Enc, Body, Ser;
    var n := |nodes| - 1;
    var nodes' := nodes[i := Relinked(nodes[i], raw, big)];
    if i < n {
      SerAround(nodes[..n], i);
      SerAround(nodes'[..n], i);
      assert nodes'[..n][..i] == nodes[..n][..i] && nodes'[..n][i + 1..] == nodes[..n][i + 1..];
    } else {
      assert nodes'[..n] == nodes[..n];
    }
  }

  lemma StartOf(nodes: seq<Node>)
    ensures AllFit(nodes[..0]) && Ser(nodes[..0]) == []
  {
  }

  lemma DecodedFields(n: Node)
    requires Fits(n)
    ensures Decoded(n).prevrawlen == n.prev && Decoded(n).prevrawlensize == if n.big then 5 else 1
    ensures Raw(n) <= UINT32_MAX
  {
  }

  /** An entry that is not the last begins before the last one does. */
  lemma TailAt(nodes: seq<Node>, j: nat)
    requires AllFit(nodes) && j < |nodes|
    ensures |Ser(nodes[..|nodes| - 1])| == |Ser(nodes[..j])| <==> j == |nodes| - 1
  {
    hide Body, Enc, Ser;
    var n := |nodes| - 1;
    if j < n {
      SerAround(nodes[..n], j);
      assert nodes[..n][..j] == nodes[..j];
    }
  }

  // ---- insertion --------------------------------------------------------------------------

  /** The length recorded in front of position k. */
  function PrevAt(nodes: seq<Node>, k: nat): nat
    requires AllFit(nodes) && k <= |nodes|
  {
    if k == 0 then 0 else Raw(nodes[k - 1])
  }

  /** The entry that holds s behind an entry of length prev. */
  ghost function NewNode(s: seq<byte>, prev: nat): Node {
    Node(prev, prev >= ZIP_BIGLEN, ItemOf(s))
  }

  /** No entry that holds s behind an entry of that length is smaller. */
  lemma SmallestEntry(s: seq<byte>, prev: nat, n: Node)
    requires NodeOk(n) && n.prev == prev && Text(n.item) == s && ItemOk(ItemOf(s))
    ensures Raw(NewNode(s, prev)) <= Raw(n)
  {
    SmallestItem(n.item);
  }

  /** The list with s in front of entry k: the new entry, entry k with its length recorded, and the cascade behind it. */
  ghost function Opened(nodes: seq<Node>, k: nat, s: seq<byte>): seq<Node>
    requires AllFit(nodes) && k < |nodes| && ItemOk(ItemOf(s)) && Raw(NewNode(s, PrevAt(nodes, k))) <= UINT32_MAX
  {
    var n := NewNode(s, PrevAt(nodes, k));
    assert Fits(nodes[k]);
    nodes[..k] + [n] + CascadeFrom([Relinked(nodes[k], Raw(n), Raw(n) >= ZIP_BIGLEN)] + nodes[k + 1..], 0)
  }

  lemma NewNodeFits(s: seq<byte>, prev: nat)
    requires |s| + 10 <= UINT32_MAX && prev <= UINT32_MAX
    ensures Fits(NewNode(s, prev)) && Text(NewNode(s, prev).item) == s
  {
    hide Print, ParseLl;
  }

  /** By how much the entry at k must grow to record the length `req`. */
  function NextDiff(nodes: seq<Node>, k: nat, req: nat): int {
    if k < |nodes| then PrevSize(req) - (if nodes[k].big then 5 else 1) else 0
  }

  /** The moves of `__ziplistInsert`: a gap of `req` bytes at o, and the next entry's field behind it. */
  function Gapped(buf: seq<byte>, o: nat, req: nat, diff: int, field: seq<byte>): (r: seq<byte>)
    requires 0 <= o - diff && 0 <= req + diff + 1 && |field| <= |buf| - o - 1 + diff
    ensures |r| == |buf| + req + diff
  {
    var moved := MemMove(Resize(buf, |buf| + req + diff), o + req, o - diff, |buf| - o - 1 + diff);
    Overwrite(moved, o + req, field)
  }

  /** The bytes moved lie within the resized buffer exactly when it shrinks by one byte at most. */
  lemma MoveInside(len: nat, o: nat, req: nat, diff: int)
    requires 0 <= o - diff && 0 <= len - o - 1 + diff
    ensures (o - diff) + (len - o - 1 + diff) <= len + req + diff <==> req + diff >= -1
  {
  }

  /** When it shrinks by one, the end mark has replaced the last byte before the bytes are moved. */
  lemma LastByteLost(head: seq<byte>, old': seq<byte>, rest: seq<byte>, req: nat, new': seq<byte>)
    requires (|old'| == 1 || |old'| == 5) && (|new'| == 1 || |new'| == 5) && rest != [] && |head| >= 4
    requires req + |new'| - |old'| == -1
    ensures var buf := head + old' + rest + [ZIP_END];
      var r := Gapped(buf, |head|, req, |new'| - |old'|, new');
      && r[..|head|] == head
      && r[|head| + req..] == new' + rest[..|rest| - 1] + [ZIP_END] + [ZIP_END]
      && (r[|head| + req..] == new' + rest + [ZIP_END] <==> rest[|rest| - 1] == ZIP_END)
  {
    hide MemMove, Overwrite, Resize;
    var buf := head + old' + rest + [ZIP_END];
    var o, diff := |head|, |new'| - |old'|;
    var a := Resize(buf, |buf| - 1);
    var n := |buf| - o - 1 + diff;
    var b := MemMove(a, o + req, o - diff, n);
    var r := Overwrite(b, o + req, new');
    MemMoveAt(a, o + req, o - diff, n);
    OverwriteAt(b, o + req, new');
    var want := new' + rest[..|rest| - 1] + [ZIP_END] + [ZIP_END];
    forall i | 0 <= i < o ensures r[i] == head[i] {
      assert buf[i] == head[i] && a[i] == buf[i] && b[i] == a[i];
    }
    assert r[..o] == head;
    forall i | 0 <= i < |want| ensures r[o + req..][i] == want[i] {
      var x := o + req + i;
      assert r[o + req..][i] == r[x];
      if i >= |new'| {
        assert r[x] == b[x];
        if i < n - 1 {
          var j := o - diff + i;
          assert b[x] == a[j] && a[j] == buf[j];
          assert buf[j] == rest[i - |new'|];
        } else if i == n - 1 {
          assert b[x] == a[|a| - 1];
        } else {
          assert x == |a| - 1 && b[x] == a[x];
        }
      }
    }
    assert r[o + req..] == want;
    SameEnd(new', rest);
  }

  lemma SameEnd(field: seq<byte>, rest: seq<byte>)
    requires rest != []
    ensures field + rest[..|rest| - 1] + [ZIP_END] + [ZIP_END] == field + rest + [ZIP_END] <==> rest[|rest| - 1] == ZIP_END
  {
    var want, got := field + rest + [ZIP_END], field + rest[..|rest| - 1] + [ZIP_END] + [ZIP_END];
    assert got[|field| + |rest| - 1] == ZIP_END && want[|field| + |rest| - 1] == rest[|rest| - 1];
    if rest[|rest| - 1] == ZIP_END {
      assert rest == rest[..|rest| - 1] + [ZIP_END];
    }
  }

  /** Making room in front of a field, and writing the field anew in the form it needs. */
  lemma MakeRoom(head: seq<byte>, old': seq<byte>, rest: seq<byte>, req: nat, new': seq<byte>)
    requires |old'| == 1 || |old'| == 5
    requires |new'| == 1 || |new'| == 5
    requires req + |new'| - |old'| >= 0 && |head| >= 4
    ensures var buf := head + old' + rest + [ZIP_END];
      var o, diff := |head|, |new'| - |old'|;
      var r := Gapped(buf, o, req, diff, new');
      r[..o] == head && r[o + req..] == new' + rest + [ZIP_END]
  {
    hide MemMove, Overwrite, Resize;
    var buf := head + old' + rest + [ZIP_END];
    var o, diff := |head|, |new'| - |old'|;
    var a := Resize(buf, |buf| + req + diff);
    var n := |buf| - o - 1 + diff;
    var b := MemMove(a, o + req, o - diff, n);
    var r := Overwrite(b, o + req, new');
    MemMoveAt(a, o + req, o - diff, n);
    OverwriteAt(b, o + req, new');
    var want := new' + rest + [ZIP_END];
    forall i | 0 <= i < o ensures r[i] == head[i] {
      assert buf[i] == head[i] && a[i] == buf[i] && b[i] == a[i];
    }
    assert r[..o] == head;
    forall i | 0 <= i < |want| ensures r[o + req..][i] == want[i] {
      var x := o + req + i;
      assert r[o + req..][i] == r[x];
      if i >= |new'| {
        assert r[x] == b[x];
        if i < n {
          var j := o - diff + i;
          assert b[x] == a[j] && a[j] == buf[j];
          assert buf[j] == (rest + [ZIP_END])[i - |new'|];
        } else {
          assert x == |a| - 1 && b[x] == a[x];
        }
      }
    }
    assert r[o + req..] == want;
  }

  class List {
    var zlbytes: nat
    var zltail: nat
    var zllen: nat
    var data: seq<byte>
    ghost var nodes: seq<Node>

    /** The header's bytes, which are read only where a move overlaps them. */
    function Header(): (h: seq<byte>)
      reads this
      ensures |h| == HEADER_SIZE
    {
      LE(zlbytes, 4) + LE(zltail, 4) + LE(zllen, 2)
    }

    ghost predicate Valid()
      reads this
    {
      && AllFit(nodes) && Linked(nodes, 0)
      && data == Ser(nodes) + [ZIP_END]
      && zlbytes == HEADER_SIZE + |data|
      && zltail == HEADER_SIZE + (if nodes == [] then 0 else |Ser(nodes[..|nodes| - 1])|)
      && zllen <= UINT16_MAX && (zllen < UINT16_MAX ==> zllen == |nodes|)
    }

    /** `ziplistNew`. */
    constructor ()
      ensures Valid() && nodes == []
    {
      data, zlbytes, zltail, zllen, nodes := [ZIP_END], HEADER_SIZE + 1, HEADER_SIZE, 0, [];
    }

    /** The buffer holds `rest` behind `pref`, and the tail offset points at its last entry. */
    ghost predicate Holds(pref: seq<byte>, rest: seq<Node>)
      reads this`data, this`zlbytes, this`zltail
    {
      && rest != [] && AllFit(rest)
      && data == pref + Ser(rest) + [ZIP_END]
      && zlbytes == HEADER_SIZE + |data|
      && zltail == HEADER_SIZE + |pref| + |Ser(rest[..|rest| - 1])|
    }

    /** One turn of the cascade's loop, at entry i; `more` is false where the loop ends. */
    method CascadeTurn(p: nat, ghost pref: seq<byte>, ghost cur: seq<Node>, ghost i: nat)
      returns (p': nat, more: bool, ghost cur': seq<Node>)
      requires Holds(pref, cur) && i < |cur| && p == |pref| + |Ser(cur[..i])|
      modifies this`data, this`zlbytes, this`zltail
      ensures Holds(pref, cur') && |cur'| == |cur|
      ensures !more ==> cur' == CascadeFrom(cur, i)
      ensures more ==> i + 1 < |cur| && CascadeFrom(cur', i + 1) == CascadeFrom(cur, i) && p' == |pref| + |Ser(cur'[..i + 1])|
    {
      hide Enc, Body, Ser, ZipEntry, Decoded, Widen, Overwrite, Fits, PrevField;
      p', more, cur' := p, false, cur;
      EntryAt(data, pref, cur, i);
      var rawlen := ZipEntry(data, p).value.Raw();
      if i + 1 < |cur| {
        EntryAt(data, pref, cur, i + 1);
      }
      if data[p + rawlen] == ZIP_END {
        return;
      }
      var next := ZipEntry(data, p + rawlen).value;
      DecodedFields(cur[i + 1]);
      if next.prevrawlen == rawlen {
        return;
      }
      DecodedFields(cur[i]);
      var np := p + rawlen;
      CascadeBytes(data, pref, cur, i + 1, rawlen);
      if next.prevrawlensize < PrevSize(rawlen) {
        TailMoves(cur, i + 1, rawlen, true);
        TailAt(cur, i + 1);
        if zltail != HEADER_SIZE + np {
          zltail := zltail + 4;
        }
        data := Widen(data, np, PrevField(rawlen, true));
        zlbytes := zlbytes + 4;
        cur' := cur[i + 1 := Relinked(cur[i + 1], rawlen, true)];
        assert cur'[..i + 1] == cur[..i + 1];
        p', more := np, true;
      } else {
        TailMoves(cur, i + 1, rawlen, cur[i + 1].big);
        data := Overwrite(data, np, PrevField(rawlen, next.prevrawlensize == 5));
        cur' := cur[i + 1 := Relinked(cur[i + 1], rawlen, cur[i + 1].big)];
      }
    }

    /** `__ziplistCascadeUpdate`, from the entry at offset q. */
    method Cascade(q: nat, ghost pref: seq<byte>, ghost rest: seq<Node>)
      requires |pref| == q && Holds(pref, rest)
      modifies this`data, this`zlbytes, this`zltail
      ensures Holds(pref, CascadeFrom(rest, 0))
    {
      hide Holds, CascadeFrom;
      var p, more := q, true;
      ghost var i, cur := 0, rest;
      HoldsSome(pref, rest);
      StartOf(cur);
      while more
        invariant Holds(pref, cur) && AllFit(cur) && AllFit(rest) && |cur| == |rest| > 0
        invariant more ==> i < |cur| && CascadeFrom(cur, i) == CascadeFrom(rest, 0) && p == q + |Ser(cur[..i])|
        invariant !more ==> cur == CascadeFrom(rest, 0)
        decreases |cur| - i, more
      {
        p, more, cur := CascadeTurn(p, pref, cur, i);
        HoldsSome(pref, cur);
        i := i + 1;
      }
    }

    lemma HoldsSome(pref: seq<byte>, rest: seq<Node>)
      requires Holds(pref, rest)
      ensures rest != [] && AllFit(rest)
    {
    }

    /** The length to record in front of a new entry at offset p: the next one's, or the tail's own. */
    method PrevLenAt(p: nat, ghost k: nat) returns (prev: nat)
      requires Valid() && k <= |nodes| && p == |Ser(nodes[..k])|
      ensures prev == PrevAt(nodes, k)
      ensures p < |data| && (data[p] == ZIP_END <==> k == |nodes|)
    {
      hide Enc, Body, Ser, ZipEntry, Decoded;
      assert data == [] + Ser(nodes) + [ZIP_END];
      EndAt(data, [], nodes);
      if k < |nodes| {
        EntryAt(data, [], nodes, k);
        DecodedFields(nodes[k]);
      } else {
        assert nodes[..k] == nodes;
      }
      prev := 0;
      if data[p] != ZIP_END {
        prev := ZipEntry(data, p).value.prevrawlen;
      } else {
        var ptail := zltail - HEADER_SIZE;
        if nodes != [] {
          EntryAt(data, [], nodes, |nodes| - 1);
        } else {
          StartOf(nodes);
          assert nodes[..0] == nodes;
        }
        if data[ptail] != ZIP_END {
          prev := ZipEntry(data, ptail).value.Raw();
        }
      }
    }

    /** Appending behind the last entry. */
    method InsertAtEnd(p: nat, prev: nat, item: Item)
      requires Valid() && p == |Ser(nodes)| && prev == PrevAt(nodes, |nodes|)
      requires Fits(Node(prev, prev >= ZIP_BIGLEN, item))
      modifies this
      ensures nodes == old(nodes) + [Node(prev, prev >= ZIP_BIGLEN, item)] && zllen == old(zllen)
      ensures AllFit(nodes) && Linked(nodes, 0) && data == Ser(nodes) + [ZIP_END] && zlbytes == HEADER_SIZE + |data|
      ensures zltail == HEADER_SIZE + |Ser(nodes[..|nodes| - 1])|
    {
      hide Enc, Body, Ser, Fits;
      var n := Node(prev, prev >= ZIP_BIGLEN, item);
      NodeRaw(n);
      var reqlen := Raw(n);
      zlbytes := zlbytes + reqlen;
      ghost var was := data;
      data := Resize(data, |data| + reqlen);
      zltail := HEADER_SIZE + p;
      data := Overwrite(data, p, Enc(n));
      assert data == Ser(nodes) + Enc(n) + [ZIP_END];
      SerConcat(nodes, [n]);
      SerOne(n);
      nodes := nodes + [n];
      assert nodes[..|nodes| - 1] == old(nodes);
    }

    /** An insertion in front of an entry. */
    method InsertBefore(p: nat, n: Node, ghost k: nat) returns (ghost rest: seq<Node>)
      requires Valid() && k < |nodes| && p == |Ser(nodes[..k])| && n.prev == PrevAt(nodes, k) && n.big == (n.prev >= ZIP_BIGLEN)
      requires Fits(n) && Raw(n) + NextDiff(nodes, k, Raw(n)) >= 0
      modifies this`data, this`zlbytes, this`zltail, this`nodes
      ensures Raw(n) <= UINT32_MAX && AllFit([Relinked(old(nodes)[k], Raw(n), Raw(n) >= ZIP_BIGLEN)] + old(nodes)[k + 1..])
      ensures rest == CascadeFrom([Relinked(old(nodes)[k], Raw(n), Raw(n) >= ZIP_BIGLEN)] + old(nodes)[k + 1..], 0)
      ensures nodes == old(nodes)[..k] + [n] + rest
      ensures AllFit(nodes) && Linked(nodes, 0) && data == Ser(nodes) + [ZIP_END] && zlbytes == HEADER_SIZE + |data|
      ensures zltail == HEADER_SIZE + |Ser(nodes[..|nodes| - 1])|
      ensures forall i :: 0 <= i < |rest| ==> rest[i].item == old(nodes)[k + i].item
      ensures |rest| == old(|nodes|) - k
    {
      hide Enc, Body, Ser, Fits, Raw, CascadeFrom, Linked, Text;
      ghost var was := nodes;
      NodeRaw(n);
      var reqlen := Raw(n);
      var nextdiff, pref, rest0 := OpenGap(p, reqlen, k);
      RestCascade(nodes, k, reqlen, rest0);
      if nextdiff != 0 {
        Cascade(p + reqlen, pref, rest0);
      }
      rest := CascadeFrom(rest0, 0);
      EntryWritten(data, pref, p, nodes, k, n, rest);
      data := Overwrite(data, p, Enc(n));
      nodes := nodes[..k] + [n] + rest;
      InsertedLinks(was, k, n, rest0, rest, nodes);
      InsertedTail(was, k, n, rest, nodes);
    }

    /** `__ziplistInsert`: s becomes entry k, whatever that does to the entries behind it. */
    method Insert(p: nat, s: seq<byte>, ghost k: nat)
      requires Valid() && k <= |nodes| && p == |Ser(nodes[..k])| && |s| + 10 <= UINT32_MAX
      requires var n := NewNode(s, PrevAt(nodes, k));
        ItemOk(n.item) && Raw(n) + NextDiff(nodes, k, Raw(n)) >= 0
      modifies this
      ensures Valid()
      ensures Texts(nodes) == old(Texts(nodes))[..k] + [s] + old(Texts(nodes))[k..]
      ensures k == old(|nodes|) ==> nodes == old(nodes) + [NewNode(s, old(PrevAt(nodes, k)))]
      ensures k < old(|nodes|) ==> Raw(NewNode(s, old(PrevAt(nodes, k)))) <= UINT32_MAX && nodes == Opened(old(nodes), k, s)
    {
      hide Enc, Body, Ser, Fits, Raw, CascadeFrom, Linked, ItemOf, Print, Text;
      var prev := PrevLenAt(p, k);
      PrevFits(nodes, k);
      NewNodeFits(s, prev);
      var item := TryEncoding(s);
      var n := Node(prev, prev >= ZIP_BIGLEN, item);
      NodeRaw(n);
      ghost var was := nodes;
      if data[p] == ZIP_END {
        assert nodes[..k] == nodes;
        InsertAtEnd(p, prev, item);
        InsertedTexts(was, k, n, [], nodes, s);
      } else {
        ghost var rest := InsertBefore(p, n, k);
        InsertedTexts(was, k, n, rest, nodes, s);
      }
      if zllen < UINT16_MAX {
        zllen := zllen + 1;
      }
    }

    /** The skipping loop of a deletion: where the first entry that stays begins. */
    method SkipEntries(p0: nat, num: nat, ghost k: nat) returns (p: nat, deleted: nat)
      requires Valid() && k <= |nodes| && p0 == |Ser(nodes[..k])|
      ensures deleted == (if num <= |nodes| - k then num else |nodes| - k)
      ensures p == |Ser(nodes[..k + deleted])| < |data|
      ensures data[p] == ZIP_END <==> k + deleted == |nodes|
    {
      hide Enc, Body, Ser, ZipEntry, Decoded, Fits, Linked;
      p, deleted := p0, 0;
      assert data == [] + Ser(nodes) + [ZIP_END];
      EndAt(data, [], nodes);
      assert nodes[..|nodes|] == nodes;
      while true
        invariant deleted <= num && k + deleted <= |nodes| && p == |Ser(nodes[..k + deleted])|
        decreases num - deleted
      {
        ghost var e := k + deleted;
        if e < |nodes| {
          EntryAt(data, [], nodes, e);
        }
        if data[p] == ZIP_END || deleted == num {
          break;
        }
        p := p + ZipEntry(data, p).value.Raw();
        deleted := deleted + 1;
      }
    }

    /** The part of a deletion that closes the gap in front of an entry that stays. */
    method CloseGap(p: nat, p2: nat, prev: nat, ghost k: nat, ghost e: nat) returns (nextdiff: int, ghost rest: seq<Node>)
      requires Valid() && k < e < |nodes| && p == |Ser(nodes[..k])| && p2 == |Ser(nodes[..e])| && prev == nodes[k].prev
      modifies this`data, this`zlbytes, this`zltail
      ensures prev <= UINT32_MAX && nextdiff == NextDiff(nodes, e, prev)
      ensures rest == [Relinked(nodes[e], prev, prev >= ZIP_BIGLEN)] + nodes[e + 1..]
      ensures Holds(Ser(nodes[..k]), rest)
    {
      hide Enc, Body, Ser, ZipEntry, Decoded, Shifted, Overwrite, PrevField, Fits, Linked, Raw;
      assert data == [] + Ser(nodes) + [ZIP_END];
      EntryAt(data, [], nodes, e);
      DecodedFields(nodes[e]);
      DeletedRoom(nodes, k, e);
      DeleteBytes(data, nodes, k, e);
      nextdiff := PrevSize(prev) - ZipEntry(data, p2).value.prevrawlensize;
      rest := [Relinked(nodes[e], prev, prev >= ZIP_BIGLEN)] + nodes[e + 1..];
      var p3 := p2 - nextdiff;
      ghost var len := |data|;
      data := Overwrite(data, p3, PrevField(prev, prev >= ZIP_BIGLEN));
      TailAfterDelete(nodes, k, e, prev, rest);
      ReadRest(data, p3, rest);
      zltail := zltail - (p2 - p);
      var tail := ZipEntry(data, p3).value;
      if data[p3 + tail.Raw()] != ZIP_END {
        zltail := zltail + nextdiff;
      }
      data := Shifted(data, p, p3);
      zlbytes := zlbytes - (p2 - p) + nextdiff;
    }

    /** The part of a deletion that leaves entries after the gap, with the cascade it may start. */
    method CutBetween(p: nat, p2: nat, prev: nat, ghost k: nat, ghost e: nat)
      requires Valid() && k < e < |nodes| && p == |Ser(nodes[..k])| && p2 == |Ser(nodes[..e])| && prev == nodes[k].prev
      modifies this
      ensures zllen == old(zllen) && |nodes| == old(|nodes|) - (e - k)
      ensures AllFit(nodes) && Linked(nodes, 0) && data == Ser(nodes) + [ZIP_END] && zlbytes == HEADER_SIZE + |data|
      ensures zltail == HEADER_SIZE + (if nodes == [] then 0 else |Ser(nodes[..|nodes| - 1])|)
      ensures Texts(nodes) == old(Texts(nodes))[..k] + old(Texts(nodes))[e..]
      ensures nodes == Closed(old(nodes), k, e)
    {
      hide Enc, Body, Ser, ZipEntry, Decoded, Resize, Fits, Raw, CascadeFrom, Linked, Text, Print;
      ghost var was := nodes;
      var nextdiff, rest := CloseGap(p, p2, prev, k, e);
      RestCascade(was, e, prev, rest);
      ghost var rest' := CascadeFrom(rest, 0);
      if nextdiff != 0 {
        Cascade(p, Ser(was[..k]), rest);
      }
      nodes := was[..k] + rest';
      SerConcat(was[..k], rest');
      DeletedLinks(was, k, rest, rest', nodes);
      DeletedTexts(was, k, e, rest', nodes);
      DeletedTail(was, k, rest', nodes);
    }

    /** The part of a deletion that takes everything from entry k on. */
    method CutFrom(p: nat, p2: nat, prev: nat, ghost k: nat)
      requires Valid() && k < |nodes| && p == |Ser(nodes[..k])| && p2 == |Ser(nodes)| && prev == nodes[k].prev
      modifies this
      ensures nodes == old(nodes)[..k] && zllen == old(zllen)
      ensures AllFit(nodes) && Linked(nodes, 0) && data == Ser(nodes) + [ZIP_END] && zlbytes == HEADER_SIZE + |data|
      ensures zltail == HEADER_SIZE + (if nodes == [] then 0 else |Ser(nodes[..|nodes| - 1])|)
    {
      hide Ser, Resize, Fits, Raw, Linked;
      CutTail(nodes, k);
      PrefixLinked(nodes, k);
      CutBytes(nodes, k, Resize(Ser(nodes) + [ZIP_END], p + 1));
      zltail := HEADER_SIZE + p - prev;
      data := Resize(data, |data| - (p2 - p));
      zlbytes := zlbytes - (p2 - p);
      nodes := nodes[..k];
    }

    /** `__ziplistDelete`: up to num entries from entry k on are gone. */
    method Delete(p: nat, num: nat, ghost k: nat)
      requires Valid() && k < |nodes| && p == |Ser(nodes[..k])|
      modifies this
      ensures Valid()
      ensures var e := if num <= old(|nodes|) - k then k + num else old(|nodes|);
        Texts(nodes) == old(Texts(nodes))[..k] + old(Texts(nodes))[e..]
      ensures 0 < num < old(|nodes|) - k ==> nodes == Closed(old(nodes), k, k + num)
    {
      hide Enc, Body, Ser, ZipEntry, Decoded, Resize, Fits, Raw, CascadeFrom, Linked, Text, Print;
      ghost var was := nodes;
      assert data == [] + Ser(nodes) + [ZIP_END];
      EntryAt(data, [], nodes, k);
      DecodedFields(nodes[k]);
      var prev := ZipEntry(data, p).value.prevrawlen;
      var p2, deleted := SkipEntries(p, num, k);
      ghost var e := k + deleted;
      DeletedSpan(nodes, k, e);
      if p2 == p {
        assert Texts(was)[..k] + Texts(was)[k..] == Texts(was);
        return;
      }
      if data[p2] != ZIP_END {
        CutBetween(p, p2, prev, k, e);
      } else {
        assert was[..e] == was;
        CutFrom(p, p2, prev, k);
        DeletedTexts(was, k, e, [], nodes);
      }
      if zllen < UINT16_MAX {
        zllen := zllen - deleted;
      }
    }

    /** `ziplistIndex`: from the head for an index from 0 on, from the tail for a negative one. */
    method Index(index: int) returns (r: Option<nat>)
      requires Valid()
      ensures var n := |nodes|;
        var j := if index < 0 then n + index else index;
        r == if 0 <= j < n then Some(|Ser(nodes[..j])|) else None
    {
      hide Enc, Body, Ser, ZipEntry, Decoded, Fits, Raw;
      assert data == [] + Ser(nodes) + [ZIP_END];
      StartOf(nodes);
      if index >= 0 {
        var p, deleted := SkipEntries(0, index, 0);
        return if data[p] == ZIP_END then None else Some(p);
      }
      var left := -index - 1;
      var p := zltail - HEADER_SIZE;
      if nodes == [] {
        assert nodes[..0] == nodes;
        EndAt(data, [], nodes);
      } else {
        EntryAt(data, [], nodes, |nodes| - 1);
      }
      if data[p] == ZIP_END {
        return None;
      }
      ghost var j := |nodes| - 1;
      while true
        invariant 0 <= j < |nodes| && left >= 0 && j - left == |nodes| + index && p == |Ser(nodes[..j])|
        decreases left
      {
        EntryAt(data, [], nodes, j);
        DecodedFields(nodes[j]);
        StepBack(nodes, j);
        var prev := ZipEntry(data, p).value.prevrawlen;
        if prev == 0 || left == 0 {
          break;
        }
        left := left - 1;
        p := p - prev;
        j := j - 1;
      }
      r := if left > 0 then None else Some(p);
    }

    /** The comparison of `ziplistCompare` and `ziplistFind`, with v already tried as an integer. */
    method Compare(p: nat, v: seq<byte>, item: Item, ghost j: nat) returns (same: bool)
      requires Valid() && j < |nodes| && p == |Ser(nodes[..j])| && item == ItemOf(v)
      ensures same <==> Texts(nodes)[j] == v
    {
      hide Enc, Body, Ser, ZipEntry, Decoded, Raw, Linked, ItemOf, Text, IntBody, LoadInteger, IntEncoding, IntSize;
      assert data == [] + Ser(nodes) + [ZIP_END];
      EntryAt(data, [], nodes, j);
      SameText(nodes[j].item, v);
      if nodes[j].item.Str? {
        StrPayload(data, nodes, j, p);
      } else {
        IntPayload(data, nodes, j, p);
      }
      var e := ZipEntry(data, p).value;
      var q := p + e.HeaderSize();
      if e.encoding < 192 {
        same := e.len == |v| && data[q..q + e.len] == v;
      } else {
        same := item.Int? && LoadInteger(data[q..q + e.len], e.encoding) == item.v;
      }
    }

    /** `ziplistFind`: the first of the entries compared, from entry k on, that holds the string v. */
    method Find(p0: nat, v: seq<byte>, skip: nat, ghost k: nat) returns (r: Option<nat>, ghost j: nat)
      requires Valid() && k <= |nodes| && p0 == |Ser(nodes[..k])| && |v| <= UINT32_MAX
      ensures k <= j <= |nodes|
      ensures forall i :: k <= i < j && Due(i - k, skip) ==> Texts(nodes)[i] != v
      ensures r == if j < |nodes| then Some(|Ser(nodes[..j])|) else None
      ensures j < |nodes| ==> Due(j - k, skip) && Texts(nodes)[j] == v
    {
      hide Enc, Body, Ser, ZipEntry, Decoded, Fits, Raw, Linked, ItemOf, Text, Print;
      var item := TryEncoding(v);
      assert data == [] + Ser(nodes) + [ZIP_END];
      EndAt(data, [], nodes);
      assert nodes[..|nodes|] == nodes;
      var p, skipcnt := p0, 0;
      j := k;
      while true
        invariant k <= j <= |nodes| && p == |Ser(nodes[..j])| && 0 <= skipcnt <= skip
        invariant Due(j - k + skipcnt, skip)
        invariant forall i :: k <= i < j && Due(i - k, skip) ==> Texts(nodes)[i] != v
        decreases |nodes| - j
      {
        if j < |nodes| {
          EntryAt(data, [], nodes, j);
        }
        if data[p] == ZIP_END {
          return None, j;
        }
        if skipcnt == 0 {
          var same := Compare(p, v, item, j);
          if same {
            return Some(p), j;
          }
          skipcnt := skip;
        } else {
          NotYet(j - k, skipcnt, skip);
          skipcnt := skipcnt - 1;
        }
        p := p + ZipEntry(data, p).value.Raw();
        j := j + 1;
      }
    }

    /** Opening a gap of the new entry's size in front of entry k and relinking that entry. */
    method OpenGap(p: nat, reqlen: nat, ghost k: nat) returns (nextdiff: int, ghost pref: seq<byte>, ghost rest: seq<Node>)
      requires Valid() && k < |nodes| && p == |Ser(nodes[..k])| && 2 <= reqlen <= UINT32_MAX
      requires reqlen + NextDiff(nodes, k, reqlen) >= 0
      modifies this`data, this`zlbytes, this`zltail
      ensures nextdiff == NextDiff(nodes, k, reqlen)
      ensures |pref| == p + reqlen && pref[..p] == Ser(nodes[..k])
      ensures rest == [Relinked(nodes[k], reqlen, reqlen >= ZIP_BIGLEN)] + nodes[k + 1..] && Holds(pref, rest)
    {
      hide Enc, Body, Ser, ZipEntry, Decoded, Gapped, PrevField, Linked, LE, Fits, Raw;
      ghost var n := nodes[k];
      assert data == [] + Ser(nodes) + [ZIP_END];
      EntryAt(data, [], nodes, k);
      DecodedFields(n);
      nextdiff := PrevSize(reqlen) - ZipEntry(data, p).value.prevrawlensize;
      GapOpens(Header(), data, nodes, k, reqlen);
      data := Gapped(Header() + data, HEADER_SIZE + p, reqlen, nextdiff, PrevField(reqlen, reqlen >= ZIP_BIGLEN))[HEADER_SIZE..];
      zlbytes := zlbytes + reqlen + nextdiff;
      pref := data[..p + reqlen];
      rest := [Relinked(n, reqlen, reqlen >= ZIP_BIGLEN)] + nodes[k + 1..];
      TailAfterInsert(nodes, k, reqlen, rest);
      ReadRest(data, p + reqlen, rest);
      zltail := zltail + reqlen;
      var tail := ZipEntry(data, p + reqlen).value;
      if data[p + reqlen + tail.Raw()] != ZIP_END {
        zltail := zltail + nextdiff;
      }
    }
  }

  // ---- deletion ---------------------------------------------------------------------------

  /** The next entry's field written anew, right in front of its payload. */
  lemma FieldRewritten(head: seq<byte>, old': seq<byte>, rest: seq<byte>, new': seq<byte>)
    requires |old'| == 1 || |old'| == 5
    requires |new'| == 1 || |new'| == 5
    requires |head| + |old'| >= |new'|
    ensures var buf := head + old' + rest;
      var p := |head| + |old'| - |new'|;
      var r := Overwrite(buf, p, new');
      r[p..] == new' + rest && (p <= |head| ==> r[..p] == head[..p]) && (p > |head| ==> r[..|head|] == head)
  {
    var buf := head + old' + rest;
    var p := |head| + |old'| - |new'|;
    assert buf[p + |new'|..] == rest;
    assert p > |head| ==> buf[..p][..|head|] == head;
  }

  /** Moving the rest of the list to the front and cutting the buffer to its new length. */
  function Shifted(buf: seq<byte>, p: nat, p3: nat): (r: seq<byte>)
    requires p <= p3 < |buf|
    ensures |r| == |buf| - (p3 - p)
  {
    Resize(MemMove(buf, p, p3, |buf| - p3 - 1), |buf| - (p3 - p))
  }

  lemma GapCloses(buf: seq<byte>, p: nat, p3: nat, rest: seq<byte>)
    requires p <= p3 < |buf| && buf[p3..] == rest + [ZIP_END]
    ensures Shifted(buf, p, p3) == buf[..p] + rest + [ZIP_END]
  {
    var m := MemMove(buf, p, p3, |rest|);
    assert buf[p3..p3 + |rest|] == buf[p3..][..|rest|] == rest;
    assert m[..p + |rest|] == buf[..p] + rest;
    assert |buf| - (p3 - p) - 1 == p + |rest|;
  }

  /** The bytes of a list around the first field of entry e, and with another field there. */
  lemma FieldReplaced(data: seq<byte>, nodes: seq<Node>, e: nat, prev: nat)
    requires AllFit(nodes) && e < |nodes| && data == Ser(nodes) + [ZIP_END] && prev <= UINT32_MAX
    requires |Ser(nodes[..e])| >= 4 || prev < ZIP_BIGLEN
    ensures var big := prev >= ZIP_BIGLEN;
      var p2, diff := |Ser(nodes[..e])|, NextDiff(nodes, e, prev);
      var rest := [Relinked(nodes[e], prev, big)] + nodes[e + 1..];
      && AllFit(rest) && 0 <= p2 - diff && p2 - diff + |PrevField(prev, big)| <= |data|
      && var d1 := Overwrite(data, p2 - diff, PrevField(prev, big));
      && d1[p2 - diff..] == Ser(rest) + [ZIP_END]
      && (diff >= 0 ==> d1[..p2 - diff] == Ser(nodes[..e])[..p2 - diff])
      && (diff < 0 ==> d1[..p2] == Ser(nodes[..e]))
  {
    hide Body, Ser, Overwrite, PrevField;
    var n, big := nodes[e], prev >= ZIP_BIGLEN;
    var m := Relinked(n, prev, big);
    SerConcat([m], nodes[e + 1..]);
    SerOne(m);
    EncParts(m);
    FieldAround([], nodes, e);
    assert [] + Ser(nodes) + [ZIP_END] == data;
    var old', new', tail := PrevField(n.prev, n.big), PrevField(prev, big), Body(n.item) + Ser(nodes[e + 1..]);
    assert [] + Ser(nodes[..e]) == Ser(nodes[..e]);
    assert data == Ser(nodes[..e]) + old' + (tail + [ZIP_END]);
    FieldRewritten(Ser(nodes[..e]), old', tail + [ZIP_END], new');
  }

  /** What a deletion that leaves entries behind makes of the bytes. */
  lemma DeleteBytes(data: seq<byte>, nodes: seq<Node>, k: nat, e: nat)
    requires AllFit(nodes) && k < e < |nodes| && data == Ser(nodes) + [ZIP_END]
    ensures var prev := nodes[k].prev;
      var big := prev >= ZIP_BIGLEN;
      var p, p2, diff := |Ser(nodes[..k])|, |Ser(nodes[..e])|, NextDiff(nodes, e, prev);
      var rest := [Relinked(nodes[e], prev, big)] + nodes[e + 1..];
      && AllFit(rest) && p <= p2 - diff && p2 - diff + |PrevField(prev, big)| <= |data|
      && var d1 := Overwrite(data, p2 - diff, PrevField(prev, big));
      && d1 == d1[..p2 - diff] + Ser(rest) + [ZIP_END]
      && Shifted(d1, p, p2 - diff) == Ser(nodes[..k]) + Ser(rest) + [ZIP_END]
  {
    hide Body, Ser, Shifted, Overwrite, PrevField, Fits;
    var prev := nodes[k].prev;
    var big := prev >= ZIP_BIGLEN;
    var p, p2, diff := |Ser(nodes[..k])|, |Ser(nodes[..e])|, NextDiff(nodes, e, prev);
    DeletedRoom(nodes, k, e);
    var rest := [Relinked(nodes[e], prev, big)] + nodes[e + 1..];
    FieldReplaced(data, nodes, e, prev);
    var d1 := Overwrite(data, p2 - diff, PrevField(prev, big));
    assert d1 == d1[..p2 - diff] + d1[p2 - diff..];
    GapCloses(d1, p, p2 - diff, Ser(rest));
    SerSplit(nodes[..e], k);
    assert nodes[..e][..k] == nodes[..k];
    if diff >= 0 {
      assert d1[..p] == d1[..p2 - diff][..p] == Ser(nodes[..e])[..p];
    } else {
      assert d1[..p] == d1[..p2][..p] == Ser(nodes[..e])[..p];
    }
  }

  lemma SerSplit(nodes: seq<Node>, k: nat)
    requires AllFit(nodes) && k <= |nodes|
    ensures Ser(nodes) == Ser(nodes[..k]) + Ser(nodes[k..])
  {
    hide Ser;
    SerConcat(nodes[..k], nodes[k..]);
    assert nodes == nodes[..k] + nodes[k..];
  }

  /** There is room for the field where the deleted entries were. */
  lemma DeletedRoom(nodes: seq<Node>, k: nat, e: nat)
    requires AllFit(nodes) && k < e < |nodes|
    ensures |Ser(nodes[..e])| >= |Ser(nodes[..k])| + Raw(nodes[k])
    ensures nodes[k].prev >= ZIP_BIGLEN ==> Raw(nodes[k]) >= 6
    ensures Raw(nodes[k]) >= 2 && nodes[k].prev <= UINT32_MAX
  {
    hide Ser, Enc;
    SerAround(nodes[..e], k);
    assert nodes[..e][..k] == nodes[..k];
    NodeRaw(nodes[k]);
  }

  /** What stands at p3 is the relinked entry, followed by the end when it is the last. */
  lemma ReadRest(data: seq<byte>, p3: nat, rest: seq<Node>)
    requires AllFit(rest) && rest != [] && p3 <= |data| && data == data[..p3] + Ser(rest) + [ZIP_END]
    ensures p3 < |data| && ZipEntry(data, p3) == Some(Decoded(rest[0])) && Decoded(rest[0]).Raw() == Raw(rest[0])
    ensures p3 + Raw(rest[0]) < |data| && (data[p3 + Raw(rest[0])] == ZIP_END <==> |rest| == 1)
  {
    hide Body, Ser, Enc, ZipEntry, Decoded;
    var pref := data[..p3];
    StartOf(rest);
    EntryAt(data, pref, rest, 0);
    if |rest| > 1 {
      EntryAt(data, pref, rest, 1);
    }
  }

  /** The last entry begins behind the deleted ones. */
  lemma TailBefore(nodes: seq<Node>, k: nat, e: nat)
    requires AllFit(nodes) && k < e < |nodes|
    ensures |Ser(nodes[..k])| <= |Ser(nodes[..e])| <= |Ser(nodes[..|nodes| - 1])|
  {
    hide Ser;
    SerSplit(nodes[..e], k);
    assert nodes[..e][..k] == nodes[..k];
    SerSplit(nodes[..|nodes| - 1], e);
    assert nodes[..|nodes| - 1][..e] == nodes[..e];
  }

  lemma TailAfterInsert(nodes: seq<Node>, k: nat, req: nat, rest: seq<Node>)
    requires AllFit(nodes) && k < |nodes| && req <= UINT32_MAX && AllFit(rest)
    requires rest == [Relinked(nodes[k], req, req >= ZIP_BIGLEN)] + nodes[k + 1..]
    ensures |Ser(nodes[..|nodes| - 1])| + (if |rest| > 1 then NextDiff(nodes, k, req) else 0)
         == |Ser(nodes[..k])| + |Ser(rest[..|rest| - 1])|
  {
    hide Ser, Raw, Fits;
    RelinkedRaw(nodes[k], req, req >= ZIP_BIGLEN);
    GapTail(nodes, k, rest);
  }

  lemma TailAfterDelete(nodes: seq<Node>, k: nat, e: nat, prev: nat, rest: seq<Node>)
    requires AllFit(nodes) && k < e < |nodes| && prev <= UINT32_MAX && AllFit(rest)
    requires rest == [Relinked(nodes[e], prev, prev >= ZIP_BIGLEN)] + nodes[e + 1..]
    ensures var tail, gone := |Ser(nodes[..|nodes| - 1])|, |Ser(nodes[..e])| - |Ser(nodes[..k])|;
      gone <= tail && tail - gone + (if |rest| > 1 then NextDiff(nodes, e, prev) else 0)
        == |Ser(nodes[..k])| + |Ser(rest[..|rest| - 1])|
  {
    hide Ser, Raw, Fits;
    RelinkedRaw(nodes[e], prev, prev >= ZIP_BIGLEN);
    GapTail(nodes, e, rest);
    TailBefore(nodes, k, e);
  }

  lemma DeletedSpan(nodes: seq<Node>, k: nat, e: nat)
    requires AllFit(nodes) && k <= e <= |nodes|
    ensures |Ser(nodes[..e])| >= |Ser(nodes[..k])|
    ensures |Ser(nodes[..e])| == |Ser(nodes[..k])| <==> k == e
  {
    hide Ser, Enc;
    if k < e {
      SerAround(nodes[..e], k);
      assert nodes[..e][..k] == nodes[..k];
    }
  }

  lemma DeletedLinks(was: seq<Node>, k: nat, rest: seq<Node>, rest': seq<Node>, nodes: seq<Node>)
    requires AllFit(was) && Linked(was, 0) && k < |was|
    requires AllFit(rest) && AllFit(rest') && nodes == was[..k] + rest' && AllFit(nodes)
    requires rest != [] && |rest'| == |rest| && rest'[0] == rest[0] && rest[0].prev == was[k].prev
    requires forall j :: 0 < j < |rest'| ==> rest'[j].prev == Raw(rest'[j - 1])
    ensures Linked(nodes, 0)
  {
    hide Raw;
    forall i | 0 < i < |nodes| ensures nodes[i].prev == Raw(nodes[i - 1]) {
      if i > k {
        assert nodes[i] == rest'[i - k] && nodes[i - 1] == rest'[i - k - 1];
      } else {
        assert was[i].prev == Raw(was[i - 1]);
      }
    }
  }

  lemma DeletedTexts(was: seq<Node>, k: nat, e: nat, rest: seq<Node>, nodes: seq<Node>)
    requires k <= e <= |was| && |rest| == |was| - e && nodes == was[..k] + rest
    requires forall j :: 0 <= j < |rest| ==> rest[j].item == was[e + j].item
    ensures Texts(nodes) == Texts(was)[..k] + Texts(was)[e..]
  {
    hide Text;
  }

  lemma DeletedTail(was: seq<Node>, k: nat, rest: seq<Node>, nodes: seq<Node>)
    requires AllFit(was) && k < |was| && AllFit(rest) && rest != [] && nodes == was[..k] + rest && AllFit(nodes)
    ensures |Ser(nodes[..|nodes| - 1])| == |Ser(was[..k])| + |Ser(rest[..|rest| - 1])|
  {
    hide Ser;
    assert nodes[..|nodes| - 1] == was[..k] + rest[..|rest| - 1];
    SerConcat(was[..k], rest[..|rest| - 1]);
  }

  lemma PrefixLinked(nodes: seq<Node>, k: nat)
    requires AllFit(nodes) && Linked(nodes, 0) && k <= |nodes|
    ensures AllFit(nodes[..k]) && Linked(nodes[..k], 0)
  {
    hide Raw;
  }

  /** The entry before position k begins where the length recorded there says. */
  lemma CutTail(nodes: seq<Node>, k: nat)
    requires AllFit(nodes) && Linked(nodes, 0) && k < |nodes|
    ensures |Ser(nodes[..k])| - nodes[k].prev == if k == 0 then 0 else |Ser(nodes[..k][..k - 1])|
  {
    hide Ser, Enc, Body, Raw, Fits;
    if k == 0 {
      StartOf(nodes);
    } else {
      SerConcat(nodes[..k - 1], [nodes[k - 1]]);
      SerOne(nodes[k - 1]);
      NodeRaw(nodes[k - 1]);
      assert nodes[..k] == nodes[..k - 1] + [nodes[k - 1]];
      assert nodes[..k][..k - 1] == nodes[..k - 1];
    }
  }

  /** Cutting the buffer behind entry k - 1. */
  lemma CutBytes(nodes: seq<Node>, k: nat, data: seq<byte>)
    requires AllFit(nodes) && k < |nodes|
    requires data == Resize(Ser(nodes) + [ZIP_END], |Ser(nodes[..k])| + 1)
    ensures data == Ser(nodes[..k]) + [ZIP_END]
  {
    hide Ser;
    SerSplit(nodes, k);
    var p := |Ser(nodes[..k])|;
    assert (Ser(nodes) + [ZIP_END])[..p] == Ser(nodes[..k]);
  }

  /** The recorded length leads back to the entry before, and is 0 only at the head. */
  lemma StepBack(nodes: seq<Node>, j: nat)
    requires AllFit(nodes) && Linked(nodes, 0) && j < |nodes|
    ensures nodes[j].prev == 0 <==> j == 0
    ensures j > 0 ==> |Ser(nodes[..j])| - nodes[j].prev == |Ser(nodes[..j - 1])|
  {
    hide Ser, Enc, Body, Raw, Fits;
    CutTail(nodes, j);
    if j > 0 {
      assert nodes[..j][..j - 1] == nodes[..j - 1];
      NodeRaw(nodes[j - 1]);
    }
  }

  lemma Infix(a: seq<byte>, f: seq<byte>, h: seq<byte>, x: seq<byte>, b: seq<byte>, end: seq<byte>, all: seq<byte>)
    requires all == a + f + (h + x + b) + end
    ensures var q := |a| + |f| + |h|;
      q + |x| <= |all| && all[q..q + |x|] == x
  {
  }

  /** The bytes of a string entry's content, behind its header. */
  lemma StrPayload(data: seq<byte>, nodes: seq<Node>, j: nat, p: nat)
    requires AllFit(nodes) && j < |nodes| && data == Ser(nodes) + [ZIP_END] && p == |Ser(nodes[..j])|
    requires nodes[j].item.Str?
    ensures var e, s := Decoded(nodes[j]), nodes[j].item.s;
      var q := p + e.HeaderSize();
      e.encoding < 192 && e.len == |s| && q + e.len <= |data| && data[q..q + e.len] == s
  {
    hide Ser, PrevField, StrHeader;
    FieldAround([], nodes, j);
    var n := nodes[j];
    var s, field := n.item.s, PrevField(n.prev, n.big);
    assert [] + Ser(nodes) + [ZIP_END] == data;
    Infix([] + Ser(nodes[..j]), field, StrHeader(|s|), s, Ser(nodes[j + 1..]), [ZIP_END], data);
  }

  /** The bytes of an integer entry's content, behind its header. */
  lemma IntPayload(data: seq<byte>, nodes: seq<Node>, j: nat, p: nat)
    requires AllFit(nodes) && j < |nodes| && data == Ser(nodes) + [ZIP_END] && p == |Ser(nodes[..j])|
    requires nodes[j].item.Int?
    ensures var e, v := Decoded(nodes[j]), nodes[j].item.v;
      var q := p + e.HeaderSize();
      e.encoding == IntEncoding(v) && e.len == |IntBody(v)| && q + e.len <= |data| && data[q..q + e.len] == IntBody(v)
  {
    hide Ser, PrevField, IntBody, IntEncoding;
    FieldAround([], nodes, j);
    var n := nodes[j];
    var v, field := n.item.v, PrevField(n.prev, n.big);
    assert [] + Ser(nodes) + [ZIP_END] == data;
    Infix([] + Ser(nodes[..j]), field, [IntEncoding(v)], IntBody(v), Ser(nodes[j + 1..]), [ZIP_END], data);
  }

  /** Comparing the content is comparing the strings. */
  lemma SameText(item: Item, v: seq<byte>)
    requires ItemOk(item)
    ensures item.Str? ==> (Text(item) == v <==> item.s == v)
    ensures item.Int? ==> (Text(item) == v <==> ItemOf(v) == item)
    ensures item.Int? ==> LoadInteger(IntBody(item.v), IntEncoding(item.v)) == item.v
  {
    hide Print, IntBody, LoadInteger;
    if item.Int? {
      IntegerRoundTrip(item.v);
      ParseInvertsPrint(item.v);
      NumeralLength(item.v);
    }
  }

  lemma NumeralLength(v: int)
    requires IsLongLong(v)
    ensures |Print(v)| < 32
  {
    hide Digits;
    Digits10Counts(if v < 0 then -v else v);
  }

  /** An entry at distance d from the first is one of those compared, skip entries apart. */
  predicate Due(d: nat, skip: nat) {
    d == 0 || (d > skip && Due(d - skip - 1, skip))
  }

  /** While entries are being skipped, the next one to compare is still ahead. */
  lemma {:induction false} NotYet(d: nat, cnt: nat, skip: nat)
    requires 0 < cnt <= skip && Due(d + cnt, skip)
    ensures !Due(d, skip)
  {
    if d > skip {
      NotYet(d - skip - 1, cnt, skip);
    }
  }

  lemma PrevFits(nodes: seq<Node>, k: nat)
    requires AllFit(nodes) && k <= |nodes|
    ensures PrevAt(nodes, k) <= UINT32_MAX
  {
    if k > 0 {
      DecodedFields(nodes[k - 1]);
    }
  }

  /** The entries behind a gap after the cascade, which has nothing to do when the next entry keeps its size. */
  lemma RestCascade(nodes: seq<Node>, k: nat, req: nat, rest: seq<Node>)
    requires AllFit(nodes) && Linked(nodes, 0) && k < |nodes| && req <= UINT32_MAX
    requires rest == [Relinked(nodes[k], req, req >= ZIP_BIGLEN)] + nodes[k + 1..]
    ensures AllFit(rest) && |CascadeFrom(rest, 0)| == |rest| && CascadeFrom(rest, 0)[0] == rest[0]
    ensures forall j :: 0 <= j < |rest| ==> CascadeFrom(rest, 0)[j].item == nodes[k + j].item
    ensures forall j :: 0 < j < |rest| ==> CascadeFrom(rest, 0)[j].prev == Raw(CascadeFrom(rest, 0)[j - 1])
    ensures NextDiff(nodes, k, req) == 0 ==> CascadeFrom(rest, 0) == rest
  {
    hide Body, Enc, Ser, Raw;
    CascadeKeeps(rest, 0);
    assert CascadeFrom(rest, 0)[..1][0] == rest[..1][0];
    forall j | 0 < j < |rest| && j != 1 ensures rest[j].prev == Raw(rest[j - 1]) {
      assert nodes[k + j].prev == Raw(nodes[k + j - 1]);
    }
    CascadeLinks(rest, 0);
    RelinkedRaw(nodes[k], req, req >= ZIP_BIGLEN);
    if k + 1 < |nodes| {
      assert nodes[k + 1].prev == Raw(nodes[k]);
    }
  }

  /** Writing the new entry into the gap. */
  lemma EntryWritten(data: seq<byte>, pref: seq<byte>, p: nat, nodes: seq<Node>, k: nat, n: Node, rest: seq<Node>)
    requires AllFit(nodes) && k < |nodes| && Fits(n) && AllFit(rest)
    requires |pref| == p + Raw(n) && pref[..p] == Ser(nodes[..k]) && data == pref + Ser(rest) + [ZIP_END]
    ensures p + |Enc(n)| <= |data| && AllFit(nodes[..k] + [n] + rest)
    ensures Overwrite(data, p, Enc(n)) == Ser(nodes[..k] + [n] + rest) + [ZIP_END]
  {
    hide Body, Ser, Enc;
    SerConcat(nodes[..k], [n]);
    SerConcat(nodes[..k] + [n], rest);
    SerOne(n);
    assert Overwrite(data, p, Enc(n)) == pref[..p] + Enc(n) + (Ser(rest) + [ZIP_END]);
  }

  lemma InsertedLinks(was: seq<Node>, k: nat, n: Node, rest: seq<Node>, rest': seq<Node>, nodes: seq<Node>)
    requires AllFit(was) && Linked(was, 0) && k < |was| && Fits(n) && n.prev == PrevAt(was, k)
    requires AllFit(rest) && AllFit(rest') && nodes == was[..k] + [n] + rest' && AllFit(nodes)
    requires rest != [] && |rest'| == |rest| && rest'[0] == rest[0] && rest[0].prev == Raw(n)
    requires forall j :: 0 < j < |rest'| ==> rest'[j].prev == Raw(rest'[j - 1])
    ensures Linked(nodes, 0)
  {
    hide Raw;
    forall i | 0 < i < |nodes| ensures nodes[i].prev == Raw(nodes[i - 1]) {
      if i > k + 1 {
        assert nodes[i] == rest'[i - k - 1] && nodes[i - 1] == rest'[i - k - 2];
      } else if i < k {
        assert was[i].prev == Raw(was[i - 1]);
      }
    }
  }

  lemma InsertedTexts(was: seq<Node>, k: nat, n: Node, rest: seq<Node>, nodes: seq<Node>, s: seq<byte>)
    requires k <= |was| && |rest| == |was| - k && nodes == was[..k] + [n] + rest && Text(n.item) == s
    requires forall j :: 0 <= j < |rest| ==> rest[j].item == was[k + j].item
    ensures Texts(nodes) == Texts(was)[..k] + [s] + Texts(was)[k..]
  {
    hide Text;
  }

  lemma InsertedTail(was: seq<Node>, k: nat, n: Node, rest: seq<Node>, nodes: seq<Node>)
    requires AllFit(was) && k < |was| && Fits(n) && AllFit(rest) && rest != []
    requires nodes == was[..k] + [n] + rest && AllFit(nodes)
    ensures |Ser(nodes[..|nodes| - 1])| == |Ser(was[..k])| + Raw(n) + |Ser(rest[..|rest| - 1])|
  {
    hide Body, Ser, Enc;
    var init := rest[..|rest| - 1];
    assert nodes[..|nodes| - 1] == was[..k] + [n] + init;
    SerConcat(was[..k], [n]);
    SerConcat(was[..k] + [n], init);
    SerOne(n);
    NodeRaw(n);
  }

  lemma RelinkedRaw(n: Node, raw: nat, big: bool)
    requires Fits(n) && raw <= UINT32_MAX && (big || raw < ZIP_BIGLEN)
    ensures Raw(Relinked(n, raw, big)) - Raw(n) == (if big then 5 else 1) - (if n.big then 5 else 1)
  {
  }

  /** The bytes of the list once the gap is open. */
  lemma GapOpens(header: seq<byte>, data: seq<byte>, nodes: seq<Node>, k: nat, req: nat)
    requires |header| == HEADER_SIZE && AllFit(nodes) && k < |nodes| && data == Ser(nodes) + [ZIP_END]
    requires 2 <= req <= UINT32_MAX && req + NextDiff(nodes, k, req) >= 0
    ensures var p, diff, big := |Ser(nodes[..k])|, NextDiff(nodes, k, req), req >= ZIP_BIGLEN;
      var rest := [Relinked(nodes[k], req, big)] + nodes[k + 1..];
      && p + 2 <= |data| && |PrevField(req, big)| <= |data| - p - 1 + diff
      && var data' := Gapped(header + data, HEADER_SIZE + p, req, diff, PrevField(req, big))[HEADER_SIZE..];
      && p + req <= |data'| && data'[..p + req][..p] == Ser(nodes[..k])
      && AllFit(rest) && data' == data'[..p + req] + Ser(rest) + [ZIP_END]
  {
    hide Body, Ser, Gapped;
    var n := nodes[k];
    var p, diff, big := |Ser(nodes[..k])|, NextDiff(nodes, k, req), req >= ZIP_BIGLEN;
    var field, body, field1 := PrevField(n.prev, n.big), Body(n.item) + Ser(nodes[k + 1..]), PrevField(req, big);
    var head := header + Ser(nodes[..k]);
    FieldAround([], nodes, k);
    assert [] + Ser(nodes) + [ZIP_END] == data;
    assert header + data == head + field + body + [ZIP_END];
    MakeRoom(head, field, body, req, field1);
    var buf := Gapped(header + data, HEADER_SIZE + p, req, diff, field1);
    GapBytes(head, buf, buf[HEADER_SIZE..], buf[HEADER_SIZE..][..p + req], p, req, nodes, k,
             [Relinked(n, req, big)] + nodes[k + 1..]);
  }

  /** The buffer after the gap is opened. */
  lemma GapBytes(head: seq<byte>, buf: seq<byte>, data: seq<byte>, pref: seq<byte>, p: nat, req: nat,
                 nodes: seq<Node>, k: nat, rest: seq<Node>)
    requires AllFit(nodes) && k < |nodes| && req <= UINT32_MAX
    requires |head| == HEADER_SIZE + p && p == |Ser(nodes[..k])| && head[HEADER_SIZE..] == Ser(nodes[..k])
    requires HEADER_SIZE + p + req <= |buf| && buf[..|head|] == head
    requires var field1 := PrevField(req, req >= ZIP_BIGLEN);
      buf[|head| + req..] == field1 + (Body(nodes[k].item) + Ser(nodes[k + 1..])) + [ZIP_END]
    requires data == buf[HEADER_SIZE..] && pref == data[..p + req]
    requires rest == [Relinked(nodes[k], req, req >= ZIP_BIGLEN)] + nodes[k + 1..]
    ensures pref[..p] == Ser(nodes[..k])
    ensures AllFit(rest) && data == pref + Ser(rest) + [ZIP_END]
  {
    hide Body, Ser, PrevField;
    var m := Relinked(nodes[k], req, req >= ZIP_BIGLEN);
    SerConcat([m], nodes[k + 1..]);
    SerOne(m);
    EncParts(m);
    assert data[p + req..] == buf[|head| + req..];
    assert data == pref + data[p + req..];
    assert pref[..p] == buf[HEADER_SIZE..HEADER_SIZE + p] == head[HEADER_SIZE..];
  }

  /** The tail offset behind the gap. */
  lemma GapTail(nodes: seq<Node>, k: nat, rest: seq<Node>)
    requires AllFit(nodes) && k < |nodes| && AllFit(rest)
    requires rest != [] && rest[0].item == nodes[k].item && rest[1..] == nodes[k + 1..]
    ensures var n := |nodes| - 1;
      |Ser(nodes[..n])| == |Ser(nodes[..k])| + |Ser(rest[..|rest| - 1])|
        - (if k < n then Raw(rest[0]) - Raw(nodes[k]) else 0)
  {
    hide Body, Ser, Enc;
    var n := |nodes| - 1;
    if k < n {
      SerAround(nodes[..n], k);
      assert nodes[..n][..k] == nodes[..k] && nodes[..n][k + 1..] == nodes[k + 1..n];
      SerAround(rest[..|rest| - 1], 0);
      StartOf(rest);
      assert rest[..|rest| - 1][1..] == rest[1..][..n - k - 1] == nodes[k + 1..][..n - k - 1] == nodes[k + 1..n];
      assert rest[..|rest| - 1][..0] == [];
    } else {
      assert rest[..|rest| - 1] == [];
      StartOf(rest);
      assert rest[..0] == [];
    }
  }

  lemma NodeRaw(n: Node)
    requires Fits(n)
    ensures NodeOk(n) && Raw(n) == |Enc(n)| >= 2 && Raw(n) <= UINT32_MAX
  {
  }

  // ---- an insertion that the code does not survive ----------------------------------------

  /** A string of one byte, so many times. */
  function Times(b: byte, n: nat): (s: seq<byte>)
    ensures |s| == n
  {
    seq(n, i => b)
  }

  /** How long an entry of a long string, or of a letter, is. */
  lemma StringRaw(s: seq<byte>, prev: nat, big: bool)
    requires 32 <= |s| < 16384 || (|s| == 1 && s[0] > 57)
    ensures NewNode(s, prev).item == Str(s) && ItemOk(Str(s))
    ensures Raw(Node(prev, big, Str(s))) == (if big then 5 else 1) + (if |s| <= 63 then 1 else 2) + |s|
  {
    hide ParseLl, Print;
    if |s| == 1 {
      NotANumeral(s);
    }
  }

  lemma NotANumeral(s: seq<byte>)
    requires |s| == 1 && s[0] > 57
    ensures ParseLl(s) == None
  {
    hide Digits;
  }

  const A := Node(0, false, Str([97]))
  const X := Node(3, false, Str(Times(120, 300)))
  const Y := Node(303, true, Str(Times(121, 247)))
  const D := Node(254, true, Str([100]))
  const Y_AFTER := Node(3, false, Str(Times(121, 247)))
  const D_AFTER := Node(250, true, Str([100]))

  lemma FourNodes()
    ensures NewNode([97], 0) == A && Fits(A) && Raw(A) == 3
    ensures NewNode(Times(120, 300), 3) == X && Fits(X) && Raw(X) == 303
    ensures NewNode(Times(121, 247), 303) == Y && Fits(Y) && Raw(Y) == 254
    ensures NewNode([100], 254) == D && Fits(D) && Fits(Y_AFTER) && Raw(Y_AFTER) == 250 && Fits(D_AFTER)
  {
    hide ItemOf;
    StringRaw([97], 0, false);
    StringRaw(Times(120, 300), 3, false);
    StringRaw(Times(121, 247), 303, true);
    StringRaw(Times(121, 247), 3, false);
    StringRaw([100], 254, true);
    StringRaw([100], 250, true);
  }

  /** The third entry shrinks, and the fourth keeps the long form of its field with a short length in it. */
  lemma AfterDeletion()
    requires AllFit([A, X, Y, D])
    ensures Closed([A, X, Y, D], 1, 2) == [A, Y_AFTER, D_AFTER]
  {
    hide Raw, Body;
    FourNodes();
    var nodes := [A, X, Y, D];
    assert nodes[..1] == [A] && nodes[3..] == [D];
    assert [Y_AFTER] + [D] == [Y_AFTER, D];
    assert CascadeFrom([Y_AFTER, D], 0) == [Y_AFTER, D_AFTER];
  }

  /** The digit 1 takes two bytes in front of it, and its field four fewer. */
  lemma OneShrinks()
    requires AllFit([A, Y_AFTER, D_AFTER])
    ensures PrevAt([A, Y_AFTER, D_AFTER], 2) == 250
    ensures var n := NewNode([49], 250);
      ItemOk(n.item) && Raw(n) == 2 && Raw(n) + NextDiff([A, Y_AFTER, D_AFTER], 2, Raw(n)) == -2
  {
    FourNodes();
    assert Print(1) == [49];
    ParseInvertsPrint(1);
  }

  /**
    Four insertions and a deletion lead to a list in front of whose last entry the code cannot insert a digit: it asks for
    a buffer two bytes shorter and then moves bytes from past its end.
   */
  method ShrinkIsReached() returns (l: List)
    ensures l.Valid() && |l.nodes| == 3
    ensures var n := NewNode([49], PrevAt(l.nodes, 2));
      ItemOk(n.item) && Raw(n) + NextDiff(l.nodes, 2, Raw(n)) == -2
  {
    hide Raw, Body, Ser, ItemOf, Closed, Fits;
    FourNodes();
    l := new List();
    var texts: seq<seq<byte>> := [[97], Times(120, 300), Times(121, 247), [100]];
    ghost var want := [A, X, Y, D];
    for i := 0 to 4
      invariant l.Valid() && l.nodes == want[..i] && fresh(l)
    {
      assert l.nodes[..i] == l.nodes;
      assert PrevAt(l.nodes, i) == if i == 0 then 0 else Raw(want[i - 1]);
      l.Insert(l.zlbytes - HEADER_SIZE - 1, texts[i], i);
      assert want[..i + 1] == want[..i] + [want[i]];
    }
    assert l.nodes == [A, X, Y, D];
    AfterDeletion();
    var p := l.Index(1);
    l.Delete(p.value, 1, 1);
    OneShrinks();
  }
}
