/** src/lzf_c.c and src/lzf_d.c: compression, decompression, and what one does to the other. */
module Lzf {
  import opened Prelude

  const MAX_LIT: nat := 32
  const MAX_OFF: nat := 8192
  const MAX_REF: nat := 264
  const HSIZE: nat := 65536

  // ---- what a compressed string means -----------------------------------------------------

  /** Copies n bytes from position ref, one at a time, so that the copy may overlap itself. */
  function CopyRef(out: seq<byte>, ref: nat, n: nat): (r: seq<byte>)
    requires ref < |out|
    ensures |r| == |out| + n && out <= r
    decreases n
  {
    if n == 0 then out else CopyRef(out + [out[ref]], ref + 1, n - 1)
  }

  /** The token at `pos`: a literal run, or a back reference and how far it reaches. */
  datatype Token = Literal(next: nat, data: seq<byte>) | Back(next: nat, off: nat, len: nat)

  function TokenAt(code: seq<byte>, pos: nat): (r: Option<Token>)
    requires pos < |code|
    ensures r.Some? ==> pos < r.value.next <= |code|
    ensures r.Some? && r.value.Literal? ==> 1 <= |r.value.data| <= MAX_LIT
    ensures r.Some? && r.value.Back? ==> r.value.len >= 3
  {
    var ctrl := code[pos] as nat;
    if ctrl < 32 then
      if pos + ctrl + 2 > |code| then None else Some(Literal(pos + ctrl + 2, code[pos + 1..pos + ctrl + 2]))
    else if pos + 1 >= |code| then None
    else if ctrl / 32 < 7 then
      Some(Back(pos + 2, ctrl % 32 * 256 + code[pos + 1] as nat, ctrl / 32 + 2))
    else if pos + 2 >= |code| then None
    else Some(Back(pos + 3, ctrl % 32 * 256 + code[pos + 2] as nat, 9 + code[pos + 1] as nat))
  }

  /** A token applied to the output so far; None when it reaches back before the start. */
  function Apply(out: seq<byte>, t: Token): (r: Option<seq<byte>>)
    ensures r.Some? ==> out <= r.value
    ensures r.Some? && t.Literal? ==> r.value == out + t.data
    ensures r.Some? && t.Back? ==> |r.value| == |out| + t.len
  {
    if t.Literal? then Some(out + t.data)
    else if t.off + 1 > |out| then None
    else Some(CopyRef(out, |out| - t.off - 1, t.len))
  }

  /** The rest of a compressed string from `pos` on, given the output so far. */
  function Expand(code: seq<byte>, pos: nat, out: seq<byte>): (r: Option<seq<byte>>)
    requires pos <= |code|
    ensures r.Some? ==> out <= r.value
    decreases |code| - pos
  {
    if pos == |code| then Some(out)
    else
      var t := TokenAt(code, pos);
      if t.None? then None
      else
        var o := Apply(out, t.value);
        if o.None? then None else Expand(code, t.value.next, o.value)
  }

  ghost predicate Decodes(code: seq<byte>, out: seq<byte>) {
    Expand(code, 0, []) == Some(out)
  }

  // ---- decompression ----------------------------------------------------------------------

  /** `lzf_decompress`: 0 on a bad input or when the output does not fit, else the output's length. */
  method Decompress(code: seq<byte>, out: array<byte>) returns (n: nat)
    requires code != []
    modifies out
    ensures n <= out.Length
    ensures n > 0 ==> Decodes(code, out[..n])
    ensures n == 0 ==> var r := Expand(code, 0, []); r.None? || |r.value| > out.Length
  {
    hide CopyRef, TokenAt, Apply;
    var ip, op := 0, 0;
    while ip < |code|
      invariant 0 <= ip <= |code| && 0 <= op <= out.Length
      invariant ip > 0 ==> op > 0
      invariant Expand(code, ip, out[..op]) == Expand(code, 0, [])
      decreases |code| - ip
    {
      var next, op' := Step(code, ip, out, op);
      if next == 0 {
        return 0;
      }
      ip, op := next, op';
    }
    n := op;
  }

  /** One turn of the decompression loop; next == 0 is the error return. */
  method Step(code: seq<byte>, ip: nat, out: array<byte>, op: nat) returns (next: nat, op': nat)
    requires ip < |code| && op <= out.Length
    modifies out
    ensures var t := TokenAt(code, ip);
      next > 0 ==> t.Some? && next == t.value.next && op < op' <= out.Length && Apply(old(out[..op]), t.value) == Some(out[..op'])
    ensures var t := TokenAt(code, ip);
      next == 0 && t.Some? ==>
        var o := Apply(old(out[..op]), t.value); o.None? || |o.value| > out.Length
  {
    var ctrl := code[ip] as nat;
    next, op' := 0, op;
    if ctrl < 32 {
      ctrl := ctrl + 1;
      if op + ctrl > out.Length || ip + 1 + ctrl > |code| {
        return;
      }
      CopyLiterals(out, op, code, ip + 1, ctrl);
      return ip + 1 + ctrl, op + ctrl;
    }
    var len := ctrl / 32;
    var at := ip + 1;
    if at >= |code| {
      return;
    }
    if len == 7 {
      len := len + code[at] as nat;
      at := at + 1;
      if at >= |code| {
        return;
      }
    }
    var off := ctrl % 32 * 256 + code[at] as nat;
    if op + len + 2 > out.Length || op < off + 1 {
      return;
    }
    CopyWithin(out, op, op - off - 1, len + 2);
    next, op' := at + 1, op + len + 2;
  }

  /** The copy loop of a literal run. */
  method CopyLiterals(out: array<byte>, op: nat, code: seq<byte>, ip: nat, n: nat)
    requires op + n <= out.Length && ip + n <= |code|
    modifies out
    ensures out[..op + n] == old(out[..op]) + code[ip..ip + n]
  {
    ghost var data := code[ip..ip + n];
    var k := 0;
    while k < n
      invariant 0 <= k <= n
      invariant out[..op + k] == old(out[..op]) + data[..k]
    {
      out[op + k] := code[ip + k];
      assert out[..op + k + 1] == out[..op + k] + [data[k]];
      k := k + 1;
    }
    assert data[..k] == data;
  }

  /** The copy loop of a back reference, byte by byte so that it may read what it has written. */
  method CopyWithin(out: array<byte>, op: nat, ref: nat, n: nat)
    requires ref < op && op + n <= out.Length
    modifies out
    ensures out[..op + n] == CopyRef(old(out[..op]), ref, n)
  {
    var k := 0;
    while k < n
      invariant 0 <= k <= n
      invariant CopyRef(out[..op + k], ref + k, n - k) == CopyRef(old(out[..op]), ref, n)
    {
      assert out[..op + k][ref + k] == out[ref + k];
      out[op + k] := out[ref + k];
      assert out[..op + k + 1] == out[..op + k] + [out[op + k]];
      k := k + 1;
    }
  }

  // ---- compression ------------------------------------------------------------------------

  /** What a string decodes to does not depend on the tokens after it. */
  lemma {:induction false} ExpandPrefix(c: seq<byte>, t: seq<byte>, pos: nat, out: seq<byte>)
    requires pos <= |c| && Expand(c, pos, out).Some?
    ensures Expand(c + t, pos, out) == Expand(c + t, |c|, Expand(c, pos, out).value)
    decreases |c| - pos
  {
    hide Apply;
    if pos < |c| {
      var k := TokenAt(c, pos).value;
      TokenPrefix(c, t, pos);
      ExpandPrefix(c, t, k.next, Apply(out, k).value);
    }
  }

  lemma TokenPrefix(c: seq<byte>, t: seq<byte>, pos: nat)
    requires pos < |c| && TokenAt(c, pos).Some?
    ensures TokenAt(c + t, pos) == TokenAt(c, pos)
  {
    var k := TokenAt(c, pos).value;
    assert k.Literal? ==> (c + t)[pos + 1..k.next] == c[pos + 1..k.next];
  }

  /** One more token. */
  lemma {:induction false} DecodesMore(c: seq<byte>, out: seq<byte>, tok: seq<byte>, t: Token, out': seq<byte>)
    requires Decodes(c, out) && tok != []
    requires TokenAt(tok, 0) == Some(t) && t.next == |tok| && Apply(out, t) == Some(out')
    ensures Decodes(c + tok, out')
  {
    hide CopyRef, TokenAt;
    ExpandPrefix(c, tok, 0, []);
    TokenShift(c, tok, t);
  }

  lemma TokenShift(c: seq<byte>, tok: seq<byte>, t: Token)
    requires tok != [] && TokenAt(tok, 0) == Some(t)
    ensures TokenAt(c + tok, |c|) == Some(t.(next := |c| + t.next))
  {
    var s := c + tok;
    assert s[|c|] == tok[0];
    assert |tok| > 1 ==> s[|c| + 1] == tok[1];
    assert |tok| > 2 ==> s[|c| + 2] == tok[2];
    if t.Literal? {
      assert s[|c| + 1..|c| + t.next] == tok[1..t.next];
    }
  }

  /** A closed run of literals. */
  lemma {:induction false} DecodesLiteral(c: seq<byte>, out: seq<byte>, data: seq<byte>)
    requires Decodes(c, out) && 1 <= |data| <= MAX_LIT
    ensures Decodes(c + ([(|data| - 1) as byte] + data), out + data)
  {
    var tok := [(|data| - 1) as byte] + data;
    assert tok[1..|data| + 1] == data;
    DecodesMore(c, out, tok, Literal(|tok|, data), out + data);
  }

  /** The bytes of a back reference of `len` octets, `off + 1` bytes back. */
  function BackToken(off: nat, len: nat): seq<byte>
    requires off < MAX_OFF && 3 <= len <= MAX_REF
  {
    if len < 9 then [(off / 256 + (len - 2) * 32) as byte, (off % 256) as byte]
    else [(off / 256 + 224) as byte, (len - 9) as byte, (off % 256) as byte]
  }

  lemma BackTokenReads(off: nat, len: nat)
    requires off < MAX_OFF && 3 <= len <= MAX_REF
    ensures TokenAt(BackToken(off, len), 0) == Some(Back(|BackToken(off, len)|, off, len))
  {
  }

  /** The n bytes from p on equal those `dist` bytes before them. */
  ghost predicate Repeats(input: seq<byte>, p: nat, dist: nat, n: nat) {
    1 <= dist <= p && p + n <= |input| && forall i :: p <= i < p + n ==> input[i] == input[i - dist]
  }

  /** A copy of repeated input is the input. */
  lemma {:induction false} CopyRepeats(input: seq<byte>, p: nat, dist: nat, n: nat)
    requires Repeats(input, p, dist, n)
    ensures CopyRef(input[..p], p - dist, n) == input[..p + n]
    decreases n
  {
    if n > 0 {
      assert input[p] == input[p - dist];
      assert input[..p] + [input[p]] == input[..p + 1];
      CopyRepeats(input, p + 1, dist, n - 1);
    }
  }

  lemma {:induction false} DecodesBack(c: seq<byte>, input: seq<byte>, p: nat, dist: nat, len: nat)
    requires Repeats(input, p, dist, len) && dist <= MAX_OFF && 3 <= len <= MAX_REF
    requires Decodes(c, input[..p])
    ensures Decodes(c + BackToken(dist - 1, len), input[..p + len])
  {
    hide CopyRef, TokenAt, BackToken, Decodes, Repeats;
    RepeatBounds(input, p, dist, len);
    var tok := BackToken(dist - 1, len);
    BackTokenReads(dist - 1, len);
    CopyRepeats(input, p, dist, len);
    DecodesMore(c, input[..p], tok, Back(|tok|, dist - 1, len), input[..p + len]);
  }

  lemma RepeatBounds(input: seq<byte>, p: nat, dist: nat, len: nat)
    requires Repeats(input, p, dist, len)
    ensures 1 <= dist <= p && p + len <= |input|
  {
  }

  /**
   * The state of the compression loop: the closed tokens decode to the input before the open run,
   * and the open run holds its literals.  `full` counts the runs closed at their full length.
   */
  ghost predicate Running(code: seq<byte>, op: nat, lit: nat, input: seq<byte>, ip: nat, full: nat) {
    && lit < MAX_LIT && lit <= ip <= |input| && lit + 1 <= op <= |code|
    && Decodes(code[..op - lit - 1], input[..ip - lit])
    && code[op - lit..op] == input[ip - lit..ip]
    && 32 * full <= ip - lit && op - lit - 1 <= ip - lit + full
  }

  /** Nothing but literals so far, in runs of 32 and an open one. */
  predicate Straight(op: nat, lit: nat, ip: nat, full: nat) {
    op == ip + full + 1 && ip == 32 * full + lit && lit < MAX_LIT
  }

  /** `IDX` of the compressor, on 32-bit hashes. */
  function Slot(hval: nat): (i: nat)
    ensures i < HSIZE
  {
    (hval / 256 - hval * 5) % HSIZE
  }

  /** `NEXT`: the next byte is shifted into the 32-bit hash. */
  function NextHash(hval: nat, b: byte): nat {
    (hval * 256 + b as nat) % 0x1_0000_0000
  }

  function FirstHash(input: seq<byte>, ip: nat): nat
    requires ip + 1 < |input|
  {
    input[ip] as nat * 256 + input[ip + 1] as nat
  }

  /** The table's candidate is a usable match for the input at ip. */
  predicate Usable(input: seq<byte>, ip: nat, ref: int) {
    && 0 <= ip - ref - 1 < MAX_OFF && ip + 4 < |input| && ref > 0
    && input[ref] == input[ip] && input[ref + 1] == input[ip + 1] && input[ref + 2] == input[ip + 2]
  }

  /** The longest match looked for: two bytes are left over, unless the unrolled comparisons run into them. */
  function MaxLen(input: seq<byte>, ip: nat): int {
    if |input| - ip - 2 > MAX_REF then MAX_REF else |input| - ip - 2
  }

  /** A repeat that goes on until a byte differs or the limit is reached. */
  ghost predicate Longest(input: seq<byte>, ip: nat, ref: nat, len: nat) {
    && ref < ip && Repeats(input, ip, ip - ref, len) && 3 <= len <= MAX_REF
    && (len >= MaxLen(input, ip) || (ip + len < |input| && input[ref + len] != input[ip + len]))
  }

  /** How far the match goes: sixteen unrolled comparisons when there is room, then a loop. */
  method MatchLength(input: seq<byte>, ip: nat, ref: nat) returns (len: nat)
    requires Usable(input, ip, ref)
    ensures Longest(input, ip, ref, len)
  {
    len := 2;
    var maxlen := |input| - ip - len;
    maxlen := if maxlen > MAX_REF then MAX_REF else maxlen;
    if maxlen > 16 {
      var turns := 0;
      while turns < 16
        invariant 0 <= turns <= 16 && len == 2 + turns
        invariant forall i :: ip <= i <= ip + len ==> input[i] == input[i - (ip - ref)]
      {
        len := len + 1;
        if input[ref + len] != input[ip + len] {
          return;
        }
        turns := turns + 1;
      }
    }
    len := len + 1;
    while len < maxlen && input[ref + len] == input[ip + len]
      invariant 3 <= len && ip + len <= |input| && len <= MAX_REF
      invariant forall i :: ip <= i < ip + len ==> input[i] == input[i - (ip - ref)]
      decreases maxlen - len
    {
      len := len + 1;
    }
  }

  lemma RunningStarts(code: seq<byte>, input: seq<byte>)
    requires code != []
    ensures Running(code, 1, 0, input, 0, 0)
  {
    assert code[..0] == [] && input[..0] == [];
    assert code[1..1] == input[0..0];
  }

  /** A run with its length written at its head is a token. */
  lemma RunCloses(code: seq<byte>, code': seq<byte>, op: nat, lit: nat, input: seq<byte>, ip: nat, full: nat)
    requires Running(code, op, lit, input, ip, full) && lit > 0
    requires code' == code[op - lit - 1 := (lit - 1) as byte]
    ensures Decodes(code'[..op], input[..ip])
  {
    hide Decodes;
    var head, data := code[..op - lit - 1], input[ip - lit..ip];
    DecodesLiteral(head, input[..ip - lit], data);
    assert code'[..op] == head + ([(lit - 1) as byte] + data);
    assert input[..ip] == input[..ip - lit] + data;
  }

  /** The tokens before `p`, once the open run is closed or taken back. */
  ghost predicate Closed(code: seq<byte>, p: nat, input: seq<byte>, ip: nat) {
    p <= |code| && ip <= |input| && Decodes(code[..p], input[..ip])
  }

  /** Writes the run's length at its head, or takes the empty run back. */
  method CloseRun(out: array<byte>, op: nat, lit: nat, input: seq<byte>, ip: nat, ghost full: nat) returns (p: nat)
    requires Running(out[..], op, lit, input, ip, full)
    modifies out
    ensures p == (if lit == 0 then op - 1 else op) && Closed(out[..], p, input, ip)
    ensures p <= ip + full + (if lit == 0 then 0 else 1)
    ensures out.Length > 0 && op - lit != out.Length ==> out[out.Length - 1] == old(out[out.Length - 1])
    ensures out.Length > 0 && op - lit == out.Length ==> lit == 0 && out[out.Length - 1] == 255
  {
    hide Decodes;
    ghost var code := out[..];
    out[op - lit - 1] := ((lit - 1) % 256) as byte;
    if lit > 0 {
      assert out[..] == code[op - lit - 1 := (lit - 1) as byte];
      RunCloses(code, out[..], op, lit, input, ip, full);
      assert out[..][..op] == out[..op];
    } else {
      assert out[..][..op - 1] == code[..op - 1];
    }
    p := if lit == 0 then op - 1 else op;
  }

  /** A closed string and an open, empty run. */
  lemma RunOpens(code: seq<byte>, p: nat, input: seq<byte>, ip: nat, full: nat)
    requires Closed(code, p, input, ip) && p < |code| && 32 * full <= ip && p <= ip + full
    ensures Running(code, p + 1, 0, input, ip, full)
  {
    assert code[p + 1..p + 1] == input[ip..ip];
    assert input[..ip - 0] == input[..ip];
  }

  /** A literal byte joins the open run; a full run is closed and a new one begun. */
  method PushLiteral(out: array<byte>, op: nat, lit: nat, input: seq<byte>, ip: nat, ghost full: nat)
    returns (op': nat, lit': nat, ghost full': nat)
    requires Running(out[..], op, lit, input, ip, full) && op + 1 < out.Length && ip < |input|
    modifies out
    ensures Running(out[..], op', lit', input, ip + 1, full')
    ensures op + 1 <= op' <= op + 2
    ensures op' == op + 2 ==> lit' == 0 && op' >= 34
    ensures lit < MAX_LIT - 1 ==> op' == op + 1 && lit' == lit + 1
    ensures Straight(op, lit, ip, full) ==> Straight(op', lit', ip + 1, full')
    ensures out[out.Length - 1] == old(out[out.Length - 1])
  {
    hide Decodes;
    ghost var code := out[..];
    out[op] := input[ip];
    LiteralJoins(code, out[..], op, lit, input, ip, full);
    if lit + 1 == MAX_LIT {
      ghost var filled := out[..];
      out[op - lit - 1] := lit as byte;
      assert out[..] == filled[op - lit - 1 := lit as byte];
      FullRunCloses(filled, out[..], op + 1, input, ip + 1, full);
      op', lit', full' := op + 2, 0, full + 1;
    } else {
      op', lit', full' := op + 1, lit + 1, full;
    }
  }

  /** As `Running`, but with room for a run that has just become full. */
  ghost predicate Filling(code: seq<byte>, op: nat, lit: nat, input: seq<byte>, ip: nat, full: nat) {
    && lit <= MAX_LIT && lit <= ip <= |input| && lit + 1 <= op <= |code|
    && Decodes(code[..op - lit - 1], input[..ip - lit])
    && code[op - lit..op] == input[ip - lit..ip]
    && 32 * full <= ip - lit && op - lit - 1 <= ip - lit + full
  }

  lemma LiteralJoins(code: seq<byte>, code': seq<byte>, op: nat, lit: nat, input: seq<byte>, ip: nat, full: nat)
    requires Running(code, op, lit, input, ip, full) && op < |code| && ip < |input|
    requires code' == code[op := input[ip]]
    ensures Filling(code', op + 1, lit + 1, input, ip + 1, full)
  {
    hide Decodes;
    assert code'[..op - lit - 1] == code[..op - lit - 1];
    assert code'[op - lit..op + 1] == code[op - lit..op] + [input[ip]];
    assert input[ip - lit..ip + 1] == input[ip - lit..ip] + [input[ip]];
  }

  lemma FullRunCloses(code: seq<byte>, code': seq<byte>, op: nat, input: seq<byte>, ip: nat, full: nat)
    requires Filling(code, op, MAX_LIT, input, ip, full) && op < |code|
    requires code' == code[op - 33 := 31]
    ensures Running(code', op + 1, 0, input, ip, full + 1)
  {
    hide Decodes;
    var head, data := code[..op - 33], input[ip - 32..ip];
    DecodesLiteral(head, input[..ip - 32], data);
    assert code'[..op] == head + ([31] + data);
    assert input[..ip] == input[..ip - 32] + data;
    RunOpens(code', op, input, ip, full + 1);
  }

  /** Closes the run and writes a back reference; op' == 0 is the error return. */
  method EmitMatch(out: array<byte>, op: nat, lit: nat, input: seq<byte>, ip: nat, ref: nat, ghost full: nat)
    returns (op': nat, len: nat)
    requires Running(out[..], op, lit, input, ip, full) && Usable(input, ip, ref) && out.Length > 0
    modifies out
    ensures Longest(input, ip, ref, len) && ip + len <= |input|
    ensures op == out.Length && lit == 0 ==> op' == 0 && out[out.Length - 1] == 255
    ensures !(op == out.Length && lit == 0) ==> out[out.Length - 1] == old(out[out.Length - 1])
    ensures op' == 0 <==> ClosedAt(op, lit) + 4 >= out.Length - 1
    ensures op' > 0 ==> op' == ClosedAt(op, lit) + |BackToken(ip - ref - 1, len)| + 1
    ensures op' > 0 ==> op' < out.Length - 1 && Running(out[..], op', 0, input, ip + len, full)
  {
    hide Decodes, Repeats;
    len := MatchLength(input, ip, ref);
    RepeatBounds(input, ip, ip - ref, len);
    var p := CloseRun(out, op, lit, input, ip, full);
    if p + 4 >= out.Length - 1 {
      return 0, len;
    }
    ghost var code := out[..];
    var q := WriteBack(out, p, ip - ref - 1, len);
    MatchJoins(code, out[..], p, input, ip, ip - ref, len, full);
    op' := q + 1;
  }

  /** Where the output ends once the open run is closed, or taken back if it is empty. */
  function ClosedAt(op: nat, lit: nat): int {
    if lit == 0 then op - 1 else op
  }

  /** The two or three bytes of a back reference. */
  method WriteBack(out: array<byte>, p: nat, off: nat, len: nat) returns (q: nat)
    requires off < MAX_OFF && 3 <= len <= MAX_REF && p + 3 < out.Length
    modifies out
    ensures q == p + |BackToken(off, len)| <= p + 3
    ensures out[..][..q] == old(out[..p]) + BackToken(off, len)
    ensures forall i :: q <= i < out.Length ==> out[i] == old(out[i])
  {
    if len < 9 {
      out[p] := (off / 256 + (len - 2) * 32) as byte;
      q := p + 1;
    } else {
      out[p] := (off / 256 + 224) as byte;
      out[p + 1] := (len - 9) as byte;
      q := p + 2;
    }
    out[q] := (off % 256) as byte;
    q := q + 1;
  }

  lemma MatchJoins(code: seq<byte>, code': seq<byte>, p: nat, input: seq<byte>, ip: nat, dist: nat, len: nat, full: nat)
    requires Closed(code, p, input, ip) && Repeats(input, ip, dist, len)
    requires 1 <= dist <= MAX_OFF && 3 <= len <= MAX_REF
    requires var tok := BackToken(dist - 1, len);
      p + |tok| < |code'| && code'[..p + |tok|] == code[..p] + tok
    requires 32 * full <= ip && p <= ip + full + 1
    ensures Running(code', p + |BackToken(dist - 1, len)| + 1, 0, input, ip + len, full)
  {
    hide Decodes;
    var tok := BackToken(dist - 1, len);
    DecodesBack(code[..p], input, ip, dist, len);
    RunOpens(code', p + |tok|, input, ip + len, full);
  }

  /** No three bytes from a position before p on occur earlier within reach of a back reference. */
  ghost predicate NoRepeat(input: seq<byte>, p: nat) {
    forall i, j :: 0 <= i < j < p && j < |input| - 2 && j - i <= MAX_OFF ==> !SameThree(input, i, j)
  }

  predicate SameThree(input: seq<byte>, i: nat, j: nat)
    requires i + 2 < |input| && j + 2 < |input|
  {
    input[i] == input[j] && input[i + 1] == input[j + 1] && input[i + 2] == input[j + 2]
  }

  /** The length of an input in literal runs alone. */
  function LiteralSize(len: nat): nat {
    len + (len + 31) / 32
  }

  /** The room that literals alone ask for: up to three bytes are checked for before the last two are written. */
  function LiteralRoom(len: nat): nat {
    var k := if len < 2 then 0 else len - 2;
    k + k / 32 + 4
  }

  // ---- the byte past the room -------------------------------------------------------------

  /** The sizes of input and room for which the byte past the room may be written. */
  predicate MayOverrun(len: nat, room: nat) {
    33 <= room && 5 <= len && room <= len - 5 + (len - 5) / 32
  }

  /** The three bytes that a table slot stands for. */
  function Three(input: seq<byte>, i: nat): nat
    requires i + 2 < |input|
  {
    input[i] as nat * 65536 + input[i + 1] as nat * 256 + input[i + 2] as nat
  }

  /** The three bytes at p are those at ref, within reach, and no others in between fall into their slot. */
  ghost predicate Repeated(input: seq<byte>, p: nat, ref: nat) {
    && 0 < ref < p < |input| - 4 && p - ref <= MAX_OFF && SameThree(input, ref, p)
    && forall j :: ref < j < p ==> Slot(Three(input, j)) != Slot(Three(input, ref))
  }

  /** The first three bytes within reach to come again do so at p. */
  ghost predicate FirstRepeat(input: seq<byte>, p: nat) {
    NoRepeat(input, p) && exists ref :: Repeated(input, p, ref)
  }

  ghost function RefOf(input: seq<byte>, p: nat): (ref: nat)
    requires FirstRepeat(input, p)
    ensures Repeated(input, p, ref)
  {
    var ref: nat :| Repeated(input, p, ref); ref
  }

  /** The room is full runs of literals alone, and the first match comes right behind them. */
  ghost predicate Overruns(input: seq<byte>, room: nat) {
    room > 0 && room % 33 == 0 && FirstRepeat(input, 32 * (room / 33))
  }

  /** Literals so far, and the position that is repeated in the table once it has been passed. */
  ghost predicate Overrunning(input: seq<byte>, q: nat, op: nat, lit: nat, ip: nat, full: nat, hval: nat, htab: seq<int>) {
    && ip <= q < |input| - 4 && |htab| == HSIZE && Straight(op, lit, ip, full) && hval % 65536 == FirstHash(input, ip)
    && FirstRepeat(input, q) && (RefOf(input, q) < ip ==> htab[Slot(Three(input, RefOf(input, q)))] == RefOf(input, q))
  }

  lemma PastTheRoom(code: seq<byte>, op: nat, input: seq<byte>, ip: nat, full: nat)
    requires Running(code, op, 0, input, ip, full) && op >= 34 && ip + 4 < |input|
    ensures MayOverrun(|input|, op - 1)
  {
    assert full <= ip / 32 <= (|input| - 5) / 32;
  }

  lemma DivMod(x: int, m: int, q: int, r: int)
    requires m > 0 && x == m * q + r && 0 <= r < m
    ensures x / m == q && x % m == r
  {
    var d := x / m - q;
    assert m * d == r - x % m;
  }

  lemma SlotLow(k: int, t: nat)
    requires 0x100_0000 * k + t >= 0
    ensures Slot(0x100_0000 * k + t) == Slot(t)
  {
    var h := 0x100_0000 * k + t;
    DivMod(h, 256, 65536 * k + t / 256, t % 256);
    var x := t / 256 - t * 5;
    DivMod(h / 256 - h * 5, 65536, k - 1280 * k + x / 65536, x % 65536);
  }

  /** Only the last three bytes of a hash count. */
  lemma SlotOfThree(hval: nat, input: seq<byte>, ip: nat)
    requires ip + 2 < |input| && hval % 65536 == FirstHash(input, ip)
    ensures Slot(NextHash(hval, input[ip + 2])) == Slot(Three(input, ip))
    ensures NextHash(hval, input[ip + 2]) % 65536 == FirstHash(input, ip + 1)
  {
    hide Slot;
    var x, y, z := input[ip] as nat, input[ip + 1] as nat, input[ip + 2] as nat;
    var k := Shifted(hval, x, y, z);
    SlotLow(k, Three(input, ip));
  }

  /** The hash after one more byte, by its bytes. */
  lemma Shifted(hval: nat, x: nat, y: nat, z: nat) returns (k: int)
    requires hval % 65536 == 256 * x + y && x < 256 && y < 256 && z < 256
    ensures (hval * 256 + z) % 0x1_0000_0000 == 0x100_0000 * k + 65536 * x + 256 * y + z
    ensures (hval * 256 + z) % 0x1_0000_0000 % 65536 == 256 * y + z
  {
    var v := hval * 256 + z;
    k := hval / 65536 - 256 * (v / 0x1_0000_0000);
    assert hval == 65536 * (hval / 65536) + 256 * x + y;
    assert v == 0x1_0000_0000 * (v / 0x1_0000_0000) + v % 0x1_0000_0000;
    DivMod(v % 0x1_0000_0000, 65536, 256 * k + x, 256 * y + z);
  }

  /** Before the repeat nothing the table may hold is a match; there, the position repeated is. */
  lemma MatchComesThere(input: seq<byte>, room: nat, ip: nat, ref: int)
    requires Overruns(input, room)
    ensures ip < 32 * (room / 33) ==> !Usable(input, ip, ref)
    ensures var q := 32 * (room / 33);
      var r := RefOf(input, q);
      && 0 < r < q < |input| - 4 && Usable(input, q, r) && Three(input, q) == Three(input, r)
      && (r < ip < q ==> Slot(Three(input, ip)) != Slot(Three(input, r)))
  {
    hide Slot;
    var q := 32 * (room / 33);
    assert Repeated(input, q, RefOf(input, q));
    if ip < q && Usable(input, ip, ref) {
      UsableRepeats(input, ip, ref, q);
    }
  }

  /** Literals in front of the repeat find room, and the repeat finds it used up. */
  lemma RoomUsed(op: nat, lit: nat, ip: nat, full: nat, q: nat, room: nat)
    requires Straight(op, lit, ip, full) && ip <= q && room % 33 == 0 && q == 32 * (room / 33)
    ensures if ip < q then op < room else op == room + 1 && lit == 0
  {
    assert room == 33 * (room / 33);
  }

  // ---- one byte repeated ------------------------------------------------------------------

  /** All bytes are equal. */
  ghost predicate Flat(input: seq<byte>) {
    forall i, j :: 0 <= i < j < |input| ==> input[i] == input[j]
  }

  /** Room enough for such an input: three bytes for every match of 264, and some at the ends. */
  function FlatRoom(len: nat): nat {
    3 * (len / 264) + 16
  }

  /** Two literals, then m matches as long as they can be, then at most four literals; the table has the last position. */
  ghost predicate Flatly(input: seq<byte>, m: nat, op: nat, lit: nat, ip: nat, hval: nat, htab: seq<int>) {
    && ip <= |input| && |htab| == HSIZE && lit <= 6
    && (if m == 0 then lit == ip && op == ip + 1 && (ip > 2 ==> |input| <= 6)
        else op <= 4 + 3 * m + lit && (lit > 0 ==> |input| - (ip - lit) <= 4)
             && (ip == 264 * m + 2 + lit || (264 * (m - 1) + 2 < ip && |input| - ip <= 2 && lit == 0)))
    && (ip + 2 < |input| ==> hval % 65536 == FirstHash(input, ip) && (ip > 0 ==> htab[Slot(Three(input, 0))] == ip - 1))
  }

  lemma FlatThrees(input: seq<byte>, i: nat)
    requires Flat(input) && i + 2 < |input|
    ensures Three(input, i) == Three(input, 0)
  {
    assert input[i + 2] == input[0] || i + 2 == 0;
    assert i > 0 ==> input[0] == input[i];
    assert input[0] == input[i + 1] && (2 <= |input| ==> input[0] == input[1]) && input[0] == input[2];
  }

  /** The candidate is the position before, which is a match from the third byte on until four bytes are left. */
  lemma FlatCandidate(input: seq<byte>, m: nat, op: nat, lit: nat, ip: nat, hval: nat, htab: seq<int>)
    requires Flat(input) && Flatly(input, m, op, lit, ip, hval, htab) && ip + 2 < |input|
    ensures var h := NextHash(hval, input[ip + 2]);
      && Slot(h) == Slot(Three(input, 0)) && h % 65536 == FirstHash(input, ip + 1)
      && (Usable(input, ip, htab[Slot(h)]) <==> 2 <= ip < |input| - 4)
      && (2 <= ip < |input| - 4 ==> htab[Slot(h)] == ip - 1)
  {
    hide Slot, NextHash, Three;
    SlotOfThree(hval, input, ip);
    FlatThrees(input, ip);
    if 2 <= ip < |input| - 4 {
      assert input[ip - 1] == input[ip] && input[ip] == input[ip + 1] && input[ip + 1] == input[ip + 2];
    }
  }

  /** Matches of equal bytes are as long as they can be. */
  lemma FlatLongest(input: seq<byte>, ip: nat, len: nat)
    requires Flat(input) && 0 < ip && Longest(input, ip, ip - 1, len)
    ensures len == MAX_REF || |input| - (ip + len) <= 2
    ensures ip + len <= |input|
  {
    RepeatBounds(input, ip, 1, len);
  }

  /** As far as there is room for it, neither a literal nor a match finds the output full. */
  lemma FlatFits(input: seq<byte>, m: nat, op: nat, lit: nat, ip: nat, hval: nat, htab: seq<int>)
    requires Flatly(input, m, op, lit, ip, hval, htab)
    ensures op + 5 <= FlatRoom(|input|)
  {
    hide Slot, FirstHash, Three;
    if m > 0 {
      assert 264 * (m - 1) + 2 < |input|;
      assert m - 1 <= |input| / 264;
    }
  }

  // ---- the loop ---------------------------------------------------------------------------

  /** What is known of the two kinds of input that are followed to the end. */
  ghost predicate Course(input: seq<byte>, room: nat, m: nat, op: nat, lit: nat, ip: nat, full: nat, hval: nat, htab: seq<int>) {
    && (Overruns(input, room) ==> Overrunning(input, 32 * (room / 33), op, lit, ip, full, hval, htab))
    && (Flat(input) ==> Flatly(input, m, op, lit, ip, hval, htab))
  }

  lemma CourseBegins(input: seq<byte>, room: nat, hval: nat, htab: seq<int>)
    requires |htab| == HSIZE && (|input| >= 2 ==> hval == FirstHash(input, 0))
    ensures Course(input, room, 0, 1, 0, 0, 0, hval, htab)
  {
    hide NoRepeat;
  }

  lemma CourseLiteral(input: seq<byte>, room: nat, m: nat, op: nat, lit: nat, ip: nat, full: nat, hval: nat, htab: seq<int>,
                      op': nat, lit': nat, full': nat)
    requires ip + 2 < |input| && |htab| == HSIZE && Course(input, room, m, op, lit, ip, full, hval, htab)
    requires var h := NextHash(hval, input[ip + 2]); !Usable(input, ip, htab[Slot(h)])
    requires Straight(op, lit, ip, full) ==> Straight(op', lit', ip + 1, full')
    requires lit < 31 ==> op' == op + 1 && lit' == lit + 1
    ensures Overruns(input, room) || (Flat(input) && FlatRoom(|input|) <= room) ==> op < room
    ensures var h := NextHash(hval, input[ip + 2]);
      Course(input, room, m, op', lit', ip + 1, full', h, htab[Slot(h) := ip])
  {
    hide NoRepeat, FirstRepeat, Repeated, Slot, NextHash, Three, Usable, FirstHash;
    var h := NextHash(hval, input[ip + 2]);
    if Overruns(input, room) {
      var q := 32 * (room / 33);
      MatchComesThere(input, room, ip, htab[Slot(h)]);
      SlotOfThree(hval, input, ip);
      RoomUsed(op, lit, ip, full, q, room);
    }
    if Flat(input) {
      FlatCandidate(input, m, op, lit, ip, hval, htab);
      FlatFits(input, m, op, lit, ip, hval, htab);
    }
  }

  /** A match: the input that overruns does so here, and one of equal bytes goes on. */
  lemma CourseMatch(input: seq<byte>, room: nat, m: nat, op: nat, lit: nat, ip: nat, full: nat, hval: nat, htab: seq<int>,
                    op': nat, len: nat, hval': nat, htab': seq<int>)
    requires ip + 2 < |input| && |htab| == |htab'| == HSIZE && Course(input, room, m, op, lit, ip, full, hval, htab)
    requires var ref := htab[Slot(NextHash(hval, input[ip + 2]))];
      Usable(input, ip, ref) && Longest(input, ip, ref, len) && (op' > 0 ==> op' <= ClosedAt(op, lit) + 4)
    requires op' == 0 <==> ClosedAt(op, lit) + 4 >= room
    requires op' > 0 && ip + len + 2 < |input| ==> hval' % 65536 == FirstHash(input, ip + len) && htab'[Slot(Three(input, ip + len - 1))] == ip + len - 1
    ensures Overruns(input, room) ==> op == room + 1 && lit == 0 && op' == 0
    ensures Flat(input) && FlatRoom(|input|) <= room ==> op' > 0
    ensures op' > 0 ==> Course(input, room, m + 1, op', 0, ip + len, full, hval', htab')
  {
    hide NoRepeat, FirstRepeat, Repeated, Slot, NextHash, Three, Usable, FirstHash, Longest;
    var ref := htab[Slot(NextHash(hval, input[ip + 2]))];
    if Overruns(input, room) {
      MatchComesThere(input, room, ip, ref);
      RoomUsed(op, lit, ip, full, 32 * (room / 33), room);
    }
    if Flat(input) {
      FlatCandidate(input, m, op, lit, ip, hval, htab);
      FlatFits(input, m, op, lit, ip, hval, htab);
      FlatLongest(input, ip, len);
      if op' > 0 && ip + len + 2 < |input| {
        FlatThrees(input, ip + len - 1);
      }
    }
  }

  /**
   * The loop of `lzf_compress` that looks for matches, for any contents of the match table; op == 0 is its error
   * return, and `overran` says that the byte past the room was written.
   */
  method MatchLoop(input: seq<byte>, out: array<byte>, htab: array<int>)
    returns (op: nat, lit: nat, ip: nat, ghost full: nat, ghost overran: bool)
    requires input != [] && out.Length >= 2 && htab.Length == HSIZE
    modifies out, htab
    ensures op > 0 ==> !overran && Running(out[..], op, lit, input, ip, full) && |input| <= ip + 2
    ensures op > 0 && NoRepeat(input, |input|) ==> Straight(op, lit, ip, full) && ip == if |input| < 2 then 0 else |input| - 2
    ensures op == 0 && NoRepeat(input, |input|) ==> LiteralRoom(|input|) >= out.Length
    ensures out[out.Length - 1] == if overran then 255 else old(out[out.Length - 1])
    ensures overran ==> MayOverrun(|input|, out.Length - 1)
    ensures Overruns(input, out.Length - 1) ==> op == 0 && overran
    ensures Flat(input) && FlatRoom(|input|) < out.Length ==> 0 < op && op + 5 <= FlatRoom(|input|)
  {
    hide Running, Decodes, Slot, NextHash, NoRepeat, MayOverrun, Three, Course, Overruns, Flat, FlatRoom, Longest, Usable, BackToken, FirstHash;
    var outLen := out.Length - 1;
    RunningStarts(out[..], input);
    ip, op, lit, full, overran := 0, 1, 0, 0, false;
    ghost var m := 0;
    var hval: nat := if |input| >= 2 then FirstHash(input, 0) else 0;
    CourseBegins(input, outLen, hval, htab[..]);
    while ip + 2 < |input|
      invariant 0 <= ip <= |input| && 0 < op && Running(out[..], op, lit, input, ip, full)
      invariant out[out.Length - 1] == old(out[out.Length - 1]) && !overran
      invariant op == out.Length ==> op >= 34
      invariant Course(input, outLen, m, op, lit, ip, full, hval, htab[..])
      invariant NoRepeat(input, |input|) ==> Straight(op, lit, ip, full) && (|input| < 2 ==> ip == 0) && (|input| >= 2 ==> ip <= |input| - 2)
      decreases |input| - ip
    {
      ghost var h0, t0 := hval, htab[..];
      hval := NextHash(hval, input[ip + 2]);
      var ref := htab[Slot(hval)];
      htab[Slot(hval)] := ip;
      assert htab[..] == t0[Slot(hval) := ip];
      if Usable(input, ip, ref) {
        UsableRepeats(input, ip, ref, |input|);
        UsableBounds(input, ip, ref);
        if op == out.Length && lit == 0 {
          PastTheRoom(out[..], op, input, ip, full);
        }
        overran := op == out.Length && lit == 0;
        var op', len := EmitMatch(out, op, lit, input, ip, ref, full);
        LongestBounds(input, ip, ref, len);
        if op' > 0 && ip + len + 2 < |input| {
          hval := Remember(input, ip + len, htab);
        }
        CourseMatch(input, outLen, m, op, lit, ip, full, h0, t0, op', len, hval, htab[..]);
        if op' == 0 {
          op := 0;
          return;
        }
        op, lit, ip, m := op', 0, ip + len, m + 1;
      } else {
        ghost var op0, lit0, full0 := op, lit, full;
        if op >= outLen {
          CourseFull(input, outLen, m, op, lit, ip, full, h0, t0);
          op := 0;
          return;
        }
        op, lit, full := PushLiteral(out, op, lit, input, ip, full);
        CourseLiteral(input, outLen, m, op0, lit0, ip, full0, h0, t0, op, lit, full);
        ip := ip + 1;
      }
    }
    HasHead(out[..], op, lit, input, ip, full);
    CourseEnds(input, outLen, m, op, lit, ip, full, hval, htab[..]);
  }

  lemma UsableBounds(input: seq<byte>, ip: nat, ref: int)
    requires Usable(input, ip, ref)
    ensures 0 < ref < ip && ip - ref - 1 < MAX_OFF && ip + 4 < |input|
  {
  }

  lemma LongestBounds(input: seq<byte>, ip: nat, ref: nat, len: nat)
    requires Longest(input, ip, ref, len) && ip - ref - 1 < MAX_OFF
    ensures 3 <= len <= MAX_REF && ip + len <= |input| && |BackToken(ip - ref - 1, len)| <= 3
  {
  }

  lemma CourseFull(input: seq<byte>, room: nat, m: nat, op: nat, lit: nat, ip: nat, full: nat, hval: nat, htab: seq<int>)
    requires ip + 2 < |input| && |htab| == HSIZE && Course(input, room, m, op, lit, ip, full, hval, htab) && op >= room
    requires var h := NextHash(hval, input[ip + 2]); !Usable(input, ip, htab[Slot(h)])
    ensures !Overruns(input, room) && !(Flat(input) && FlatRoom(|input|) <= room)
  {
    hide NoRepeat, FirstRepeat, Repeated, Slot, NextHash, Three, Usable, FirstHash;
    var h := NextHash(hval, input[ip + 2]);
    if Overruns(input, room) {
      MatchComesThere(input, room, ip, htab[Slot(h)]);
      SlotOfThree(hval, input, ip);
    }
    if Flat(input) {
      FlatFits(input, m, op, lit, ip, hval, htab);
    }
  }

  lemma CourseEnds(input: seq<byte>, room: nat, m: nat, op: nat, lit: nat, ip: nat, full: nat, hval: nat, htab: seq<int>)
    requires Course(input, room, m, op, lit, ip, full, hval, htab) && |input| <= ip + 2
    ensures !Overruns(input, room) && (Flat(input) ==> op + 5 <= FlatRoom(|input|))
  {
    hide NoRepeat, Slot, Three;
    if Flat(input) {
      FlatFits(input, m, op, lit, ip, hval, htab);
    }
  }

  lemma HasHead(code: seq<byte>, op: nat, lit: nat, input: seq<byte>, ip: nat, full: nat)
    requires Running(code, op, lit, input, ip, full)
    ensures op > 0
  {
  }

  /**
   * `lzf_compress`, for any contents of the match table.  The output buffer is modelled with one byte more than
   * out_len, because the head of an empty run may lie just past its end when a match takes the run back; `overran`
   * says that the byte there was written.
   */
  method Compress(input: seq<byte>, out: array<byte>, htab: array<int>) returns (n: nat, ghost overran: bool)
    requires out.Length >= 1 && htab.Length == HSIZE
    modifies out, htab
    ensures n <= out.Length - 1
    ensures n > 0 ==> Decodes(out[..n], input)
    ensures n > 0 ==> n <= LiteralSize(|input|)
    ensures n > 0 && 25 * ((|input| + 31) / 32) < |input| ==> 100 * n < 104 * |input|
    ensures NoRepeat(input, |input|) && input != [] ==> n == if LiteralRoom(|input|) < out.Length then LiteralSize(|input|) else 0
    ensures if overran then n == 0 && out[out.Length - 1] == 255 else out[out.Length - 1] == old(out[out.Length - 1])
    ensures overran ==> MayOverrun(|input|, out.Length - 1)
    ensures Overruns(input, out.Length - 1) ==> overran
    ensures Flat(input) && input != [] && FlatRoom(|input|) < out.Length ==> 0 < n < FlatRoom(|input|)
  {
    hide Running, Decodes, NoRepeat, MayOverrun, Flat;
    var outLen := out.Length - 1;
    if |input| == 0 || outLen == 0 {
      return 0, false;
    }
    var op, lit, ip;
    ghost var full;
    op, lit, ip, full, overran := MatchLoop(input, out, htab);
    if op == 0 || op + 3 > outLen {
      return 0, overran;
    }
    n := FinishRun(out, op, lit, input, ip, full);
    PromiseExactly(|input|);
  }

  /** The last two positions of a match enter the table too. */
  method Remember(input: seq<byte>, ip: nat, htab: array<int>) returns (hval: nat)
    requires 2 <= ip < |input| - 1 && htab.Length == HSIZE
    modifies htab
    ensures hval % 65536 == FirstHash(input, ip)
    ensures htab[Slot(Three(input, ip - 1))] == ip - 1
    ensures Slot(Three(input, ip - 2)) != Slot(Three(input, ip - 1)) ==> htab[Slot(Three(input, ip - 2))] == ip - 2
  {
    hide Slot, NextHash;
    hval := FirstHash(input, ip - 2);
    SlotOfThree(hval, input, ip - 2);
    hval := NextHash(hval, input[ip]);
    htab[Slot(hval)] := ip - 2;
    SlotOfThree(hval, input, ip - 1);
    hval := NextHash(hval, input[ip + 1]);
    htab[Slot(hval)] := ip - 1;
  }

  lemma UsableRepeats(input: seq<byte>, ip: nat, ref: int, p: nat)
    requires Usable(input, ip, ref) && ip < p
    ensures !NoRepeat(input, p)
  {
    assert SameThree(input, ref, ip);
  }

  /** The last bytes, which are not looked up, and the end of the last run. */
  method FinishRun(out: array<byte>, op0: nat, lit0: nat, input: seq<byte>, ip0: nat, ghost full0: nat) returns (n: nat)
    requires Running(out[..], op0, lit0, input, ip0, full0) && op0 + 3 < out.Length
    requires |input| <= ip0 + 2 && input != []
    modifies out
    ensures n <= out.Length - 1 && Decodes(out[..n], input)
    ensures 0 < n <= op0 + 3
    ensures n <= LiteralSize(|input|) && (Straight(op0, lit0, ip0, full0) ==> n == LiteralSize(|input|))
    ensures out[out.Length - 1] == old(out[out.Length - 1])
  {
    hide Decodes;
    var op: nat, lit: nat, ip: nat := op0, lit0, ip0;
    ghost var full: nat := full0;
    while ip < |input|
      invariant ip0 <= ip <= |input| && Running(out[..], op, lit, input, ip, full)
      invariant op <= op0 + 2 * (ip - ip0) && (ip == ip0 + 1 && op == op0 + 2 ==> lit == 0)
      invariant ip == ip0 + 2 ==> op <= op0 + 3
      invariant Straight(op0, lit0, ip0, full0) ==> Straight(op, lit, ip, full)
      invariant out[out.Length - 1] == old(out[out.Length - 1])
    {
      op, lit, full := PushLiteral(out, op, lit, input, ip, full);
      ip := ip + 1;
    }
    n := CloseRun(out, op, lit, input, ip, full);
    assert out[..][..n] == out[..n] && input[..ip] == input;
    assert n == 0 ==> out[..n] == [];
    RunsSize(|input|, lit, full);
    EmptyCode(input);
  }

  lemma EmptyCode(input: seq<byte>)
    ensures Decodes([], input) ==> input == []
  {
  }

  /** The runs of an input, by their number. */
  lemma RunsSize(len: nat, lit: nat, full: nat)
    requires 32 * full <= len - lit && lit <= len
    ensures len + full + (if lit == 0 then 0 else 1) <= LiteralSize(len)
    ensures 32 * full == len - lit && lit < 32 ==> len + full + (if lit == 0 then 0 else 1) == LiteralSize(len)
  {
  }

  // ---- the promise of "less than 104%" ----------------------------------------------------

  /** Literals alone stay below 104% exactly for these lengths. */
  lemma PromiseExactly(len: nat)
    ensures 100 * LiteralSize(len) < 104 * len <==> 25 * ((len + 31) / 32) < len
    ensures 25 * ((len + 31) / 32) >= len <==>
              len <= 25 || 33 <= len <= 50 || 65 <= len <= 75 || 97 <= len <= 100
  {
  }

  /** For those lengths, every success keeps the promise. */
  lemma PromiseKept(len: nat, n: nat)
    requires n <= LiteralSize(len) && 25 * ((len + 31) / 32) < len
    ensures 100 * n < 104 * len
  {
    PromiseExactly(len);
  }

  /** Bytes that never repeat. */
  function Ramp(len: nat): (r: seq<byte>)
    requires len <= 256
    ensures |r| == len && NoRepeat(r, len)
  {
    seq(len, i requires 0 <= i < len => i as byte)
  }

  /** For every other length an input breaks the promise, whatever the match table holds. */
  method PromiseBroken(len: nat, out: array<byte>, htab: array<int>) returns (n: nat)
    requires 0 < len && 25 * ((len + 31) / 32) >= len && LiteralRoom(len) < out.Length && htab.Length == HSIZE
    modifies out, htab
    ensures n > 0 && 100 * n >= 104 * len
    ensures len == 1 ==> n == 2
  {
    PromiseExactly(len);
    ghost var overran;
    n, overran := Compress(Ramp(len), out, htab);
  }

  /** Whatever was compressed comes back, byte for byte, given room for it. */
  method CompressThenDecompress(input: seq<byte>, out: array<byte>, htab: array<int>, back: array<byte>)
    returns (n: nat, m: nat)
    requires out.Length >= 1 && htab.Length == HSIZE && back != out && back.Length >= |input|
    modifies out, htab, back
    ensures if n > 0 then m == |input| && back[..m] == input else m == 0
  {
    hide Expand;
    ghost var overran;
    n, overran := Compress(input, out, htab);
    m := 0;
    if n > 0 {
      m := Decompress(out[..n], back);
    }
  }

  // ---- inputs that do overrun -------------------------------------------------------------

  /** Bytes of which no three come again within reach: counting at even places, marking the count at odd ones. */
  function Weave(i: nat): byte {
    if i % 2 == 0 then (i / 2 % 128) as byte else (128 + i / 256 % 128) as byte
  }

  /** The weave, its last byte three more times, and anything behind. */
  function Woven(q: nat, len: nat): (r: seq<byte>)
    requires q > 0
    ensures |r| == len
  {
    seq(len, i requires 0 <= i < len => if i < q then Weave(i) else if i < q + 3 then Weave(q - 1) else 0)
  }

  lemma CountApart(a: nat, b: nat)
    requires a < b && a % 128 == b % 128 && a / 128 % 128 == b / 128 % 128
    ensures b - a >= 16384
  {
    assert a / 128 < b / 128;
  }

  lemma Sides(i: nat)
    ensures Weave(i) >= 128 <==> i % 2 == 1
  {
  }

  /** The count and its mark. */
  lemma MarkAt(e: nat)
    requires e % 2 == 0
    ensures Weave(e) as nat == e / 2 % 128 && Weave(e + 1) as nat == 128 + e / 2 / 128 % 128
  {
    assert (e + 1) / 256 == e / 2 / 128;
  }

  /** Two places of the weave that look alike are far apart. */
  lemma WeaveApart(i: nat, j: nat)
    requires i < j && Weave(i) == Weave(j) && Weave(i + 1) == Weave(j + 1) && Weave(i + 2) == Weave(j + 2)
    ensures j - i > MAX_OFF
  {
    hide Weave;
    Sides(i);
    Sides(j);
    var d := i % 2;
    MarkAt(i + d);
    MarkAt(j + d);
    CountApart((i + d) / 2, (j + d) / 2);
  }

  /** Places before the last byte of the weave are not like it and its repeats. */
  lemma TailApart(q: nat, len: nat, i: nat, j: nat)
    requires q > 1 && q % 2 == 0 && len > q + 4 && i < j < q <= j + 2
    ensures !SameThree(Woven(q, len), i, j)
  {
    hide Weave;
    Sides(q - 1);
    Sides(i);
    Sides(i + 1);
    Sides(i + 2);
  }

  lemma WovenRepeats(q: nat, len: nat)
    requires q > 1 && q % 2 == 0 && len > q + 4
    ensures FirstRepeat(Woven(q, len), q)
  {
    hide Weave, Woven;
    var r := Woven(q, len);
    forall i, j | 0 <= i < j < q && j < |r| - 2 && j - i <= MAX_OFF ensures !SameThree(r, i, j) {
      if j + 2 < q {
        WovenAt(q, len, i);
        WovenAt(q, len, j);
        if SameThree(r, i, j) {
          WeaveApart(i, j);
          assert false;
        }
      } else {
        TailApart(q, len, i, j);
      }
    }
    WovenEnd(q, len);
    assert Repeated(r, q, q - 1);
  }

  lemma WovenAt(q: nat, len: nat, i: nat)
    requires 0 < q < len && i + 2 < q
    ensures var r := Woven(q, len); r[i] == Weave(i) && r[i + 1] == Weave(i + 1) && r[i + 2] == Weave(i + 2)
  {
    hide Weave;
  }

  lemma WovenEnd(q: nat, len: nat)
    requires q > 0 && len > q + 4
    ensures var r := Woven(q, len); r[q - 1] == r[q] == r[q + 1] == r[q + 2]
  {
    hide Weave;
  }

  lemma WovenOverruns(k: nat, len: nat)
    requires k > 0 && len >= 32 * k + 5
    ensures Overruns(Woven(32 * k, len), 33 * k)
  {
    hide FirstRepeat, Woven;
    var q, room := 32 * k, 33 * k;
    DivMod(q, 2, 16 * k, 0);
    DivMod(room, 33, k, 0);
    WovenRepeats(q, len);
  }

  /**
    For room in whole runs of 33 and an input long enough, the byte past the room is written, whatever the table holds.
    By the bound that `Compress` gives, no shorter input does that.
   */
  method WritesPastTheRoom(k: nat, len: nat, out: array<byte>, htab: array<int>) returns (n: nat, ghost overran: bool)
    requires k > 0 && len >= 32 * k + 5 && out.Length == 33 * k + 1 && htab.Length == HSIZE
    modifies out, htab
    ensures overran && n == 0 && out[33 * k] == 255
  {
    hide Overruns, Woven, NoRepeat, Decodes, LiteralSize, LiteralRoom, MayOverrun;
    WovenOverruns(k, len);
    n, overran := Compress(Woven(32 * k, len), out, htab);
  }

  /** In whole runs of 33, the sizes that may overrun are those that do. */
  lemma RoomExactly(k: nat, len: nat)
    requires k > 0
    ensures MayOverrun(len, 33 * k) <==> len >= 32 * k + 5
  {
  }
}
