/** src/sds.c: quoting byte strings and splitting a line back into arguments. */
module Quoting {
  import opened Prelude

  const QUOTE: byte := 34
  const APOSTROPHE: byte := 39
  const BACKSLASH: byte := 92
  const SPACE: byte := 32
  const LETTER_X: byte := 120

  // ---- quoting ----------------------------------------------------------------------------

  /** `isprint` in the C locale. */
  predicate IsPrint(c: byte) {
    32 <= c <= 126
  }

  /** `%02x` of one nibble. */
  function HexDigit(n: byte): (c: byte)
    requires n < 16
    ensures IsHex(c) && HexValue(c) == n
  {
    if n < 10 then 48 + n else 87 + n
  }

  /** What `sdscatrepr` writes for one byte. */
  function Escape(c: byte): (r: seq<byte>)
    ensures r != [] && forall i :: 0 <= i < |r| ==> IsPrint(r[i])
  {
    if c == BACKSLASH || c == QUOTE then [BACKSLASH, c]
    else if c == 10 then [BACKSLASH, 110]
    else if c == 13 then [BACKSLASH, 114]
    else if c == 9 then [BACKSLASH, 116]
    else if c == 7 then [BACKSLASH, 97]
    else if c == 8 then [BACKSLASH, 98]
    else if IsPrint(c) then [c]
    else [BACKSLASH, LETTER_X, HexDigit(c / 16), HexDigit(c % 16)]
  }

  /** A printable byte is written as it is, unless it is a quote or a backslash; everything else behind a backslash. */
  lemma PrintableAsItIs(c: byte)
    ensures Escape(c) == [c] <==> 32 <= c <= 126 && c != QUOTE && c != BACKSLASH
    ensures Escape(c) != [c] ==> Escape(c)[0] == BACKSLASH && (|Escape(c)| == 2 <==> c in {QUOTE, BACKSLASH, 7, 8, 9, 10, 13})
  {
  }

  function Escapes(p: seq<byte>): (r: seq<byte>)
    ensures forall i :: 0 <= i < |r| ==> IsPrint(r[i])
  {
    if p == [] then [] else Escape(p[0]) + Escapes(p[1..])
  }

  /** The quoted form of a byte string. */
  function Repr(p: seq<byte>): (r: seq<byte>)
    ensures forall i :: 0 <= i < |r| ==> IsPrint(r[i])
  {
    [QUOTE] + Escapes(p) + [QUOTE]
  }

  /** `sdscatrepr`. */
  method CatRepr(s: seq<byte>, p: seq<byte>) returns (r: seq<byte>)
    ensures r == s + Repr(p)
  {
    hide Escape;
    r := s + [QUOTE];
    var i := 0;
    while i < |p|
      invariant 0 <= i <= |p|
      invariant r + Escapes(p[i..]) + [QUOTE] == s + Repr(p)
    {
      assert p[i..][1..] == p[i + 1..];
      r := r + Escape(p[i]);
      i := i + 1;
    }
    r := r + [QUOTE];
  }

  // ---- splitting --------------------------------------------------------------------------

  /** A C string read at a position: the terminator lies past the end. */
  function CharAt(line: seq<byte>, p: nat): byte {
    if p < |line| then line[p] else 0
  }

  predicate IsSpace(c: byte) {
    c == SPACE || 9 <= c <= 13
  }

  predicate IsHex(c: byte) {
    48 <= c <= 57 || 97 <= c <= 102 || 65 <= c <= 70
  }

  function HexValue(c: byte): (r: byte)
    requires IsHex(c)
    ensures r < 16
  {
    if c <= 57 then c - 48 else if c >= 97 then c - 87 else c - 55
  }

  function Unescape(c: byte): byte {
    if c == 110 then 10 else if c == 114 then 13 else if c == 116 then 9 else if c == 98 then 8 else if c == 97 then 7 else c
  }

  predicate HexEscape(line: seq<byte>, p: nat) {
    CharAt(line, p) == BACKSLASH && CharAt(line, p + 1) == LETTER_X && IsHex(CharAt(line, p + 2)) && IsHex(CharAt(line, p + 3))
  }

  datatype Mode = Plain | Double | Single

  /** One token from a position: its text and where scanning goes on, or unbalanced quotes. */
  function Scan(line: seq<byte>, p: nat, mode: Mode, cur: seq<byte>): (r: Option<(seq<byte>, nat)>)
    requires p <= |line|
    ensures r.Some? ==> p <= r.value.1 <= |line| && (CharAt(line, p) != 0 ==> p < r.value.1)
    decreases |line| - p
  {
    var c := CharAt(line, p);
    match mode
    case Double =>
      if HexEscape(line, p) then
        Scan(line, p + 4, Double, cur + [HexValue(CharAt(line, p + 2)) * 16 + HexValue(CharAt(line, p + 3))])
      else if c == BACKSLASH && CharAt(line, p + 1) != 0 then Scan(line, p + 2, Double, cur + [Unescape(CharAt(line, p + 1))])
      else if c == QUOTE then
        if CharAt(line, p + 1) != 0 && !IsSpace(CharAt(line, p + 1)) then None else Some((cur, p + 1))
      else if c == 0 then None
      else Scan(line, p + 1, Double, cur + [c])
    case Single =>
      if c == BACKSLASH && CharAt(line, p + 1) == APOSTROPHE then Scan(line, p + 2, Single, cur + [APOSTROPHE])
      else if c == APOSTROPHE then
        if CharAt(line, p + 1) != 0 && !IsSpace(CharAt(line, p + 1)) then None else Some((cur, p + 1))
      else if c == 0 then None
      else Scan(line, p + 1, Single, cur + [c])
    case Plain =>
      if c == SPACE || c == 10 || c == 13 || c == 9 then Some((cur, p + 1))
      else if c == 0 then Some((cur, p))
      else if c == QUOTE then Scan(line, p + 1, Double, cur)
      else if c == APOSTROPHE then Scan(line, p + 1, Single, cur)
      else Scan(line, p + 1, Plain, cur + [c])
  }

  function SkipSpaces(line: seq<byte>, p: nat): (r: nat)
    requires p <= |line|
    ensures p <= r <= |line| && !IsSpace(CharAt(line, r))
    decreases |line| - p
  {
    if IsSpace(CharAt(line, p)) then SkipSpaces(line, p + 1) else p
  }

  /** All the tokens from a position, or unbalanced quotes. */
  function Split(line: seq<byte>, p: nat): (r: Option<seq<seq<byte>>>)
    requires p <= |line|
    decreases |line| - p
  {
    var q := SkipSpaces(line, p);
    if CharAt(line, q) == 0 then Some([])
    else
      match Scan(line, q, Plain, [])
      case None => None
      case Some(t) =>
        Prepend([t.0], Split(line, t.1))
  }

  function Prepend(done: seq<seq<byte>>, rest: Option<seq<seq<byte>>>): (r: Option<seq<seq<byte>>>) {
    match rest case None => None case Some(tokens) => Some(done + tokens)
  }

  /** The inner loop of `sdssplitargs`, one character at a time. */
  method GetToken(line: seq<byte>, start: nat) returns (r: Option<(seq<byte>, nat)>)
    requires start <= |line|
    ensures r == Scan(line, start, Plain, [])
  {
    var inq, insq, done := false, false, false;
    var current: seq<byte> := [];
    var p := start;
    while !done
      invariant p <= |line| && !(inq && insq)
      invariant !done ==> Scan(line, p, if inq then Double else if insq then Single else Plain, current) == Scan(line, start, Plain, [])
      invariant done ==> Scan(line, start, Plain, []) == Some((current, p))
      decreases !done, |line| - p
    {
      var c := CharAt(line, p);
      if inq {
        if HexEscape(line, p) {
          current := current + [HexValue(CharAt(line, p + 2)) * 16 + HexValue(CharAt(line, p + 3))];
          p := p + 3;
        } else if c == BACKSLASH && CharAt(line, p + 1) != 0 {
          p := p + 1;
          current := current + [Unescape(CharAt(line, p))];
        } else if c == QUOTE {
          if CharAt(line, p + 1) != 0 && !IsSpace(CharAt(line, p + 1)) {
            return None;
          }
          done := true;
        } else if c == 0 {
          return None;
        } else {
          current := current + [c];
        }
      } else if insq {
        if c == BACKSLASH && CharAt(line, p + 1) == APOSTROPHE {
          p := p + 1;
          current := current + [APOSTROPHE];
        } else if c == APOSTROPHE {
          if CharAt(line, p + 1) != 0 && !IsSpace(CharAt(line, p + 1)) {
            return None;
          }
          done := true;
        } else if c == 0 {
          return None;
        } else {
          current := current + [c];
        }
      } else if c == SPACE || c == 10 || c == 13 || c == 9 || c == 0 {
        done := true;
      } else if c == QUOTE {
        inq := true;
      } else if c == APOSTROPHE {
        insq := true;
      } else {
        current := current + [c];
      }
      if CharAt(line, p) != 0 {
        p := p + 1;
      }
    }
    r := Some((current, p));
  }

  /** `sdssplitargs`. */
  method SplitArgs(line: seq<byte>) returns (r: Option<seq<seq<byte>>>)
    ensures r == Split(line, 0)
  {
    hide Scan;
    var vector: seq<seq<byte>> := [];
    var p := 0;
    assert Split(line, 0).Some? ==> [] + Split(line, 0).value == Split(line, 0).value;
    while true
      invariant p <= |line|
      invariant Split(line, 0) == Prepend(vector, Split(line, p))
      decreases |line| - p
    {
      ghost var before := p;
      while IsSpace(CharAt(line, p))
        invariant before <= p <= |line| && SkipSpaces(line, p) == SkipSpaces(line, before)
        decreases |line| - p
      {
        p := p + 1;
      }
      if CharAt(line, p) == 0 {
        assert vector + [] == vector;
        return Some(vector);
      }
      var token := GetToken(line, p);
      if token.None? {
        return None;
      }
      ghost var rest := Split(line, token.value.1);
      assert rest.Some? ==> vector + ([token.value.0] + rest.value) == vector + [token.value.0] + rest.value;
      vector := vector + [token.value.0];
      p := token.value.1;
    }
  }

  // ---- the round trip ---------------------------------------------------------------------

  lemma CharIs(line: seq<byte>, p: nat, s: seq<byte>, i: nat)
    requires At(line, p, s) && i < |s|
    ensures CharAt(line, p + i) == s[i]
  {
    assert line[p..p + |s|][i] == line[p + i];
  }

  /** One escaped byte is read back as that byte, whatever follows it. */
  lemma ScanEscape(line: seq<byte>, p: nat, c: byte, cur: seq<byte>)
    requires At(line, p, Escape(c))
    ensures p + |Escape(c)| <= |line|
    ensures Scan(line, p, Double, cur) == Scan(line, p + |Escape(c)|, Double, cur + [c])
  {
    var e := Escape(c);
    CharIs(line, p, e, 0);
    if |e| > 1 {
      CharIs(line, p, e, 1);
    }
    if |e| == 4 {
      CharIs(line, p, e, 2);
      CharIs(line, p, e, 3);
    }
  }

  lemma {:induction false} ScanEscapes(line: seq<byte>, p: nat, text: seq<byte>, cur: seq<byte>)
    requires At(line, p, Escapes(text))
    ensures p + |Escapes(text)| <= |line|
    ensures Scan(line, p, Double, cur) == Scan(line, p + |Escapes(text)|, Double, cur + text)
    decreases |text|
  {
    hide Escape, Scan;
    if text == [] {
      assert cur + text == cur;
    } else {
      AtParts(line, p, Escape(text[0]), Escapes(text[1..]));
      ScanEscape(line, p, text[0], cur);
      ScanEscapes(line, p + |Escape(text[0])|, text[1..], cur + [text[0]]);
      assert cur + [text[0]] + text[1..] == cur + text;
    }
  }

  /** A quoted string followed by a space or the end is one token: the string. */
  lemma ScanRepr(line: seq<byte>, p: nat, text: seq<byte>)
    requires At(line, p, Repr(text))
    requires CharAt(line, p + |Repr(text)|) == 0 || IsSpace(CharAt(line, p + |Repr(text)|))
    ensures Scan(line, p, Plain, []) == Some((text, p + |Repr(text)|))
  {
    hide Escape, Escapes;
    AtParts(line, p, [QUOTE] + Escapes(text), [QUOTE]);
    AtParts(line, p, [QUOTE], Escapes(text));
    CharIs(line, p, [QUOTE], 0);
    ScanEscapes(line, p + 1, text, []);
    CharIs(line, p + 1 + |Escapes(text)|, [QUOTE], 0);
    assert [] + text == text;
  }

  /** Quoted forms joined by single spaces. */
  function Joined(args: seq<seq<byte>>): seq<byte> {
    if args == [] then []
    else if |args| == 1 then Repr(args[0])
    else Repr(args[0]) + [SPACE] + Joined(args[1..])
  }

  /** A quoted string in front: its text, then the tokens of the rest. */
  lemma SplitRepr(line: seq<byte>, p: nat, text: seq<byte>)
    requires At(line, p, Repr(text))
    requires CharAt(line, p + |Repr(text)|) == 0 || IsSpace(CharAt(line, p + |Repr(text)|))
    ensures Split(line, p) == Prepend([text], Split(line, p + |Repr(text)|))
  {
    hide Repr, Scan;
    ScanRepr(line, p, text);
    ReprStarts(text);
    CharIs(line, p, Repr(text), 0);
    assert SkipSpaces(line, p) == p;
  }

  lemma {:induction false} SplitJoined(line: seq<byte>, p: nat, args: seq<seq<byte>>)
    requires At(line, p, Joined(args)) && p + |Joined(args)| == |line|
    ensures Split(line, p) == Some(args)
    decreases |args|
  {
    hide Repr, Split;
    if args == [] {
      SplitEnd(line);
    } else {
      var r := Repr(args[0]);
      if |args| > 1 {
        AtParts(line, p, r + [SPACE], Joined(args[1..]));
        AtParts(line, p, r, [SPACE]);
        CharIs(line, p + |r|, [SPACE], 0);
        SplitRepr(line, p, args[0]);
        SplitSkips(line, p + |r|);
        SplitJoined(line, p + |r| + 1, args[1..]);
        assert [args[0]] + args[1..] == args;
      } else {
        SplitRepr(line, p, args[0]);
        SplitEnd(line);
        assert [args[0]] + [] == args;
      }
    }
  }

  lemma SplitEnd(line: seq<byte>)
    ensures Split(line, |line|) == Some([])
  {
  }

  lemma ReprStarts(text: seq<byte>)
    ensures Repr(text) != [] && Repr(text)[0] == QUOTE
  {
  }

  /** Leading spaces make no difference. */
  lemma SplitSkips(line: seq<byte>, p: nat)
    requires p < |line| && IsSpace(CharAt(line, p))
    ensures Split(line, p) == Split(line, p + 1)
  {
    hide Scan;
  }

  /** Whatever the bytes, the quoted forms of a list split back into that list. */
  lemma {:induction false} SplitInvertsQuoting(args: seq<seq<byte>>)
    ensures Split(Joined(args), 0) == Some(args)
  {
    hide Split;
    assert Joined(args)[0..0 + |Joined(args)|] == Joined(args);
    SplitJoined(Joined(args), 0, args);
  }
}
