/** src/sds.c: what every form of word that `sdssplitargs` knows is read as, and which lines it refuses. */
module Splitting {
  import opened Prelude
  import opened Quoting

  // ---- spelling ---------------------------------------------------------------------------

  /** One byte between double quotes: by its hexadecimal digits, by its name, behind a backslash, or as it is. */
  datatype Unit = Hex(hi: nat, lo: nat, upHi: bool, upLo: bool) | Named(k: nat) | Escaped(c: byte) | Raw(c: byte)

  /** n, r, t, b and a, and what they name. */
  const NAMES: seq<byte> := [110, 114, 116, 98, 97]
  const NAMED: seq<byte> := [10, 13, 9, 8, 7]

  function Digit(n: nat, up: bool): byte
    requires n < 16
  {
    if n < 10 then (48 + n) as byte else if up then (55 + n) as byte else (87 + n) as byte
  }

  predicate UnitOk(u: Unit) {
    match u
    case Hex(hi, lo, _, _) => hi < 16 && lo < 16
    case Named(k) => k < |NAMES|
    case Escaped(c) => c != 0 && c != LETTER_X && c !in NAMES
    case Raw(c) => c != 0 && c != QUOTE && c != BACKSLASH
  }

  function Spelt(u: Unit): (s: seq<byte>)
    requires UnitOk(u)
    ensures s != []
  {
    match u
    case Hex(hi, lo, upHi, upLo) => [BACKSLASH, LETTER_X, Digit(hi, upHi), Digit(lo, upLo)]
    case Named(k) => [BACKSLASH, NAMES[k]]
    case Escaped(c) => [BACKSLASH, c]
    case Raw(c) => [c]
  }

  function Meant(u: Unit): byte
    requires UnitOk(u)
  {
    match u
    case Hex(hi, lo, _, _) => (16 * hi + lo) as byte
    case Named(k) => NAMED[k]
    case Escaped(c) => c
    case Raw(c) => c
  }

  predicate UnitsOk(us: seq<Unit>) {
    forall i :: 0 <= i < |us| ==> UnitOk(us[i])
  }

  function AllSpelt(us: seq<Unit>): seq<byte>
    requires UnitsOk(us)
  {
    if us == [] then [] else Spelt(us[0]) + AllSpelt(us[1..])
  }

  function AllMeant(us: seq<Unit>): seq<byte>
    requires UnitsOk(us)
  {
    if us == [] then [] else [Meant(us[0])] + AllMeant(us[1..])
  }

  /** Between single quotes only the apostrophe is written differently. */
  function Single1(c: byte): (s: seq<byte>)
    ensures s != []
  {
    if c == APOSTROPHE then [BACKSLASH, APOSTROPHE] else [c]
  }

  function SingleSpelt(text: seq<byte>): seq<byte> {
    if text == [] then [] else Single1(text[0]) + SingleSpelt(text[1..])
  }

  /** A word: bytes as they are, then possibly a quoted part, which ends it. */
  datatype Tail = NoTail | InDouble(us: seq<Unit>) | InSingle(text: seq<byte>)

  datatype Token = Token(bare: seq<byte>, tail: Tail)

  /** The blanks that end a word. */
  predicate Blank(c: byte) {
    c == SPACE || c == 9 || c == 10 || c == 13
  }

  predicate PlainChar(c: byte) {
    c != 0 && !Blank(c) && c != QUOTE && c != APOSTROPHE
  }

  predicate BareOk(bare: seq<byte>) {
    (forall i :: 0 <= i < |bare| ==> PlainChar(bare[i])) && (bare != [] ==> !IsSpace(bare[0]))
  }

  predicate NoNul(text: seq<byte>) {
    forall i :: 0 <= i < |text| ==> text[i] != 0
  }

  /** What can stand between single quotes: a backslash at the end would take the quote's meaning away. */
  predicate SingleOk(text: seq<byte>) {
    NoNul(text) && (text != [] ==> text[|text| - 1] != BACKSLASH)
  }

  predicate TokenOk(t: Token) {
    && BareOk(t.bare)
    && match t.tail
       case NoTail => t.bare != []
       case InDouble(us) => UnitsOk(us)
       case InSingle(text) => SingleOk(text)
  }

  /** Up to the closing quote. */
  function UpToDouble(bare: seq<byte>, us: seq<Unit>): seq<byte>
    requires UnitsOk(us)
  {
    bare + ([QUOTE] + AllSpelt(us))
  }

  function UpToSingle(bare: seq<byte>, text: seq<byte>): seq<byte> {
    bare + ([APOSTROPHE] + SingleSpelt(text))
  }

  function Spelling(t: Token): seq<byte>
    requires TokenOk(t)
  {
    match t.tail
    case NoTail => t.bare
    case InDouble(us) => UpToDouble(t.bare, us) + [QUOTE]
    case InSingle(text) => UpToSingle(t.bare, text) + [APOSTROPHE]
  }

  function Meaning(t: Token): seq<byte>
    requires TokenOk(t)
  {
    match t.tail
    case NoTail => t.bare
    case InDouble(us) => t.bare + AllMeant(us)
    case InSingle(text) => t.bare + text
  }

  // ---- scanning ---------------------------------------------------------------------------

  lemma Fits(line: seq<byte>, p: nat, s: seq<byte>)
    requires At(line, p, s)
    ensures p + |s| <= |line|
  {
  }

  lemma {:induction false} ScanBare(line: seq<byte>, p: nat, bare: seq<byte>, cur: seq<byte>)
    requires At(line, p, bare) && forall i :: 0 <= i < |bare| ==> PlainChar(bare[i])
    ensures p + |bare| <= |line| && Scan(line, p, Plain, cur) == Scan(line, p + |bare|, Plain, cur + bare)
    decreases |bare|
  {
    if bare == [] {
      assert cur + bare == cur;
    } else {
      assert bare == [bare[0]] + bare[1..];
      AtParts(line, p, [bare[0]], bare[1..]);
      CharIs(line, p, [bare[0]], 0);
      ScanBare(line, p + 1, bare[1..], cur + [bare[0]]);
      assert cur + [bare[0]] + bare[1..] == cur + bare;
    }
  }

  lemma DigitValue(n: nat, up: bool)
    requires n < 16
    ensures IsHex(Digit(n, up)) && HexValue(Digit(n, up)) as nat == n
  {
  }

  lemma ScanUnit(line: seq<byte>, p: nat, u: Unit, cur: seq<byte>)
    requires UnitOk(u) && At(line, p, Spelt(u))
    ensures p + |Spelt(u)| <= |line| && Scan(line, p, Double, cur) == Scan(line, p + |Spelt(u)|, Double, cur + [Meant(u)])
  {
    var s := Spelt(u);
    CharIs(line, p, s, 0);
    if |s| > 1 {
      CharIs(line, p, s, 1);
    }
    if u.Hex? {
      CharIs(line, p, s, 2);
      CharIs(line, p, s, 3);
      DigitValue(u.hi, u.upHi);
      DigitValue(u.lo, u.upLo);
    }
  }

  lemma {:induction false} ScanUnits(line: seq<byte>, p: nat, us: seq<Unit>, cur: seq<byte>)
    requires UnitsOk(us) && At(line, p, AllSpelt(us))
    ensures p + |AllSpelt(us)| <= |line| && Scan(line, p, Double, cur) == Scan(line, p + |AllSpelt(us)|, Double, cur + AllMeant(us))
    decreases |us|
  {
    hide Scan, Spelt, Meant, UnitOk;
    if us == [] {
      assert cur + [] == cur;
    } else {
      AtParts(line, p, Spelt(us[0]), AllSpelt(us[1..]));
      ScanUnit(line, p, us[0], cur);
      ScanUnits(line, p + |Spelt(us[0])|, us[1..], cur + [Meant(us[0])]);
      assert cur + [Meant(us[0])] + AllMeant(us[1..]) == cur + AllMeant(us);
    }
  }

  lemma ScanSingle1(line: seq<byte>, p: nat, c: byte, cur: seq<byte>)
    requires At(line, p, Single1(c)) && c != 0 && (c == BACKSLASH ==> CharAt(line, p + 1) != APOSTROPHE)
    ensures p + |Single1(c)| <= |line| && Scan(line, p, Single, cur) == Scan(line, p + |Single1(c)|, Single, cur + [c])
  {
    CharIs(line, p, Single1(c), 0);
    if c == APOSTROPHE {
      CharIs(line, p, Single1(c), 1);
    }
  }

  /** A quote behind a word's bytes opens a quoted part. */
  lemma QuoteOpens(line: seq<byte>, p: nat, cur: seq<byte>)
    requires p < |line|
    ensures CharAt(line, p) == QUOTE ==> Scan(line, p, Plain, cur) == Scan(line, p + 1, Double, cur)
    ensures CharAt(line, p) == APOSTROPHE ==> Scan(line, p, Plain, cur) == Scan(line, p + 1, Single, cur)
  {
  }

  lemma SingleStarts(text: seq<byte>)
    requires text != []
    ensures SingleSpelt(text) != [] && SingleSpelt(text)[0] == (if text[0] == APOSTROPHE then BACKSLASH else text[0])
  {
  }

  lemma {:induction false} ScanSingle(line: seq<byte>, p: nat, text: seq<byte>, cur: seq<byte>)
    requires At(line, p, SingleSpelt(text)) && NoNul(text)
    requires text != [] && text[|text| - 1] == BACKSLASH ==> CharAt(line, p + |SingleSpelt(text)|) != APOSTROPHE
    ensures p + |SingleSpelt(text)| <= |line|
    ensures Scan(line, p, Single, cur) == Scan(line, p + |SingleSpelt(text)|, Single, cur + text)
    decreases |text|
  {
    hide At, Scan;
    Fits(line, p, SingleSpelt(text));
    if text == [] {
      assert cur + text == cur;
    } else {
      var s, rest := Single1(text[0]), SingleSpelt(text[1..]);
      AtParts(line, p, s, rest);
      if |text| > 1 {
        SingleStarts(text[1..]);
        CharIs(line, p + |s|, rest, 0);
      }
      ScanSingle1(line, p, text[0], cur);
      ScanSingle(line, p + |s|, text[1..], cur + [text[0]]);
      assert cur + [text[0]] + text[1..] == cur + text;
    }
  }

  /** A word followed by a blank or the end is read as what it means; a quoted part may be followed by any space. */
  predicate Ends(line: seq<byte>, p: nat, t: Token) {
    CharAt(line, p) == 0 || Blank(CharAt(line, p)) || (t.tail != NoTail && IsSpace(CharAt(line, p)))
  }

  lemma ScanUpToDouble(line: seq<byte>, p: nat, bare: seq<byte>, us: seq<Unit>)
    requires BareOk(bare) && UnitsOk(us) && At(line, p, UpToDouble(bare, us))
    ensures var e := p + |UpToDouble(bare, us)|;
      e <= |line| && Scan(line, p, Plain, []) == Scan(line, e, Double, bare + AllMeant(us))
  {
    hide At, AllSpelt, AllMeant, UnitsOk, Scan;
    var q := p + |bare|;
    AtParts(line, p, bare, [QUOTE] + AllSpelt(us));
    ScanBare(line, p, bare, []);
    assert [] + bare == bare;
    AtParts(line, q, [QUOTE], AllSpelt(us));
    CharIs(line, q, [QUOTE], 0);
    Fits(line, q, [QUOTE]);
    QuoteOpens(line, q, bare);
    ScanUnits(line, q + 1, us, bare);
  }

  lemma ScanUpToSingle(line: seq<byte>, p: nat, bare: seq<byte>, text: seq<byte>)
    requires BareOk(bare) && NoNul(text) && At(line, p, UpToSingle(bare, text))
    requires text != [] && text[|text| - 1] == BACKSLASH ==> CharAt(line, p + |UpToSingle(bare, text)|) != APOSTROPHE
    ensures var e := p + |UpToSingle(bare, text)|;
      e <= |line| && Scan(line, p, Plain, []) == Scan(line, e, Single, bare + text)
  {
    hide At, SingleSpelt, NoNul, Scan;
    var q := p + |bare|;
    AtParts(line, p, bare, [APOSTROPHE] + SingleSpelt(text));
    ScanBare(line, p, bare, []);
    assert [] + bare == bare;
    AtParts(line, q, [APOSTROPHE], SingleSpelt(text));
    CharIs(line, q, [APOSTROPHE], 0);
    Fits(line, q, [APOSTROPHE]);
    QuoteOpens(line, q, bare);
    ScanSingle(line, q + 1, text, bare);
  }

  /** A closing quote ends the word in front of a space or the end, and is an error elsewhere; the end is an error too. */
  lemma ScanClose(line: seq<byte>, e: nat, mode: Mode, cur: seq<byte>)
    requires e <= |line| && mode != Plain
    ensures CharAt(line, e) == 0 ==> Scan(line, e, mode, cur) == None
    ensures e < |line| && CharAt(line, e) == (if mode == Double then QUOTE else APOSTROPHE) ==>
              Scan(line, e, mode, cur) ==
                if CharAt(line, e + 1) == 0 || IsSpace(CharAt(line, e + 1)) then Some((cur, e + 1)) else None
  {
  }

  lemma ScanDouble(line: seq<byte>, p: nat, bare: seq<byte>, us: seq<Unit>)
    requires BareOk(bare) && UnitsOk(us) && At(line, p, UpToDouble(bare, us) + [QUOTE])
    ensures var e := p + |UpToDouble(bare, us)| + 1;
      && e <= |line|
      && Scan(line, p, Plain, []) == if CharAt(line, e) == 0 || IsSpace(CharAt(line, e)) then Some((bare + AllMeant(us), e)) else None
  {
    hide AllMeant, UnitsOk, Scan, BareOk, UpToDouble;
    var w := UpToDouble(bare, us);
    AtParts(line, p, w, [QUOTE]);
    CharIs(line, p + |w|, [QUOTE], 0);
    ScanUpToDouble(line, p, bare, us);
    ScanClose(line, p + |w|, Double, bare + AllMeant(us));
  }

  lemma ScanSingles(line: seq<byte>, p: nat, bare: seq<byte>, text: seq<byte>)
    requires BareOk(bare) && SingleOk(text) && At(line, p, UpToSingle(bare, text) + [APOSTROPHE])
    ensures var e := p + |UpToSingle(bare, text)| + 1;
      && e <= |line|
      && Scan(line, p, Plain, []) == if CharAt(line, e) == 0 || IsSpace(CharAt(line, e)) then Some((bare + text, e)) else None
  {
    hide NoNul, Scan, BareOk, UpToSingle;
    var w := UpToSingle(bare, text);
    AtParts(line, p, w, [APOSTROPHE]);
    CharIs(line, p + |w|, [APOSTROPHE], 0);
    ScanUpToSingle(line, p, bare, text);
    ScanClose(line, p + |w|, Single, bare + text);
  }

  lemma ScanQuoted(line: seq<byte>, p: nat, t: Token)
    requires TokenOk(t) && t.tail != NoTail && At(line, p, Spelling(t))
    ensures var e := p + |Spelling(t)|;
      && e <= |line|
      && Scan(line, p, Plain, []) == if CharAt(line, e) == 0 || IsSpace(CharAt(line, e)) then Some((Meaning(t), e)) else None
  {
    hide At, AllMeant, UnitsOk, SingleOk, Scan, BareOk, UpToDouble, UpToSingle;
    if t.tail.InDouble? {
      ScanDouble(line, p, t.bare, t.tail.us);
    } else {
      ScanSingles(line, p, t.bare, t.tail.text);
    }
  }

  lemma ScanPlain(line: seq<byte>, p: nat, bare: seq<byte>)
    requires BareOk(bare) && At(line, p, bare)
    ensures var e := p + |bare|;
      && e <= |line|
      && (CharAt(line, e) == 0 ==> Scan(line, p, Plain, []) == Some((bare, e)))
      && (Blank(CharAt(line, e)) ==> Scan(line, p, Plain, []) == Some((bare, e + 1)))
  {
    hide At;
    ScanBare(line, p, bare, []);
    assert [] + bare == bare;
  }

  lemma ScanToken(line: seq<byte>, p: nat, t: Token)
    requires TokenOk(t) && At(line, p, Spelling(t)) && Ends(line, p + |Spelling(t)|, t)
    ensures var e := p + |Spelling(t)|;
      e <= |line| && Scan(line, p, Plain, []) == Some((Meaning(t), if t.tail == NoTail && CharAt(line, e) != 0 then e + 1 else e))
  {
    hide At, AllMeant, UnitsOk, SingleOk, Scan, BareOk, UpToDouble, UpToSingle;
    if t.tail == NoTail {
      ScanPlain(line, p, t.bare);
    } else {
      ScanQuoted(line, p, t);
    }
  }

  // ---- single quotes, exactly -------------------------------------------------------------

  lemma {:induction false} ScanExtends(line: seq<byte>, p: nat, mode: Mode, cur: seq<byte>)
    requires p <= |line|
    ensures Scan(line, p, mode, cur).Some? ==> cur <= Scan(line, p, mode, cur).value.0
    decreases |line| - p
  {
    var c := CharAt(line, p);
    match mode {
      case Double =>
        if HexEscape(line, p) {
          ScanExtends(line, p + 4, Double, cur + [HexValue(CharAt(line, p + 2)) * 16 + HexValue(CharAt(line, p + 3))]);
        } else if c == BACKSLASH && CharAt(line, p + 1) != 0 {
          ScanExtends(line, p + 2, Double, cur + [Unescape(CharAt(line, p + 1))]);
        } else if c != QUOTE && c != 0 {
          ScanExtends(line, p + 1, Double, cur + [c]);
        }
      case Single =>
        if c == BACKSLASH && CharAt(line, p + 1) == APOSTROPHE {
          ScanExtends(line, p + 2, Single, cur + [APOSTROPHE]);
        } else if c != APOSTROPHE && c != 0 {
          ScanExtends(line, p + 1, Single, cur + [c]);
        }
      case Plain =>
        if c == QUOTE {
          ScanExtends(line, p + 1, Double, cur);
        } else if c == APOSTROPHE {
          ScanExtends(line, p + 1, Single, cur);
        } else if c != 0 && !Blank(c) {
          ScanExtends(line, p + 1, Plain, cur + [c]);
        }
    }
  }

  lemma {:induction false} SingleSpeltSplits(a: seq<byte>, b: seq<byte>)
    ensures SingleSpelt(a + b) == SingleSpelt(a) + SingleSpelt(b)
  {
    if a == [] {
      assert a + b == b;
    } else {
      assert (a + b)[1..] == a[1..] + b;
      SingleSpeltSplits(a[1..], b);
    }
  }

  /**
    A single-quoted string, each apostrophe behind a backslash, followed by a space or the end, is read as that string if and
    only if it has no NUL and does not end in a backslash.
   */
  lemma SingleExactly(line: seq<byte>, p: nat, text: seq<byte>)
    requires At(line, p, [APOSTROPHE] + SingleSpelt(text) + [APOSTROPHE])
    requires var c := CharAt(line, p + |SingleSpelt(text)| + 2); c == 0 || IsSpace(c)
    ensures Scan(line, p, Plain, []) == Some((text, p + |SingleSpelt(text)| + 2)) <==> SingleOk(text)
  {
    hide At, SingleSpelt, Scan, NoNul;
    var e := p + 1 + |SingleSpelt(text)|;
    AtParts(line, p, [APOSTROPHE] + SingleSpelt(text), [APOSTROPHE]);
    AtParts(line, p, [APOSTROPHE], SingleSpelt(text));
    CharIs(line, p, [APOSTROPHE], 0);
    CharIs(line, e, [APOSTROPHE], 0);
    Fits(line, e, [APOSTROPHE]);
    Fits(line, p, [APOSTROPHE]);
    QuoteOpens(line, p, []);
    if NoNul(text) && (text == [] || text[|text| - 1] != BACKSLASH) {
      ScanSingle(line, p + 1, text, []);
      assert [] + text == text;
      ScanClose(line, e, Single, text);
    } else if NoNul(text) {
      BackslashOpens(line, p + 1, text);
    } else {
      NulRefuses(line, p + 1, text, []);
    }
  }

  /** A backslash at the end makes the closing quote part of the word. */
  lemma BackslashOpens(line: seq<byte>, p: nat, text: seq<byte>)
    requires At(line, p, SingleSpelt(text)) && NoNul(text) && text != [] && text[|text| - 1] == BACKSLASH
    requires CharAt(line, p + |SingleSpelt(text)|) == APOSTROPHE
    ensures Scan(line, p, Single, []).Some? ==> Scan(line, p, Single, []).value.0 != text
  {
    hide At, NoNul, Scan, SingleSpelt;
    Fits(line, p, SingleSpelt(text));
    var n := |text| - 1;
    var front := text[..n];
    assert text == front + [BACKSLASH];
    SingleSpeltSplits(front, [BACKSLASH]);
    LoneBackslash();
    AtParts(line, p, SingleSpelt(front), [BACKSLASH]);
    var q := p + |SingleSpelt(front)|;
    CharIs(line, q, [BACKSLASH], 0);
    assert NoNul(front) by {
      Prefix(text, n);
    }
    ScanSingle(line, p, front, []);
    assert [] + front == front;
    EscapedQuote(line, q, front);
    ScanExtends(line, q + 2, Single, front + [APOSTROPHE]);
    if Scan(line, p, Single, []).Some? {
      var word := Scan(line, p, Single, []).value.0;
      assert front + [APOSTROPHE] <= word;
      assert word[n] == (front + [APOSTROPHE])[n] == APOSTROPHE;
    }
  }

  lemma EscapedQuote(line: seq<byte>, q: nat, cur: seq<byte>)
    requires q < |line| && CharAt(line, q) == BACKSLASH && CharAt(line, q + 1) == APOSTROPHE
    ensures q + 2 <= |line| && Scan(line, q, Single, cur) == Scan(line, q + 2, Single, cur + [APOSTROPHE])
  {
  }

  lemma Prefix(text: seq<byte>, n: nat)
    requires NoNul(text) && n <= |text|
    ensures NoNul(text[..n])
  {
  }

  lemma LoneBackslash()
    ensures SingleSpelt([BACKSLASH]) == [BACKSLASH]
  {
  }

  lemma {:induction false} NulRefuses(line: seq<byte>, p: nat, text: seq<byte>, cur: seq<byte>)
    requires At(line, p, SingleSpelt(text)) && !NoNul(text)
    ensures Scan(line, p, Single, cur).None?
    decreases |text|
  {
    var s, rest := Single1(text[0]), SingleSpelt(text[1..]);
    AtParts(line, p, s, rest);
    CharIs(line, p, s, 0);
    if text[0] != 0 {
      if |s| > 1 {
        CharIs(line, p, s, 1);
      } else {
        CharIs(line, p + 1, rest, 0);
      }
      NulRefuses(line, p + |s|, text[1..], cur + [text[0]]);
    }
  }

  // ---- lines ------------------------------------------------------------------------------

  /** A word and the blanks behind it. */
  datatype Item = Item(token: Token, gap: seq<byte>)

  predicate Gap(gap: seq<byte>) {
    forall i :: 0 <= i < |gap| ==> Blank(gap[i])
  }

  predicate ItemsOk(items: seq<Item>) {
    forall i :: 0 <= i < |items| ==> TokenOk(items[i].token) && Gap(items[i].gap) && (i < |items| - 1 ==> items[i].gap != [])
  }

  function Written(items: seq<Item>): seq<byte>
    requires ItemsOk(items)
  {
    if items == [] then [] else Spelling(items[0].token) + items[0].gap + Written(items[1..])
  }

  function Meanings(items: seq<Item>): seq<seq<byte>>
    requires ItemsOk(items)
  {
    if items == [] then [] else [Meaning(items[0].token)] + Meanings(items[1..])
  }

  lemma {:induction false} SkipGap(line: seq<byte>, p: nat, gap: seq<byte>)
    requires At(line, p, gap) && forall i :: 0 <= i < |gap| ==> IsSpace(gap[i])
    ensures p + |gap| <= |line| && Split(line, p) == Split(line, p + |gap|)
    decreases |gap|
  {
    hide Split;
    if gap != [] {
      assert gap == [gap[0]] + gap[1..];
      AtParts(line, p, [gap[0]], gap[1..]);
      CharIs(line, p, [gap[0]], 0);
      SplitSkips(line, p);
      SkipGap(line, p + 1, gap[1..]);
    }
  }

  lemma SpellingStarts(t: Token)
    requires TokenOk(t)
    ensures Spelling(t) != [] && !IsSpace(Spelling(t)[0]) && Spelling(t)[0] != 0
  {
    hide AllSpelt, SingleSpelt;
  }

  lemma SplitToken(line: seq<byte>, p: nat, t: Token)
    requires TokenOk(t) && At(line, p, Spelling(t)) && Ends(line, p + |Spelling(t)|, t)
    ensures p + |Spelling(t)| <= |line| && Split(line, p) == Prepend([Meaning(t)], Split(line, p + |Spelling(t)|))
  {
    hide Scan, Spelling, TokenOk, Meaning;
    var e := p + |Spelling(t)|;
    ScanToken(line, p, t);
    SpellingStarts(t);
    CharIs(line, p, Spelling(t), 0);
    assert SkipSpaces(line, p) == p;
    if t.tail == NoTail && CharAt(line, e) != 0 {
      SplitSkips(line, e);
    }
  }

  /** Words of every form, with any blanks between them, are read as what they mean, whatever follows them. */
  lemma {:induction false} SplitItems(line: seq<byte>, p: nat, items: seq<Item>)
    requires ItemsOk(items) && At(line, p, Written(items)) && (p + |Written(items)| == |line| || (items != [] ==> items[|items| - 1].gap != []))
    ensures p + |Written(items)| <= |line| && Split(line, p) == Prepend(Meanings(items), Split(line, p + |Written(items)|))
    decreases |items|
  {
    hide At, Split, Spelling, Meaning, TokenOk;
    Fits(line, p, Written(items));
    if items == [] {
      NothingBefore(Split(line, p));
    } else {
      var w, gap, rest := Spelling(items[0].token), items[0].gap, Written(items[1..]);
      AtParts(line, p, w + gap, rest);
      AtParts(line, p, w, gap);
      var e := p + |w|;
      if gap != [] {
        CharIs(line, e, gap, 0);
      } else {
        assert rest == [];
      }
      SplitToken(line, p, items[0].token);
      SkipGap(line, e, gap);
      SplitItems(line, e + |gap|, items[1..]);
      PrependTwice([Meaning(items[0].token)], Meanings(items[1..]), Split(line, p + |Written(items)|));
    }
  }

  lemma NothingBefore(r: Option<seq<seq<byte>>>)
    ensures Prepend([], r) == r
  {
    if r.Some? {
      assert [] + r.value == r.value;
    }
  }

  lemma PrependTwice(a: seq<seq<byte>>, b: seq<seq<byte>>, r: Option<seq<seq<byte>>>)
    ensures Prepend(a, Prepend(b, r)) == Prepend(a + b, r)
  {
    if r.Some? {
      assert a + (b + r.value) == a + b + r.value;
    }
  }

  lemma AtWhole(line: seq<byte>)
    ensures At(line, 0, line)
  {
  }

  /** For every line of words in every form, bare, double-quoted, single-quoted and mixed, splitting gives what they mean. */
  lemma SplitReads(lead: seq<byte>, items: seq<Item>)
    requires ItemsOk(items) && forall i :: 0 <= i < |lead| ==> IsSpace(lead[i])
    ensures Split(lead + Written(items), 0) == Some(Meanings(items))
  {
    hide At, Split, Written, ItemsOk;
    var line := lead + Written(items);
    AtWhole(line);
    AtParts(line, 0, lead, Written(items));
    SkipGap(line, 0, lead);
    SplitItems(line, |lead|, items);
    SplitEnd(line);
    assert Meanings(items) + [] == Meanings(items);
  }

  // ---- lines that are refused -------------------------------------------------------------

  /** A quote that is not closed, or one closed right in front of another byte. */
  datatype Fault =
    | OpenDouble(bare: seq<byte>, us: seq<Unit>)
    | OpenSingle(bare: seq<byte>, text: seq<byte>)
    | Glued(token: Token, next: byte, rest: seq<byte>)

  predicate FaultOk(f: Fault) {
    match f
    case OpenDouble(bare, us) => BareOk(bare) && UnitsOk(us)
    case OpenSingle(bare, text) => BareOk(bare) && NoNul(text)
    case Glued(token, next, _) => TokenOk(token) && token.tail != NoTail && next != 0 && !IsSpace(next)
  }

  function FaultText(f: Fault): seq<byte>
    requires FaultOk(f)
  {
    match f
    case OpenDouble(bare, us) => UpToDouble(bare, us)
    case OpenSingle(bare, text) => UpToSingle(bare, text)
    case Glued(token, next, rest) => Spelling(token) + ([next] + rest)
  }

  lemma ScanFault(line: seq<byte>, p: nat, f: Fault)
    requires FaultOk(f) && At(line, p, FaultText(f)) && p + |FaultText(f)| == |line|
    ensures Scan(line, p, Plain, []).None?
  {
    hide At, AllSpelt, AllMeant, SingleSpelt, UnitsOk, NoNul, Scan, BareOk, UpToDouble, UpToSingle, Spelling, TokenOk;
    match f {
      case OpenDouble(bare, us) =>
        ScanUpToDouble(line, p, bare, us);
        ScanClose(line, |line|, Double, bare + AllMeant(us));
      case OpenSingle(bare, text) =>
        ScanUpToSingle(line, p, bare, text);
        ScanClose(line, |line|, Single, bare + text);
      case Glued(token, next, rest) =>
        AtParts(line, p, Spelling(token), [next] + rest);
        AtParts(line, p + |Spelling(token)|, [next], rest);
        CharIs(line, p + |Spelling(token)|, [next], 0);
        ScanQuoted(line, p, token);
    }
  }

  lemma FaultStarts(f: Fault)
    requires FaultOk(f)
    ensures FaultText(f) != [] && !IsSpace(FaultText(f)[0]) && FaultText(f)[0] != 0
  {
    hide AllSpelt, SingleSpelt, Spelling;
    if f.Glued? {
      SpellingStarts(f.token);
    }
  }

  /** Whatever stands in front, such a line is refused as a whole. */
  lemma SplitRefuses(lead: seq<byte>, items: seq<Item>, f: Fault)
    requires ItemsOk(items) && (forall i :: 0 <= i < |lead| ==> IsSpace(lead[i])) && FaultOk(f)
    requires items != [] ==> items[|items| - 1].gap != []
    ensures Split(lead + Written(items) + FaultText(f), 0) == None
  {
    hide At, Split, Written, ItemsOk, FaultText, FaultOk;
    var line := lead + Written(items) + FaultText(f);
    AtWhole(line);
    AtParts(line, 0, lead + Written(items), FaultText(f));
    AtParts(line, 0, lead, Written(items));
    SkipGap(line, 0, lead);
    SplitItems(line, |lead|, items);
    SplitFault(line, |lead| + |Written(items)|, f);
  }

  lemma SplitFault(line: seq<byte>, p: nat, f: Fault)
    requires FaultOk(f) && At(line, p, FaultText(f)) && p + |FaultText(f)| == |line|
    ensures Split(line, p) == None
  {
    hide Scan, FaultText, FaultOk;
    FaultStarts(f);
    CharIs(line, p, FaultText(f), 0);
    assert SkipSpaces(line, p) == p;
    ScanFault(line, p, f);
  }
}
