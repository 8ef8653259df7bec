/** src/networking.c: the incremental parser of client requests, fed by reads of any size. */
module RequestParser {
  import opened Prelude
  import opened Decimal
  import opened Resp
  import Quoting
  import Splitting

  const IOBUF_LEN: nat := 16384
  const INLINE_MAX_SIZE: nat := 65536
  const MBULK_BIG_ARG: nat := 32768
  const MAX_ARGS: nat := 1048576
  const MAX_ARG_LEN: nat := 536870912
  const CR: byte := 13
  const LF: byte := 10

  type Cmd = seq<seq<byte>>

  // ---- header lines -----------------------------------------------------------------------

  /** `strchr`, which stops at a NUL. */
  function StrChr(buf: seq<byte>, pos: nat, c: byte): (r: Option<nat>)
    requires pos <= |buf|
    ensures r.Some? ==> pos <= r.value < |buf| && buf[r.value] == c
    decreases |buf| - pos
  {
    if pos == |buf| || buf[pos] == 0 then None
    else if buf[pos] == c then Some(pos)
    else StrChr(buf, pos + 1, c)
  }

  /** What a header line at a position turns out to be. */
  datatype Line = NoNewline | NoLineFeed | Line(text: seq<byte>, next: nat)

  /** The text after the mark, up to the carriage return, and where the line ends. */
  function LineAt(buf: seq<byte>, pos: nat): (r: Line)
    requires pos <= |buf|
    ensures r.Line? ==> pos < r.next <= |buf| && pos < |buf|
  {
    match StrChr(buf, pos, CR)
    case None => NoNewline
    case Some(nl) =>
      if nl + 2 > |buf| then NoLineFeed
      else Line(if nl == pos then [] else buf[pos + 1..nl], nl + 2)
  }

  lemma {:induction false} CrFound(buf: seq<byte>, pos: nat, nl: nat)
    requires pos <= nl < |buf| && buf[nl] == 13
    requires forall i :: pos <= i < nl ==> buf[i] != 13 && buf[i] != 0
    ensures StrChr(buf, pos, CR) == Some(nl)
    decreases nl - pos
  {
    if pos < nl {
      CrFound(buf, pos + 1, nl);
    }
  }

  lemma {:induction false} CrMissing(buf: seq<byte>, pos: nat)
    requires pos <= |buf| && forall i :: pos <= i < |buf| ==> buf[i] != 13 && buf[i] != 0
    ensures StrChr(buf, pos, CR) == None
    decreases |buf| - pos
  {
    if pos < |buf| {
      CrMissing(buf, pos + 1);
    }
  }

  function Header(mark: byte, n: nat): seq<byte> {
    [mark] + Digits(n) + CRLF
  }

  /** A header that has arrived whole is read; one that has not is waited for. */
  lemma HeaderArrives(buf: seq<byte>, pos: nat, future: seq<byte>, mark: byte, n: nat, rest: seq<byte>)
    requires pos <= |buf| && mark != 13 && mark != 0
    requires buf[pos..] + future == Header(mark, n) + rest
    ensures |buf| - pos >= |Header(mark, n)| ==>
              LineAt(buf, pos) == Line(Digits(n), pos + |Header(mark, n)|) && buf[pos] == mark
              && buf[pos + |Header(mark, n)|..] + future == rest
    ensures |buf| - pos < |Header(mark, n)| ==> LineAt(buf, pos).NoNewline? || LineAt(buf, pos).NoLineFeed?
  {
    hide Digits, StrChr;
    var h, d := Header(mark, n), Digits(n);
    var k, nl := |buf| - pos, pos + 1 + |d|;
    forall i | pos <= i < nl && i < |buf| ensures buf[i] != 13 && buf[i] != 0 {
      ArrivedByte(buf, pos, future, h, rest, i - pos);
    }
    if k >= |h| - 1 {
      ArrivedByte(buf, pos, future, h, rest, 1 + |d|);
      ArrivedByte(buf, pos, future, h, rest, 0);
      CrFound(buf, pos, nl);
    } else {
      CrMissing(buf, pos);
    }
    if k >= |h| {
      forall i | 0 <= i < |d| ensures buf[pos + 1..nl][i] == d[i] {
        ArrivedByte(buf, pos, future, h, rest, 1 + i);
      }
      assert buf[pos + 1..nl] == d;
      assert buf[pos + |h|..] + future == (buf[pos..] + future)[|h|..];
    }
  }

  lemma ArrivedByte(buf: seq<byte>, pos: nat, future: seq<byte>, h: seq<byte>, rest: seq<byte>, i: nat)
    requires pos <= |buf| && buf[pos..] + future == h + rest && i < |buf| - pos && i < |h|
    ensures buf[pos + i] == h[i]
  {
    assert (buf[pos..] + future)[i] == buf[pos..][i] && (h + rest)[i] == h[i];
  }

  // ---- the stream and the parser's place in it --------------------------------------------

  predicate Legal(cmd: Cmd) {
    1 <= |cmd| <= MAX_ARGS && forall i :: 0 <= i < |cmd| ==> |cmd[i]| <= MAX_ARG_LEN
  }

  /** The bytes of a list of commands. */
  function Stream(cmds: seq<Cmd>): seq<byte> {
    if cmds == [] then [] else Frame(cmds[0]) + Stream(cmds[1..])
  }

  /** What is still to be parsed after n commands and k arguments of the next, in the parser's state. */
  ghost function Ahead(cmds: seq<Cmd>, n: nat, k: nat, multibulklen: nat, bulklen: int): seq<byte>
    requires n <= |cmds|
    requires multibulklen > 0 ==> n < |cmds| && k + multibulklen == |cmds[n]|
  {
    if multibulklen == 0 then Stream(cmds[n..])
    else if bulklen == -1 then Args(cmds[n][k..]) + Stream(cmds[n + 1..])
    else cmds[n][k] + CRLF + (Args(cmds[n][k + 1..]) + Stream(cmds[n + 1..]))
  }

  /** The parser has read the stream correctly so far; `buf` and `future` are what is left of it. */
  ghost predicate Tracks(cmds: seq<Cmd>, n: nat, argv: Cmd, multibulklen: nat, bulklen: int, buf: seq<byte>, future: seq<byte>)
  {
    && n <= |cmds| && (forall i :: 0 <= i < |cmds| ==> Legal(cmds[i]))
    && (multibulklen == 0 ==> argv == [] && bulklen == -1)
    && (multibulklen > 0 ==>
          && n < |cmds| && |argv| + multibulklen == |cmds[n]| && argv == cmds[n][..|argv|]
          && (bulklen != -1 ==> bulklen == |cmds[n][|argv|]|))
    && buf + future == Ahead(cmds, n, |argv|, multibulklen, bulklen)
  }

  /** The next command's header. */
  lemma AheadCount(cmds: seq<Cmd>, n: nat)
    requires n < |cmds|
    ensures Stream(cmds[n..]) == Header(STAR, |cmds[n]|) + (Args(cmds[n]) + Stream(cmds[n + 1..]))
  {
    hide Digits, Args;
    assert cmds[n..][1..] == cmds[n + 1..];
  }

  /** The next argument's header. */
  lemma AheadBulk(cmds: seq<Cmd>, n: nat, k: nat)
    requires n < |cmds| && k < |cmds[n]|
    ensures Args(cmds[n][k..]) + Stream(cmds[n + 1..])
         == Header(DOLLAR, |cmds[n][k]|) + (cmds[n][k] + CRLF + (Args(cmds[n][k + 1..]) + Stream(cmds[n + 1..])))
  {
    hide Digits, Args, Stream;
    ArgsFirst(cmds[n][k..]);
    assert cmds[n][k..][1..] == cmds[n][k + 1..];
  }

  lemma ArgFits(cmds: seq<Cmd>, n: nat, k: nat)
    requires n < |cmds| && Legal(cmds[n]) && k < |cmds[n]|
    ensures |cmds[n][k]| <= MAX_ARG_LEN
  {
  }

  lemma HeaderShort(mark: byte, n: nat)
    requires n <= MAX_ARG_LEN
    ensures 4 <= |Header(mark, n)| <= 20
  {
    hide Digits;
    Digits10Counts(n);
  }

  /** The length of the piece the parser is waiting for. */
  ghost function PieceLen(cmds: seq<Cmd>, n: nat, k: nat, multibulklen: nat, bulklen: int): nat
    requires multibulklen == 0 ==> n < |cmds|
    requires multibulklen > 0 ==> n < |cmds| && k < |cmds[n]|
  {
    if multibulklen == 0 then |Header(STAR, |cmds[n]|)|
    else if bulklen == -1 then |Header(DOLLAR, |cmds[n][k]|)|
    else |cmds[n][k]| + 2
  }

  /** The parser has used all it could of what has arrived. */
  ghost predicate Waits(cmds: seq<Cmd>, n: nat, k: nat, multibulklen: nat, bulklen: int, have: int) {
    && n <= |cmds|
    && (multibulklen > 0 ==> n < |cmds| && k < |cmds[n]|)
    && if multibulklen == 0 && n == |cmds| then have == 0 else have < PieceLen(cmds, n, k, multibulklen, bulklen)
  }

  lemma WaitForArg(cmds: seq<Cmd>, n: nat, argv: Cmd, multibulklen: nat, bulklen: int, buf: seq<byte>, future: seq<byte>)
    requires Tracks(cmds, n, argv, multibulklen, bulklen, buf, future)
    requires multibulklen > 0 && bulklen >= 0 && |buf| < bulklen + 2
    ensures Waits(cmds, n, |argv|, multibulklen, bulklen, |buf|)
  {
  }

  lemma Underway(cmds: seq<Cmd>, n: nat, argv: Cmd, multibulklen: nat, bulklen: int, buf: seq<byte>, future: seq<byte>)
    requires Tracks(cmds, n, argv, multibulklen, bulklen, buf, future) && multibulklen > 0
    ensures n < |cmds|
  {
  }

  datatype Status = Wait | Fail | Go

  /** A count is refused when it is too long in coming, no 64-bit number, or over the limit. */
  ghost predicate RefusesCount(buf: seq<byte>) {
    match LineAt(buf, 0)
    case NoNewline => |buf| > INLINE_MAX_SIZE
    case NoLineFeed => false
    case Line(text, _) => ParseLl(text).None? || ParseLl(text).value > MAX_ARGS
  }

  /** A length is refused when it is too long in coming, unmarked, no 64-bit number, or out of range. */
  ghost predicate RefusesLength(buf: seq<byte>, pos: nat)
    requires pos <= |buf|
  {
    match LineAt(buf, pos)
    case NoNewline => |buf| > INLINE_MAX_SIZE
    case NoLineFeed => false
    case Line(text, _) => buf[pos] != DOLLAR || ParseLl(text).None? || !(0 <= ParseLl(text).value <= MAX_ARG_LEN)
  }

  datatype ReqType = Unknown | Inline | Multibulk

  /** The buffer is short enough for no limit to be hit, or holds part of one big argument. */
  predicate Bounded(len: nat, multibulklen: nat, bulklen: int) {
    len <= 3 * IOBUF_LEN || (multibulklen > 0 && bulklen >= MBULK_BIG_ARG && len <= bulklen + 2)
  }

  class Client {
    var querybuf: seq<byte>
    var reqtype: ReqType
    var multibulklen: nat
    var bulklen: int
    var argv: Cmd
    var closing: bool
    var executed: seq<Cmd>

    constructor ()
      ensures querybuf == [] && reqtype == Unknown && multibulklen == 0 && bulklen == -1 && argv == []
      ensures !closing && executed == []
    {
      querybuf, reqtype, multibulklen, bulklen, argv, closing, executed := [], Unknown, 0, -1, [], false, [];
    }

    /** Tracking from position pos of the buffer. */
    ghost predicate On(cmds: seq<Cmd>, future: seq<byte>, pos: nat)
      reads this
    {
      pos <= |querybuf| && Tracks(cmds, |executed|, argv, multibulklen, bulklen, querybuf[pos..], future)
    }

    ghost predicate Waiting(cmds: seq<Cmd>, pos: nat)
      reads this
    {
      Waits(cmds, |executed|, |argv|, multibulklen, bulklen, |querybuf| - pos)
    }

    /** The part of `processMultibulkBuffer` that reads the number of arguments. */
    method ReadCount(ghost cmds: seq<Cmd>, ghost future: seq<byte>) returns (st: Status, pos: nat)
      requires multibulklen == 0 && querybuf != [] && querybuf[0] == STAR
      modifies this`multibulklen, this`closing
      ensures pos <= |querybuf| && (st != Fail ==> closing == old(closing))
      ensures st != Go ==> multibulklen == 0
      ensures st == Go ==> pos > 0
      ensures st == Fail <==> RefusesCount(querybuf)
      ensures st == Fail ==> closing
      ensures old(On(cmds, future, 0)) && |executed| < |cmds| && |querybuf| <= INLINE_MAX_SIZE ==>
                && st != Fail
                && (st == Wait ==> pos == 0 && On(cmds, future, 0) && Waiting(cmds, 0))
                && (st == Go ==> multibulklen > 0 && On(cmds, future, pos))
    {
      hide Digits, LineAt, Header, Args, Stream, ParseLl;
      ghost var on := On(cmds, future, 0) && |executed| < |cmds| && |querybuf| <= INLINE_MAX_SIZE;
      ghost var n := |executed|;
      if on {
        AheadCount(cmds, n);
        assert querybuf[0..] == querybuf;
        HeaderArrives(querybuf, 0, future, STAR, |cmds[n]|, Args(cmds[n]) + Stream(cmds[n + 1..]));
        CountReads(|cmds[n]|);
      }
      pos := 0;
      var line := LineAt(querybuf, 0);
      match line {
        case NoNewline =>
          if |querybuf| > INLINE_MAX_SIZE {
            closing := true;
            return Fail, 0;
          }
          return Wait, 0;
        case NoLineFeed => return Wait, 0;
        case Line(text, next) =>
          var ll := StringToLl(text);
          if ll.None? || ll.value > MAX_ARGS {
            closing := true;
            return Fail, 0;
          }
          pos := next;
          if ll.value <= 0 {
            return Go, pos;
          }
          multibulklen := ll.value;
          if on {
            assert cmds[n][0..] == cmds[n];
          }
          st := Go;
      }
    }

    /** The part that reads an argument's length, leaving a big argument at the buffer's start. */
    method ReadBulkLen(pos: nat, ghost cmds: seq<Cmd>, ghost future: seq<byte>) returns (st: Status, pos': nat)
      requires multibulklen > 0 && bulklen == -1 && pos <= |querybuf|
      modifies this`querybuf, this`bulklen, this`closing
      ensures pos' <= |querybuf| <= old(|querybuf|) && (st != Fail ==> closing == old(closing))
      ensures st == Wait ==> querybuf == old(querybuf) && pos' == pos
      ensures st != Go ==> bulklen == -1
      ensures st == Fail <==> old(RefusesLength(querybuf, pos))
      ensures st == Fail ==> closing
      ensures st == Go ==> bulklen >= 0
      ensures old(On(cmds, future, pos)) && old(|querybuf|) <= INLINE_MAX_SIZE ==>
                && st != Fail && On(cmds, future, pos') && (st == Wait ==> Waiting(cmds, pos'))
    {
      hide Digits, LineAt, Header, Args, Stream, ParseLl, Legal;
      ghost var on := On(cmds, future, pos) && |querybuf| <= INLINE_MAX_SIZE;
      ghost var n, k := |executed|, |argv|;
      if on {
        AheadBulk(cmds, n, k);
        HeaderArrives(querybuf, pos, future, DOLLAR, |cmds[n][k]|, cmds[n][k] + CRLF + (Args(cmds[n][k + 1..]) + Stream(cmds[n + 1..])));
        ArgFits(cmds, n, k);
        CountReads(|cmds[n][k]|);
      }
      pos' := pos;
      var line := LineAt(querybuf, pos);
      match line {
        case NoNewline =>
          if |querybuf| > INLINE_MAX_SIZE {
            closing := true;
            return Fail, 0;
          }
          return Wait, pos;
        case NoLineFeed => return Wait, pos;
        case Line(text, next) =>
          if querybuf[pos] != DOLLAR {
            closing := true;
            return Fail, pos;
          }
          var ll := StringToLl(text);
          if ll.None? || ll.value < 0 || ll.value > MAX_ARG_LEN {
            closing := true;
            return Fail, pos;
          }
          pos' := next;
          if ll.value >= MBULK_BIG_ARG {
            querybuf := querybuf[pos'..];
            pos' := 0;
            assert querybuf[0..] == querybuf;
          }
          bulklen := ll.value;
          st := Go;
      }
    }

    /** The part that takes an argument once all of it is there. */
    method TakeBulk(pos: nat, ghost cmds: seq<Cmd>, ghost future: seq<byte>) returns (pos': nat)
      requires multibulklen > 0 && bulklen >= 0 && pos + bulklen + 2 <= |querybuf|
      modifies this`querybuf, this`bulklen, this`argv, this`multibulklen
      ensures multibulklen == old(multibulklen) - 1 && bulklen == -1 && |argv| == old(|argv|) + 1
      ensures pos' <= |querybuf| <= old(|querybuf|)
      ensures |querybuf| - pos' == old(|querybuf|) - pos - old(bulklen) - 2
      ensures pos == 0 && old(bulklen) >= MBULK_BIG_ARG && old(|querybuf|) == old(bulklen) + 2 ==> querybuf == []
      ensures old(On(cmds, future, pos)) && multibulklen > 0 ==> On(cmds, future, pos')
      ensures old(On(cmds, future, pos)) && multibulklen == 0 ==>
                |executed| < |cmds| && argv == cmds[|executed|] && querybuf[pos'..] + future == Stream(cmds[|executed| + 1..])
    {
      hide Digits, Header, Args, Stream;
      ghost var on := On(cmds, future, pos);
      if on {
        Arrived(querybuf, pos, future, cmds[|executed|][|argv|],
                Args(cmds[|executed|][|argv| + 1..]) + Stream(cmds[|executed| + 1..]));
        NoArgs();
        if multibulklen == 1 {
          assert cmds[|executed|][|argv| + 1..] == [];
          assert [] + Stream(cmds[|executed| + 1..]) == Stream(cmds[|executed| + 1..]);
        }
      }
      if pos == 0 && bulklen >= MBULK_BIG_ARG && |querybuf| == bulklen + 2 {
        assert querybuf[0..bulklen] == querybuf[..bulklen];
        argv := argv + [querybuf[..bulklen]];
        assert querybuf[0 + bulklen + 2..] == [];
        querybuf := [];
        pos' := 0;
      } else {
        argv := argv + [querybuf[pos..pos + bulklen]];
        pos' := pos + bulklen + 2;
      }
      bulklen := -1;
      multibulklen := multibulklen - 1;
    }

    /** A whole request is in hand: one that `processCommand` did not let go. */
    predicate Holding()
      reads this
    {
      multibulklen == 0 && argv != []
    }

    predicate Valid()
      reads this
    {
      && bulklen >= -1
      && (reqtype != Multibulk ==> multibulklen == 0)
      && (reqtype == Unknown ==> argv == [])
      && (multibulklen == 0 ==> bulklen == -1)
      && (reqtype == Multibulk && multibulklen == 0 && argv == [] ==> querybuf != [] && querybuf[0] == STAR)
    }

    /** The loop of `processMultibulkBuffer` over the arguments, and the trim after it. */
    method ReadArgs(start: nat, ghost cmds: seq<Cmd>, ghost future: seq<byte>) returns (ok: bool)
      requires multibulklen > 0 && bulklen >= -1 && start <= |querybuf|
      modifies this`querybuf, this`multibulklen, this`bulklen, this`argv, this`closing
      ensures |querybuf| <= old(|querybuf|) && bulklen >= -1 && (ok <==> multibulklen == 0)
      ensures ok ==> bulklen == -1 && |querybuf| < old(|querybuf|)
      ensures old(On(cmds, future, start)) && old(Roomy(start)) ==>
                && closing == old(closing)
                && (ok ==> argv == cmds[|executed|] && querybuf + future == Stream(cmds[|executed| + 1..]) && |querybuf| <= 3 * IOBUF_LEN)
                && (!ok ==> On(cmds, future, 0) && Waiting(cmds, 0))
    {
      hide RefusesLength, LineAt, ParseLl, Tracks, Waits, PieceLen, Header, Args, Stream, Digits;
      var pos: nat := start;
      ghost var on := On(cmds, future, pos) && Roomy(pos);
      ghost var was := |querybuf|;
      assert on ==> |executed| < |cmds| by {
        if on {
          Underway(cmds, |executed|, argv, multibulklen, bulklen, querybuf[pos..], future);
        }
      }
      while multibulklen > 0
        invariant pos <= |querybuf| <= was
        invariant bulklen >= -1
        invariant multibulklen == 0 ==> bulklen == -1 && |querybuf| - pos < was
        invariant on && multibulklen > 0 ==> On(cmds, future, pos)
        invariant on ==> Roomy(pos)
        invariant on && multibulklen == 0 ==> argv == cmds[|executed|] && querybuf[pos..] + future == Stream(cmds[|executed| + 1..])
        invariant on ==> closing == old(closing)
      {
        if bulklen == -1 {
          var st;
          st, pos := ReadBulkLen(pos, cmds, future);
          if st == Fail {
            querybuf := querybuf[pos..];
            return false;
          }
          if st == Wait {
            break;
          }
        }
        if |querybuf| - pos < bulklen + 2 {
          if on {
            WaitForArg(cmds, |executed|, argv, multibulklen, bulklen, querybuf[pos..], future);
          }
          break;
        }
        pos := TakeBulk(pos, cmds, future);
      }
      querybuf := querybuf[pos..];
      assert querybuf[0..] == querybuf;
      ok := multibulklen == 0;
    }

    /** No limit is hit, or the buffer holds part of one big argument and no more. */
    predicate Roomy(pos: nat)
      reads this
    {
      |querybuf| <= 3 * IOBUF_LEN || (bulklen >= MBULK_BIG_ARG && pos == 0 && |querybuf| <= bulklen + 2)
    }

    /**
      `processMultibulkBuffer`: a whole command, or all of what has arrived of one. `met` is the failure of its
      assertion that the client was reset.
     */
    method ProcessMultibulk(ghost cmds: seq<Cmd>, ghost future: seq<byte>) returns (ok: bool, met: bool)
      requires Valid() && reqtype == Multibulk
      modifies this`querybuf, this`multibulklen, this`bulklen, this`argv, this`closing
      ensures met <==> old(Holding())
      ensures met ==> !ok && unchanged(this)
      ensures |querybuf| <= old(|querybuf|)
      ensures ok ==> multibulklen == 0 && bulklen == -1 && |querybuf| < old(|querybuf|)
      ensures !ok ==> Valid() && (!met ==> !Holding())
      ensures old(On(cmds, future, 0)) && !met && |executed| < |cmds| && old(Bounded(|querybuf|, multibulklen, bulklen)) ==>
                && closing == old(closing)
                && (ok ==> argv == cmds[|executed|] && querybuf + future == Stream(cmds[|executed| + 1..]) && |querybuf| <= 3 * IOBUF_LEN)
                && (!ok ==> On(cmds, future, 0) && Waiting(cmds, 0))
    {
      hide RefusesCount, LineAt, ParseLl, Tracks, Waits, PieceLen, Header, Args, Stream, Digits;
      var pos: nat := 0;
      if multibulklen == 0 {
        if argv != [] {
          return false, true;
        }
        var st;
        st, pos := ReadCount(cmds, future);
        if st != Go {
          return false, false;
        }
        if multibulklen == 0 {
          querybuf := querybuf[pos..];
          return true, false;
        }
      }
      ok := ReadArgs(pos, cmds, future);
      met := false;
    }

    /** `processInlineBuffer`: one line of words, of which the empty ones are dropped. */
    method ProcessInline() returns (ok: bool)
      requires Valid() && reqtype == Inline
      modifies this`querybuf, this`argv, this`closing
      ensures !ok ==> Valid() && querybuf == old(querybuf) && argv == old(argv)
      ensures !ok ==> (closing <==> old(closing) || StrChr(querybuf, 0, LF).Some? || |querybuf| > INLINE_MAX_SIZE)
      ensures ok ==> |querybuf| < old(|querybuf|) && querybuf == InlineRest(old(querybuf))
      ensures ok <==> old(InlineArgs(querybuf)).Some?
      ensures ok ==> argv == NonEmpty(old(InlineArgs(querybuf)).value) && closing == old(closing)
    {
      hide Quoting.Split, StrChr, NonEmpty;
      var newline := StrChr(querybuf, 0, LF);
      if newline.None? {
        if |querybuf| > INLINE_MAX_SIZE {
          closing := true;
        }
        return false;
      }
      var querylen := newline.value;
      if querylen > 0 && querybuf[querylen - 1] == CR {
        querylen := querylen - 1;
      }
      var words := Quoting.SplitArgs(querybuf[..querylen]);
      if words.None? {
        closing := true;
        return false;
      }
      querybuf := if querylen + 2 <= |querybuf| then querybuf[querylen + 2..] else [];
      argv := DropEmpty(words.value);
      ok := true;
    }

    /** `resetClient`. */
    method Reset()
      modifies this`reqtype, this`argv, this`multibulklen, this`bulklen
      ensures reqtype == Unknown && argv == [] && multibulklen == 0 && bulklen == -1
    {
      argv, reqtype, multibulklen, bulklen := [], Unknown, 0, -1;
    }

    /** In the middle of a stream of commands, with nothing lost and nothing made up. */
    ghost predicate Steady(cmds: seq<Cmd>, future: seq<byte>)
      reads this
    {
      && Valid() && On(cmds, future, 0) && !Holding() && !closing && reqtype != Inline
      && |executed| <= |cmds| && executed == cmds[..|executed|]
    }

    /** In the middle of a stream, behind a command that is held. */
    ghost predicate Stuck(holds: Cmd -> bool, cmds: seq<Cmd>, future: seq<byte>)
      reads this
    {
      && Valid() && !closing && reqtype == Multibulk && Holding()
      && 0 < |executed| <= |cmds| && executed == cmds[..|executed|] && argv == executed[|executed| - 1] && holds(argv)
      && (forall i :: 0 <= i < |cmds| ==> Legal(cmds[i])) && querybuf + future == Stream(cmds[|executed|..])
    }

    /** What a stream of commands has come to: only the last of those handed over since `from` may be held. */
    ghost predicate Along(holds: Cmd -> bool, cmds: seq<Cmd>, future: seq<byte>, from: nat)
      reads this
    {
      && (if Holding() then Stuck(holds, cmds, future) else Steady(cmds, future) && Waiting(cmds, 0))
      && from <= |executed| - (if Holding() then 1 else 0)
      && forall i :: from <= i < |executed| - (if Holding() then 1 else 0) ==> !holds(executed[i])
    }

    /** In the middle of a stream of inline lines, the last of which may be held. */
    ghost predicate Lined(holds: Cmd -> bool, cmds: seq<Cmd>, lines: seq<seq<byte>>, future: seq<byte>)
      reads this
    {
      && Valid() && !closing && reqtype != Multibulk
      && |executed| <= |cmds| && executed == cmds[..|executed|]
      && argv == Last(holds, executed)
      && AllLegal(lines, cmds) && querybuf + future == Lines(lines[|executed|..])
    }

    /** Less than the next line has arrived. */
    ghost predicate LineShort(cmds: seq<Cmd>, lines: seq<seq<byte>>)
      reads this
    {
      |executed| <= |cmds| == |lines| && if |executed| == |cmds| then querybuf == [] else |querybuf| < |LineOf(lines[|executed|])|
    }

    /** The buffer is read as an inline line, as it is behind a held one whatever it begins with. */
    predicate ReadsInline()
      reads this
    {
      reqtype == Inline || (reqtype == Unknown && querybuf != [] && querybuf[0] != STAR)
    }

    /** The request type, and one request of that type. */
    method NextRequest(ghost cmds: seq<Cmd>, ghost future: seq<byte>) returns (ok: bool, met: bool)
      requires Valid() && querybuf != []
      modifies this`querybuf, this`reqtype, this`multibulklen, this`bulklen, this`argv, this`closing
      ensures !ok ==> Valid()
      ensures met <==> old(reqtype == Multibulk && Holding())
      ensures met ==> !ok && unchanged(this)
      ensures !ok && !met && reqtype == Multibulk ==> !Holding()
      ensures reqtype == if old(reqtype) != Unknown then old(reqtype) else if old(querybuf[0]) == STAR then Multibulk else Inline
      ensures ok ==> multibulklen == 0 && bulklen == -1 && |querybuf| < old(|querybuf|)
      ensures old(ReadsInline()) ==> (ok <==> old(InlineArgs(querybuf)).Some?)
      ensures old(ReadsInline()) && ok ==>
                argv == NonEmpty(old(InlineArgs(querybuf)).value) && querybuf == InlineRest(old(querybuf)) && closing == old(closing)
      ensures old(ReadsInline()) && !ok ==>
                && querybuf == old(querybuf) && argv == old(argv)
                && (closing <==> old(closing) || StrChr(querybuf, 0, LF).Some? || |querybuf| > INLINE_MAX_SIZE)
      ensures old(Steady(cmds, future)) && old(Bounded(|querybuf|, multibulklen, bulklen)) ==>
                && !met && !closing && reqtype == Multibulk && |executed| < |cmds| && (forall i :: 0 <= i < |cmds| ==> Legal(cmds[i]))
                && (ok ==> argv == cmds[|executed|] != [] && querybuf + future == Stream(cmds[|executed| + 1..]) && |querybuf| <= 3 * IOBUF_LEN)
                && (!ok ==> Steady(cmds, future) && Waiting(cmds, 0))
    {
      hide Tracks, Waits, PieceLen, Header, Args, Stream, Digits, StrChr, NonEmpty, InlineArgs, InlineRest;
      if Steady(cmds, future) {
        assert querybuf[0..] == querybuf;
        NextStarts(cmds, |executed|, argv, multibulklen, bulklen, querybuf, future);
      }
      if reqtype == Unknown {
        reqtype := if querybuf[0] == STAR then Multibulk else Inline;
      }
      met := false;
      if reqtype == Inline {
        ok := ProcessInline();
      } else {
        ok, met := ProcessMultibulk(cmds, future);
      }
    }

    /** `processCommand` of a whole request, and the reset unless it is held. */
    method HandOver(holds: Cmd -> bool)
      modifies this`executed, this`reqtype, this`argv, this`multibulklen, this`bulklen
      ensures executed == if old(argv) == [] then old(executed) else old(executed) + [old(argv)]
      ensures if old(argv) != [] && holds(old(argv))
              then reqtype == old(reqtype) && argv == old(argv) && multibulklen == old(multibulklen) && bulklen == old(bulklen)
              else reqtype == Unknown && argv == [] && multibulklen == 0 && bulklen == -1
    {
      if argv == [] {
        Reset();
      } else {
        executed := executed + [argv];
        if !holds(argv) {
          Reset();
        }
      }
    }

    /**
      One turn of `processInputBuffer`. A command that `processCommand` answers with an error, as it does for a
      leader's writes, is held: the client is not reset.
     */
    method Turn(holds: Cmd -> bool, ghost cmds: seq<Cmd>, ghost lines: seq<seq<byte>>, ghost future: seq<byte>) returns (more: bool, met: bool)
      requires Valid() && querybuf != [] && !closing
      modifies this
      ensures Valid()
      ensures met <==> old(reqtype == Multibulk && Holding())
      ensures met ==> !more && unchanged(this)
      ensures !more && !met && reqtype == Multibulk ==> !Holding()
      ensures more ==> |querybuf| < old(|querybuf|)
      ensures old(Steady(cmds, future)) && old(Bounded(|querybuf|, multibulklen, bulklen)) ==>
                && (if Holding() then more && Stuck(holds, cmds, future) else Steady(cmds, future))
                && (if more then |executed| == old(|executed|) + 1 && (!Holding() ==> !holds(executed[|executed| - 1]) && |querybuf| <= 3 * IOBUF_LEN)
                    else |executed| == old(|executed|) && Waiting(cmds, 0))
      ensures old(Lined(holds, cmds, lines, future)) ==> Lined(holds, cmds, lines, future) && (!more ==> LineShort(cmds, lines))
    {
      hide Tracks, Waits, PieceLen, Header, Args, Stream, Digits, Lines, LineOf, LegalLine, AllLegal, Legal, InlineArgs, InlineRest, NonEmpty, StrChr, Lined;
      ghost var on := Steady(cmds, future) && Bounded(|querybuf|, multibulklen, bulklen);
      ghost var lined := Lined(holds, cmds, lines, future);
      if lined {
        LineAhead(this, holds, cmds, lines, future);
      }
      ghost var n := |executed|;
      more, met := NextRequest(cmds, future);
      if !more {
        if lined {
          LinedAgain(this, holds, cmds, lines, future);
        }
        return;
      }
      HandOver(holds);
      assert n < |cmds| ==> cmds[..n + 1] == cmds[..n] + [cmds[n]];
      if on && !Holding() {
        assert querybuf[0..] == querybuf;
        NextCommand(cmds, |executed|, querybuf, future);
      }
      if lined {
        LinedAgain(this, holds, cmds, lines, future);
      }
    }

    /** `processInputBuffer`; `met` is the failure of the assertion that the client was reset. */
    method ProcessInput(holds: Cmd -> bool, ghost cmds: seq<Cmd>, ghost lines: seq<seq<byte>>, ghost future: seq<byte>) returns (met: bool)
      requires Valid()
      modifies this
      ensures Valid()
      ensures met <==> reqtype == Multibulk && Holding() && querybuf != [] && !closing
      ensures old(Steady(cmds, future)) && old(Bounded(|querybuf|, multibulklen, bulklen)) ==> Along(holds, cmds, future, old(|executed|))
      ensures old(Stuck(holds, cmds, future)) ==> unchanged(this)
      ensures old(Lined(holds, cmds, lines, future)) ==> Lined(holds, cmds, lines, future) && LineShort(cmds, lines)
    {
      hide Tracks, Waits, PieceLen, Stream, Lines, LineOf, LegalLine, Legal;
      ghost var on := Steady(cmds, future) && Bounded(|querybuf|, multibulklen, bulklen);
      ghost var stuck := Stuck(holds, cmds, future);
      ghost var lined := Lined(holds, cmds, lines, future);
      ghost var from := |executed|;
      while |querybuf| > 0
        invariant Valid()
        invariant on && !Holding() ==> Steady(cmds, future) && Bounded(|querybuf|, multibulklen, bulklen)
        invariant on && Holding() ==> Stuck(holds, cmds, future)
        invariant on ==> from <= |executed| - (if Holding() then 1 else 0)
        invariant on ==> forall i :: from <= i < |executed| - (if Holding() then 1 else 0) ==> !holds(executed[i])
        invariant stuck ==> unchanged(this)
        invariant lined ==> Lined(holds, cmds, lines, future)
        decreases |querybuf|
      {
        if closing {
          return false;
        }
        ghost var before := executed;
        var more;
        more, met := Turn(holds, cmds, lines, future);
        if on {
          SamePrefix(cmds, before, executed);
        }
        if !more {
          return;
        }
      }
      if on && !Holding() {
        assert querybuf[0..] == querybuf;
        NothingLeft(cmds, |executed|, argv, multibulklen, bulklen, future);
      }
      if lined {
        NoLineLeft(lines, |executed|);
      }
      met := false;
    }

    /** How much `readQueryFromClient` asks for. */
    function ReadLen(): int
      reads this
    {
      if reqtype == Multibulk && multibulklen > 0 && bulklen != -1 && bulklen >= MBULK_BIG_ARG && bulklen + 2 - |querybuf| < IOBUF_LEN
      then bulklen + 2 - |querybuf|
      else IOBUF_LEN
    }

    /** `readQueryFromClient`, for a read that returned some bytes. */
    method Feed(bytes: seq<byte>, holds: Cmd -> bool, ghost cmds: seq<Cmd>, ghost lines: seq<seq<byte>>, ghost future: seq<byte>)
        returns (met: bool)
      requires Valid() && |bytes| <= ReadLen()
      modifies this
      ensures Valid()
      ensures met <==> reqtype == Multibulk && Holding() && querybuf != [] && !closing
      ensures old(Steady(cmds, bytes + future) && Waiting(cmds, 0)) ==> Along(holds, cmds, future, old(|executed|))
      ensures old(Stuck(holds, cmds, bytes + future)) ==>
                Stuck(holds, cmds, future) && executed == old(executed) && querybuf == old(querybuf) + bytes
      ensures old(Lined(holds, cmds, lines, bytes + future)) ==> Lined(holds, cmds, lines, future) && LineShort(cmds, lines)
    {
      hide Waits, PieceLen, Ahead, Lines, LineOf, AllLegal, Stream, Legal;
      if Steady(cmds, bytes + future) && Waiting(cmds, 0) {
        WaitBound(cmds, |executed|, argv, multibulklen, bulklen, querybuf, bytes + future);
        assert querybuf[0..] == querybuf && (querybuf + bytes)[0..] == querybuf + bytes;
      }
      assert querybuf + (bytes + future) == querybuf + bytes + future;
      querybuf := querybuf + bytes;
      met := ProcessInput(holds, cmds, lines, future);
    }

    /** `call`, once the held write is committed: the client is reset. */
    method Release(ghost holds: Cmd -> bool, ghost cmds: seq<Cmd>, ghost future: seq<byte>)
      requires Valid()
      modifies this`reqtype, this`argv, this`multibulklen, this`bulklen
      ensures Valid() && !Holding()
      ensures old(Stuck(holds, cmds, future)) && querybuf == [] ==> Steady(cmds, future) && Waiting(cmds, 0)
    {
      hide Tracks, Waits, PieceLen, Stream;
      ghost var stuck := Stuck(holds, cmds, future) && querybuf == [];
      Reset();
      if stuck {
        assert querybuf[0..] == querybuf;
        NextCommand(cmds, |executed|, querybuf, future);
        NothingLeft(cmds, |executed|, [], 0, -1, future);
      }
    }
  }

  lemma LineAhead(c: Client, holds: Cmd -> bool, cmds: seq<Cmd>, lines: seq<seq<byte>>, future: seq<byte>)
    requires c.Lined(holds, cmds, lines, future) && c.querybuf != []
    ensures c.ReadsInline() && |c.executed| < |cmds| && cmds[|c.executed|] != [] && c.executed == cmds[..|c.executed|]
    ensures AllLegal(lines, cmds)
    ensures c.argv == Last(holds, c.executed) && c.querybuf + future == Lines(lines[|c.executed|..])
    ensures |lines| == |cmds|
    ensures var cmd := cmds[|c.executed|];
      if |c.querybuf| >= |LineOf(lines[|c.executed|])|
      then InlineArgs(c.querybuf).Some? && NonEmpty(InlineArgs(c.querybuf).value) == cmd
           && InlineRest(c.querybuf) + future == Lines(lines[|c.executed| + 1..])
      else StrChr(c.querybuf, 0, LF).None? && InlineArgs(c.querybuf).None? && |c.querybuf| <= INLINE_MAX_SIZE
  {
    hide Lines, LineOf, AllLegal, InlineArgs, InlineRest, NonEmpty, StrChr;
    LineArrives(cmds, lines, |c.executed|, c.querybuf, future);
  }

  lemma LinedAgain(c: Client, holds: Cmd -> bool, cmds: seq<Cmd>, lines: seq<seq<byte>>, future: seq<byte>)
    requires c.Valid() && !c.closing && c.reqtype != Multibulk && |c.executed| <= |cmds| && c.executed == cmds[..|c.executed|]
    requires AllLegal(lines, cmds)
    requires c.argv == Last(holds, c.executed) && c.querybuf + future == Lines(lines[|c.executed|..])
    ensures c.Lined(holds, cmds, lines, future)
  {
    hide Lines, LegalLine;
  }

  /** The last command handed over, if it is held. */
  function Last(holds: Cmd -> bool, executed: seq<Cmd>): Cmd {
    if executed == [] || !holds(executed[|executed| - 1]) then [] else executed[|executed| - 1]
  }

  lemma SamePrefix(cmds: seq<Cmd>, before: seq<Cmd>, now: seq<Cmd>)
    requires |before| <= |now| <= |cmds| && before == cmds[..|before|] && now == cmds[..|now|]
    ensures forall i :: 0 <= i < |before| ==> now[i] == before[i]
  {
    forall i | 0 <= i < |before| ensures now[i] == before[i] {
      assert cmds[..|now|][i] == cmds[i] && cmds[..|before|][i] == cmds[i];
    }
  }

  lemma NoArgs()
    ensures Args([]) == []
  {
  }

  /** An argument that has arrived whole is where the parser takes it from. */
  lemma Arrived(buf: seq<byte>, pos: nat, future: seq<byte>, arg: seq<byte>, rest: seq<byte>)
    requires pos + |arg| + 2 <= |buf| && buf[pos..] + future == arg + CRLF + rest
    ensures buf[pos..pos + |arg|] == arg && buf[pos + |arg| + 2..] + future == rest
  {
    forall i | 0 <= i < |arg| ensures buf[pos..pos + |arg|][i] == arg[i] {
      ArrivedByte(buf, pos, future, arg + CRLF, rest, i);
    }
    assert buf[pos + |arg| + 2..] + future == (buf[pos..] + future)[|arg| + 2..];
  }

  function NonEmpty(words: seq<seq<byte>>): seq<seq<byte>> {
    if words == [] then [] else (if words[0] == [] then [] else [words[0]]) + NonEmpty(words[1..])
  }

  method DropEmpty(words: seq<seq<byte>>) returns (argv: seq<seq<byte>>)
    ensures argv == NonEmpty(words)
  {
    hide NonEmpty;
    argv := [];
    var j := 0;
    NonEmptyEnds(words);
    while j < |words|
      invariant 0 <= j <= |words|
      invariant argv + NonEmpty(words[j..]) == NonEmpty(words)
    {
      KeepWord(argv, words, j);
      if words[j] != [] {
        argv := argv + [words[j]];
      }
      j := j + 1;
    }
  }

  lemma NonEmptyEnds(words: seq<seq<byte>>)
    ensures [] + NonEmpty(words[0..]) == NonEmpty(words)
    ensures forall argv: Cmd :: argv + NonEmpty(words[|words|..]) == argv
  {
    assert words[0..] == words && NonEmpty(words[|words|..]) == [];
  }

  lemma KeepWord(argv: Cmd, words: seq<seq<byte>>, j: nat)
    requires j < |words|
    ensures argv + NonEmpty(words[j..]) == (if words[j] == [] then argv else argv + [words[j]]) + NonEmpty(words[j + 1..])
  {
    hide NonEmpty;
    NonEmptyAt(words, j);
    var rest := NonEmpty(words[j + 1..]);
    assert argv + ([words[j]] + rest) == argv + [words[j]] + rest;
  }

  lemma NonEmptyAt(words: seq<seq<byte>>, j: nat)
    requires j < |words|
    ensures NonEmpty(words[j..]) == if words[j] == [] then NonEmpty(words[j + 1..]) else [words[j]] + NonEmpty(words[j + 1..])
  {
    assert words[j..][1..] == words[j + 1..] && [] + NonEmpty(words[j + 1..]) == NonEmpty(words[j + 1..]);
  }

  /** The words of the first line of a buffer. */
  function InlineArgs(buf: seq<byte>): Option<seq<seq<byte>>> {
    match StrChr(buf, 0, LF)
    case None => None
    case Some(n) => Quoting.Split(buf[..LineLen(buf, n)], 0)
  }

  /** The length of a line that ends at a line feed, without a carriage return before it. */
  function LineLen(buf: seq<byte>, n: nat): (r: nat)
    requires n < |buf|
    ensures r <= n
  {
    if n > 0 && buf[n - 1] == CR then n - 1 else n
  }

  /** What is left of the buffer after its first line: two bytes go with the line. */
  function InlineRest(buf: seq<byte>): seq<byte> {
    match StrChr(buf, 0, LF)
    case None => buf
    case Some(n) => if LineLen(buf, n) + 2 <= |buf| then buf[LineLen(buf, n) + 2..] else []
  }

  lemma {:induction false} LfFound(buf: seq<byte>, pos: nat, n: nat)
    requires pos <= n < |buf| && buf[n] == LF
    requires forall i :: pos <= i < n ==> buf[i] != LF && buf[i] != 0
    ensures StrChr(buf, pos, LF) == Some(n)
    decreases n - pos
  {
    if pos < n {
      LfFound(buf, pos + 1, n);
    }
  }

  /** What follows a line is kept exactly when the line ended in CR LF or nothing follows it. */
  lemma InlineKeepsTheRest(line: seq<byte>, rest: seq<byte>)
    requires forall i :: 0 <= i < |line| ==> line[i] != LF && line[i] != 0
    ensures InlineRest(line + [LF] + rest) == rest <==> (line != [] && line[|line| - 1] == CR) || rest == []
  {
    hide StrChr;
    var buf := line + [LF] + rest;
    LfFound(buf, 0, |line|);
    if line != [] && line[|line| - 1] == CR {
      assert InlineRest(buf) == rest;
    } else if rest != [] {
      assert |InlineRest(buf)| == |rest| - 1;
    }
  }

  // ---- streams of inline lines ------------------------------------------------------------

  /** A line that is split into a command, empty words left out, and is short enough; one with a star in front is no line. */
  ghost predicate LegalLine(line: seq<byte>, cmd: Cmd) {
    && line != [] && line[0] != STAR && |line| + 2 <= INLINE_MAX_SIZE && (forall i :: 0 <= i < |line| ==> line[i] != LF && line[i] != 0)
    && cmd != [] && Quoting.Split(line, 0).Some? && NonEmpty(Quoting.Split(line, 0).value) == cmd
  }

  ghost predicate AllLegal(lines: seq<seq<byte>>, cmds: seq<Cmd>) {
    |lines| == |cmds| && forall i :: 0 <= i < |cmds| ==> LegalLine(lines[i], cmds[i])
  }

  function LineOf(line: seq<byte>): seq<byte> {
    line + CRLF
  }

  function Lines(lines: seq<seq<byte>>): seq<byte> {
    if lines == [] then [] else LineOf(lines[0]) + Lines(lines[1..])
  }

  lemma {:induction false} LfMissing(buf: seq<byte>, pos: nat)
    requires pos <= |buf| && forall i :: pos <= i < |buf| ==> buf[i] != LF && buf[i] != 0
    ensures StrChr(buf, pos, LF) == None
    decreases |buf| - pos
  {
    if pos < |buf| {
      LfMissing(buf, pos + 1);
    }
  }

  /** A line that has arrived whole is found; of one that has not, no end is seen. */
  lemma LineFound(line: seq<byte>, buf: seq<byte>, future: seq<byte>, rest: seq<byte>)
    requires buf + future == line + rest && |line| >= 2 && line[|line| - 1] == LF
    requires forall i :: 0 <= i < |line| - 1 ==> line[i] != LF && line[i] != 0
    ensures |buf| >= |line| ==> StrChr(buf, 0, LF) == Some(|line| - 1) && buf[..|line|] == line && buf[|line|..] + future == rest
    ensures |buf| < |line| ==> StrChr(buf, 0, LF) == None
  {
    hide StrChr;
    LineSplits(line, buf, future, rest);
    if |buf| >= |line| {
      LfFound(buf, 0, |line| - 1);
    } else {
      LfMissing(buf, 0);
    }
  }

  lemma LineSplits(line: seq<byte>, buf: seq<byte>, future: seq<byte>, rest: seq<byte>)
    requires buf + future == line + rest
    ensures forall i :: 0 <= i < |buf| && i < |line| ==> buf[i] == line[i]
    ensures |buf| >= |line| ==> buf[..|line|] == line && buf[|line|..] + future == rest
  {
    forall i | 0 <= i < |buf| && i < |line| ensures buf[i] == line[i] {
      assert (buf + future)[i] == (line + rest)[i];
    }
    if |buf| >= |line| {
      assert buf[..|line|] == line;
      assert buf[|line|..] + future == (buf + future)[|line|..];
      assert rest == (line + rest)[|line|..];
    }
  }

  /** A line that has arrived whole is read as its command; one that has not is waited for. */
  lemma LineArrives(cmds: seq<Cmd>, lines: seq<seq<byte>>, n: nat, buf: seq<byte>, future: seq<byte>)
    requires n <= |cmds| && AllLegal(lines, cmds) && buf != [] && buf + future == Lines(lines[n..])
    ensures n < |cmds| == |lines| && cmds[n] != [] && buf[0] != STAR
    ensures |buf| >= |LineOf(lines[n])| ==>
              && InlineArgs(buf).Some? && NonEmpty(InlineArgs(buf).value) == cmds[n]
              && InlineRest(buf) + future == Lines(lines[n + 1..])
    ensures |buf| < |LineOf(lines[n])| ==> StrChr(buf, 0, LF).None? && InlineArgs(buf).None? && |buf| <= INLINE_MAX_SIZE
  {
    hide StrChr, Quoting.Split, NonEmpty, InlineArgs, InlineRest;
    assert n < |cmds| && lines[n..][1..] == lines[n + 1..];
    var text, rest := lines[n], Lines(lines[n + 1..]);
    var line := LineOf(text);
    assert LegalLine(text, cmds[n]) && line == text + CRLF;
    LineFound(line, buf, future, rest);
    assert buf[0] == (buf + future)[0] == line[0] == text[0];
    LineRead(text, line, buf);
  }

  /** What the first line of a buffer comes to. */
  lemma LineRead(text: seq<byte>, line: seq<byte>, buf: seq<byte>)
    requires line == text + CRLF
    ensures |buf| >= |line| && StrChr(buf, 0, LF) == Some(|line| - 1) && buf[..|line|] == line ==>
              InlineArgs(buf) == Quoting.Split(text, 0) && InlineRest(buf) == buf[|line|..]
    ensures StrChr(buf, 0, LF) == None ==> InlineArgs(buf) == None
  {
    hide StrChr, Quoting.Split;
    if |buf| >= |line| && buf[..|line|] == line {
      assert buf[|line| - 2] == line[|line| - 2] == CR;
      assert buf[..|text|] == buf[..|line|][..|text|] == text;
    }
  }

  lemma NoLineLeft(lines: seq<seq<byte>>, n: nat)
    requires n <= |lines|
    ensures n < |lines| ==> |LineOf(lines[n])| > 0
  {
  }

  /** Bytes in the buffer belong to a command, and a new command starts with its mark. */
  lemma NextStarts(cmds: seq<Cmd>, n: nat, argv: Cmd, multibulklen: nat, bulklen: int, buf: seq<byte>, future: seq<byte>)
    requires Tracks(cmds, n, argv, multibulklen, bulklen, buf, future) && buf != []
    ensures n < |cmds| && (multibulklen == 0 ==> buf[0] == STAR)
    ensures forall i :: 0 <= i < |cmds| ==> Legal(cmds[i])
  {
    hide Digits, Args;
    if multibulklen == 0 && n < |cmds| {
      AheadCount(cmds, n);
      assert buf[0] == (buf + future)[0];
    }
  }

  lemma NextCommand(cmds: seq<Cmd>, n: nat, buf: seq<byte>, future: seq<byte>)
    requires n <= |cmds| && (forall i :: 0 <= i < |cmds| ==> Legal(cmds[i])) && buf + future == Stream(cmds[n..])
    ensures Tracks(cmds, n, [], 0, -1, buf, future)
  {
  }

  lemma NothingLeft(cmds: seq<Cmd>, n: nat, argv: Cmd, multibulklen: nat, bulklen: int, future: seq<byte>)
    requires Tracks(cmds, n, argv, multibulklen, bulklen, [], future)
    ensures Waits(cmds, n, |argv|, multibulklen, bulklen, 0)
  {
    hide Digits, Args, Stream;
  }

  /** After a read of the length asked for, the buffer is still short enough. */
  lemma WaitBound(cmds: seq<Cmd>, n: nat, argv: Cmd, multibulklen: nat, bulklen: int, buf: seq<byte>, future: seq<byte>)
    requires Tracks(cmds, n, argv, multibulklen, bulklen, buf, future)
    requires Waits(cmds, n, |argv|, multibulklen, bulklen, |buf|)
    ensures |buf| < 20 || (multibulklen > 0 && bulklen >= 0 && |buf| < bulklen + 2)
  {
    hide Digits, Args, Stream, Header, Ahead;
    if multibulklen == 0 && n < |cmds| {
      assert Legal(cmds[n]);
      HeaderShort(STAR, |cmds[n]|);
    } else if multibulklen > 0 && bulklen == -1 {
      assert Legal(cmds[n]);
      HeaderShort(DOLLAR, |cmds[n][|argv|]|);
    }
  }

  /** A parser with no more to come and less than a piece in hand has finished. */
  lemma Finished(cmds: seq<Cmd>, n: nat, argv: Cmd, multibulklen: nat, bulklen: int, buf: seq<byte>)
    requires Tracks(cmds, n, argv, multibulklen, bulklen, buf, [])
    requires Waits(cmds, n, |argv|, multibulklen, bulklen, |buf|)
    ensures n == |cmds| && multibulklen == 0 && buf == []
  {
    hide Digits, Args, Stream, Header;
    assert buf + [] == buf;
    if multibulklen > 0 {
      AheadBulk(cmds, n, |argv|);
    } else if n < |cmds| {
      AheadCount(cmds, n);
    }
  }

  // ---- whole sessions ---------------------------------------------------------------------

  /** How many bytes of a stream are sent by the end of command i. */
  ghost function EndOf(cmds: seq<Cmd>, i: nat): int
    requires i < |cmds|
  {
    |Stream(cmds)| - |Stream(cmds[i + 1..])|
  }

  /** Some read ended with command i, and the command was committed before the next. */
  ghost predicate Freed(cmds: seq<Cmd>, ends: seq<nat>, commits: nat -> bool, i: nat)
    requires i < |cmds|
  {
    exists r :: 0 <= r < |ends| && ends[r] == EndOf(cmds, i) && commits(r)
  }

  lemma {:induction false} StreamShrinks(cmds: seq<Cmd>, i: nat, j: nat)
    requires i <= j <= |cmds|
    ensures |Stream(cmds[j..])| <= |Stream(cmds[i..])| && (i < j ==> |Stream(cmds[j..])| < |Stream(cmds[i..])|)
    decreases j - i
  {
    hide Frame;
    if i < j {
      StreamShrinks(cmds, i + 1, j);
      AheadCount(cmds, i);
    }
  }

  /** While a command is waited for, its last byte has not been sent. */
  lemma StillToCome(cmds: seq<Cmd>, n: nat, argv: Cmd, multibulklen: nat, bulklen: int, buf: seq<byte>, future: seq<byte>)
    requires Tracks(cmds, n, argv, multibulklen, bulklen, buf, future) && n < |cmds|
    requires Waits(cmds, n, |argv|, multibulklen, bulklen, |buf|)
    ensures |future| > |Stream(cmds[n + 1..])|
  {
    hide Digits, Args, Stream, Header;
    if multibulklen > 0 {
      AheadBulk(cmds, n, |argv|);
    } else {
      AheadCount(cmds, n);
    }
    assert |buf + future| == |buf| + |future|;
  }

  /** The state between two reads, with `at` bytes sent. */
  ghost predicate Between(c: Client, cmds: seq<Cmd>, holds: Cmd -> bool, commits: nat -> bool, ends: seq<nat>, at: nat)
    reads c
  {
    && at <= |Stream(cmds)| && (ends != [] ==> ends[|ends| - 1] == at) && (forall r :: 0 <= r < |ends| ==> ends[r] <= at)
    && (forall r :: 0 <= r < |ends| - 1 ==> ends[r] < at)
    && (if c.Holding() then c.Stuck(holds, cmds, Stream(cmds)[at..]) && c.querybuf == [] && ends != [] && !commits(|ends| - 1)
        else c.Steady(cmds, Stream(cmds)[at..]) && c.Waiting(cmds, 0))
    && |c.executed| <= |cmds|
    && forall i :: 0 <= i < |c.executed| - (if c.Holding() then 1 else 0) && holds(cmds[i]) ==> Freed(cmds, ends, commits, i)
  }

  /** What the parser reads from a header's digits. */
  lemma CountReads(n: nat)
    requires n <= MAX_ARG_LEN
    ensures ParseLl(Digits(n)) == Some(n)
  {
    hide Digits, ParseLl;
    ParseInvertsPrint(n);
  }

  lemma FreedGrows(cmds: seq<Cmd>, ends: seq<nat>, commits: nat -> bool, i: nat, more: nat)
    requires i < |cmds| && Freed(cmds, ends, commits, i)
    ensures Freed(cmds, ends + [more], commits, i)
  {
    hide Stream;
    var r :| 0 <= r < |ends| && ends[r] == EndOf(cmds, i) && commits(r);
    assert (ends + [more])[r] == EndOf(cmds, i);
  }

  /** A command that ends beyond every read but the last, and not with the last, is not freed. */
  lemma NotFreed(cmds: seq<Cmd>, ends: seq<nat>, commits: nat -> bool, i: nat)
    requires i < |cmds| && ends != [] && ends[|ends| - 1] > EndOf(cmds, i)
    requires forall r :: 0 <= r < |ends| - 1 ==> ends[r] < EndOf(cmds, i) || (ends[r] == EndOf(cmds, i) && !commits(r))
    ensures !Freed(cmds, ends, commits, i)
  {
    hide Stream;
  }

  /** Where the stream has come to when command i has just been taken and `buf` is there behind it. */
  lemma SentSoFar(cmds: seq<Cmd>, i: nat, at: nat, buf: seq<byte>)
    requires i < |cmds| && at <= |Stream(cmds)| && buf + Stream(cmds)[at..] == Stream(cmds[i + 1..])
    ensures at == EndOf(cmds, i) + |buf| && (buf != [] ==> i + 1 < |cmds|)
  {
    assert |buf + Stream(cmds)[at..]| == |buf| + |Stream(cmds)| - at;
  }

  /** Every read so far ended before command i did, if command n was waited for then. */
  lemma EndsBefore(c: Client, cmds: seq<Cmd>, at: nat, i: nat)
    requires at <= |Stream(cmds)| && c.Steady(cmds, Stream(cmds)[at..]) && c.Waiting(cmds, 0) && |c.executed| <= i < |cmds|
    ensures at < EndOf(cmds, i)
  {
    hide Tracks, Waits, Stream;
    var n := |c.executed|;
    assert c.querybuf[0..] == c.querybuf;
    StillToCome(cmds, n, c.argv, c.multibulklen, c.bulklen, c.querybuf, Stream(cmds)[at..]);
    StreamShrinks(cmds, n + 1, i + 1);
  }

  /** Between two reads, at least one byte is asked for. */
  lemma ReadsSome(c: Client, cmds: seq<Cmd>, holds: Cmd -> bool, commits: nat -> bool, ends: seq<nat>, at: nat)
    requires Between(c, cmds, holds, commits, ends, at)
    ensures c.ReadLen() >= 1
  {
    hide Tracks, Waits, Stream, Freed;
    if !c.Holding() {
      assert c.querybuf[0..] == c.querybuf;
      WaitBound(cmds, |c.executed|, c.argv, c.multibulklen, c.bulklen, c.querybuf, Stream(cmds)[at..]);
    }
  }

  lemma StreamEnds(cmds: seq<Cmd>, n: nat)
    requires n <= |cmds| && Stream(cmds[n..]) == []
    ensures n == |cmds|
  {
    if n < |cmds| {
      AheadCount(cmds, n);
    }
  }

  /** One read, and the commit of a held write if it comes before the next read. */
  method Round(c: Client, bytes: seq<byte>, holds: Cmd -> bool, commits: nat -> bool, round: nat, ghost cmds: seq<Cmd>,
               ghost ends: seq<nat>, ghost at: nat) returns (met: bool)
    requires Between(c, cmds, holds, commits, ends, at) && |ends| == round
    requires 0 < |bytes| <= c.ReadLen() && at + |bytes| <= |Stream(cmds)| && bytes == Stream(cmds)[at..at + |bytes|]
    modifies c
    ensures !met ==> Between(c, cmds, holds, commits, ends + [at + |bytes|], at + |bytes|)
    ensures met ==>
              && 0 < |c.executed| < |cmds| && c.executed == cmds[..|c.executed|] && holds(cmds[|c.executed| - 1])
              && !Freed(cmds, ends + [at + |bytes|], commits, |c.executed| - 1)
  {
    hide Stream, Tracks, Waits, Freed, EndOf, Legal, Client.Lined;
    ghost var sent, at', ends' := Stream(cmds), at + |bytes|, ends + [at + |bytes|];
    assert sent[at..] == bytes + sent[at'..];
    ghost var n, stuck := |c.executed|, c.Holding();
    ghost var before := c.executed;
    if stuck {
      SentSoFar(cmds, n - 1, at, c.querybuf);
    } else {
      forall i | n <= i < |cmds| ensures at < EndOf(cmds, i) {
        EndsBefore(c, cmds, at, i);
      }
    }
    met := c.Feed(bytes, holds, cmds, [], sent[at'..]);
    SamePrefix(cmds, before, c.executed);
    ghost var i := |c.executed| - 1;
    if c.Holding() {
      SentSoFar(cmds, i, at', c.querybuf);
    }
    if met {
      forall r | 0 <= r < |ends| ensures ends'[r] < EndOf(cmds, i) || (ends'[r] == EndOf(cmds, i) && !commits(r)) {
        assert ends'[r] == ends[r];
      }
      NotFreed(cmds, ends', commits, i);
      return;
    }
    forall j | 0 <= j < n && holds(cmds[j]) ensures Freed(cmds, ends', commits, j) {
      FreedGrows(cmds, ends, commits, j, at');
    }
    if c.Holding() && commits(round) {
      FreedNow(cmds, ends', commits, i);
      c.Release(holds, cmds, sent[at'..]);
    }
  }

  lemma FreedNow(cmds: seq<Cmd>, ends: seq<nat>, commits: nat -> bool, i: nat)
    requires i < |cmds| && ends != [] && ends[|ends| - 1] == EndOf(cmds, i) && commits(|ends| - 1)
    ensures Freed(cmds, ends, commits, i)
  {
  }

  /**
    The bytes of any legal commands, arriving in reads of any sizes, are parsed into exactly those commands, unless a
    command comes behind one that is held: no read boundary splits, loses, invents or refuses one. The assertion on a
    client that was not reset is met if and only if some command other than the last is held and not committed between
    the read that ends with it and the next. `commits(r)` says that a write held after read r is committed before read
    r + 1; `ends` is where each read ended.
   */
  method Run(cmds: seq<Cmd>, sizes: nat -> nat, holds: Cmd -> bool, commits: nat -> bool)
      returns (c: Client, met: bool, ghost ends: seq<nat>)
    requires forall i :: 0 <= i < |cmds| ==> Legal(cmds[i])
    ensures !met ==> c.executed == cmds && !c.closing && c.querybuf == []
    ensures met ==> 0 < |c.executed| < |cmds| && c.executed == cmds[..|c.executed|] && holds(cmds[|c.executed| - 1])
    ensures met <==> exists i :: 0 <= i < |cmds| - 1 && holds(cmds[i]) && !Freed(cmds, ends, commits, i)
    ensures (forall r :: !commits(r)) ==> (met <==> exists i :: 0 <= i < |cmds| - 1 && holds(cmds[i]))
  {
    hide Tracks, Waits, Stream, Ahead, PieceLen;
    c := new Client();
    var sent := Stream(cmds);
    var at, round := 0, 0;
    ends := [];
    met := false;
    assert cmds[0..] == cmds && [] + sent[0..] == sent;
    NextCommand(cmds, 0, [], sent);
    assert c.querybuf[0..] == [];
    NothingLeft(cmds, 0, [], 0, -1, sent);
    while at < |sent|
      invariant 0 <= at <= |sent| && |ends| == round && !met
      invariant Between(c, cmds, holds, commits, ends, at)
      invariant fresh(c)
      decreases |sent| - at
    {
      ReadsSome(c, cmds, holds, commits, ends, at);
      var n: nat := if sizes(round) < 1 then 1 else sizes(round);
      n := if n > c.ReadLen() then c.ReadLen() else n;
      n := if n > |sent| - at then |sent| - at else n;
      met := Round(c, sent[at..at + n], holds, commits, round, cmds, ends, at);
      at, round, ends := at + n, round + 1, ends + [at + n];
      if met {
        return;
      }
    }
    assert c.querybuf[0..] == c.querybuf && sent[at..] == [];
    if c.Holding() {
      StreamEnds(cmds, |c.executed|);
    } else {
      Finished(cmds, |c.executed|, c.argv, c.multibulklen, c.bulklen, c.querybuf);
    }
  }

  /**
    Inline lines behind a held one are run all the same, each taking the place of the one before it: any lines that split
    into commands, in reads of any sizes, are handed over one and all, whatever is held, and no assertion is met.
   */
  method RunLines(lines: seq<seq<byte>>, sizes: nat -> nat, holds: Cmd -> bool, ghost cmds: seq<Cmd>) returns (c: Client, met: bool)
    requires AllLegal(lines, cmds)
    ensures !met && c.executed == cmds && !c.closing && c.querybuf == []
    ensures c.argv == if cmds == [] || !holds(cmds[|cmds| - 1]) then [] else cmds[|cmds| - 1]
  {
    hide Lines, LineOf, AllLegal, Stream, Legal, Client.Steady, Client.Stuck, Client.Lined, Client.LineShort, Client.Along, Client.ReadLen;
    c := new Client();
    var sent := Lines(lines);
    var at, round := 0, 0;
    met := false;
    assert sent[0..] == sent;
    LinesBegin(c, holds, cmds, lines);
    while at < |sent|
      invariant 0 <= at <= |sent| && !met
      invariant c.Lined(holds, cmds, lines, sent[at..]) && c.LineShort(cmds, lines)
      invariant fresh(c)
      decreases |sent| - at
    {
      ReadsLines(c, holds, cmds, lines, sent[at..]);
      var n: nat := if sizes(round) < 1 then 1 else sizes(round);
      n := if n > c.ReadLen() then c.ReadLen() else n;
      n := if n > |sent| - at then |sent| - at else n;
      assert sent[at..] == sent[at..at + n] + sent[at + n..];
      met := c.Feed(sent[at..at + n], holds, cmds, lines, sent[at + n..]);
      at, round := at + n, round + 1;
      ReadsLines(c, holds, cmds, lines, sent[at..]);
    }
    assert sent[at..] == [];
    LinesEnd(c, holds, cmds, lines);
  }

  lemma LinesBegin(c: Client, holds: Cmd -> bool, cmds: seq<Cmd>, lines: seq<seq<byte>>)
    requires c.querybuf == [] && c.reqtype == Unknown && c.multibulklen == 0 && c.bulklen == -1 && c.argv == []
    requires !c.closing && c.executed == [] && AllLegal(lines, cmds)
    ensures c.Lined(holds, cmds, lines, Lines(lines)) && c.LineShort(cmds, lines)
  {
    hide Lines, LegalLine;
    assert lines[0..] == lines && [] + Lines(lines) == Lines(lines);
  }

  lemma ReadsLines(c: Client, holds: Cmd -> bool, cmds: seq<Cmd>, lines: seq<seq<byte>>, future: seq<byte>)
    requires c.Lined(holds, cmds, lines, future)
    ensures c.Valid() && c.reqtype != Multibulk && c.ReadLen() >= 1
  {
    hide Lines, AllLegal;
  }

  lemma LinesEnd(c: Client, holds: Cmd -> bool, cmds: seq<Cmd>, lines: seq<seq<byte>>)
    requires c.Lined(holds, cmds, lines, []) && c.LineShort(cmds, lines)
    ensures c.executed == cmds && !c.closing && c.querybuf == []
    ensures c.argv == if cmds == [] || !holds(cmds[|cmds| - 1]) then [] else cmds[|cmds| - 1]
  {
    hide Lines, AllLegal, LineOf;
    assert c.querybuf + [] == c.querybuf;
    AllLinesRead(lines, |c.executed|, c.querybuf);
    assert cmds[..|cmds|] == cmds;
  }

  lemma AllLinesRead(lines: seq<seq<byte>>, n: nat, buf: seq<byte>)
    requires n <= |lines| && buf == Lines(lines[n..]) && (n < |lines| ==> |buf| < |LineOf(lines[n])|)
    ensures n == |lines| && buf == []
  {
    hide LineOf;
  }

  const SET: seq<byte> := [83, 69, 84]
  const GET: seq<byte> := [71, 69, 84]
  const KEY: seq<byte> := [107]
  const WRITE: Cmd := [SET, KEY, KEY]
  const READ: Cmd := [GET, KEY]
  const WRITE_LINE: seq<byte> := SET + [32] + (KEY + [32] + KEY)
  const READ_LINE: seq<byte> := GET + [32] + KEY

  /**
    A write and a read sent together: as requests, the second meets the assertion however the bytes arrive; as lines,
    both are run, and the write is let go although it is not committed.
   */
  method WriteThenRead(sizes: nat -> nat) returns (asRequests: Client, met: bool, asLines: Client)
    ensures met && asRequests.executed == [WRITE]
    ensures asLines.executed == [WRITE, READ] && asLines.argv == []
  {
    hide Stream, Lines, Freed, LegalLine;
    var cmds := [WRITE, READ];
    var holds := (cmd: Cmd) => cmd != [] && cmd[0] == SET;
    ghost var ends;
    asRequests, met, ends := Run(cmds, sizes, holds, r => false);
    assert holds(cmds[0]) && cmds[..1] == [WRITE];
    WriteThenReadFits();
    var none;
    asLines, none := RunLines([WRITE_LINE, READ_LINE], sizes, holds, cmds);
  }

  function Plain(word: seq<byte>, gap: seq<byte>): Splitting.Item {
    Splitting.Item(Splitting.Token(word, Splitting.NoTail), gap)
  }

  lemma WriteThenReadFits()
    ensures LegalLine(WRITE_LINE, WRITE) && LegalLine(READ_LINE, READ)
  {
    hide Quoting.Split;
    var items := [Plain(GET, [32]), Plain(KEY, [])];
    var more := [Plain(SET, [32]), Plain(KEY, [32]), Plain(KEY, [])];
    TwoWords(GET, KEY);
    TwoWords(KEY, KEY);
    assert more[1..] == [Plain(KEY, [32]), Plain(KEY, [])];
    assert Splitting.Written(more) == WRITE_LINE && Splitting.Meanings(more) == WRITE;
    assert [] + READ_LINE == READ_LINE && [] + WRITE_LINE == WRITE_LINE;
    Splitting.SplitReads([], items);
    Splitting.SplitReads([], more);
    NothingDropped(WRITE);
    NothingDropped(READ);
  }

  lemma TwoWords(a: seq<byte>, b: seq<byte>)
    requires Splitting.BareOk(a) && Splitting.BareOk(b) && a != [] && b != []
    ensures var items := [Plain(a, [32]), Plain(b, [])];
      Splitting.ItemsOk(items) && Splitting.Written(items) == a + [32] + b && Splitting.Meanings(items) == [a, b]
  {
    var last := [Plain(b, [])];
    assert last[1..] == [] && [Plain(a, [32]), Plain(b, [])][1..] == last;
    assert Splitting.Written(last) == b + [] + [] == b;
    assert Splitting.Meanings(last) == [b] + [] == [b];
    assert [a] + [b] == [a, b];
  }

  // ---- quoted commands are legal lines ----------------------------------------------------

  lemma {:induction false} JoinedPrints(args: seq<seq<byte>>)
    ensures forall i :: 0 <= i < |Quoting.Joined(args)| ==> Quoting.IsPrint(Quoting.Joined(args)[i])
    ensures args != [] ==> Quoting.Joined(args) != [] && Quoting.Joined(args)[0] == Quoting.QUOTE
  {
    hide Quoting.Repr;
    if args != [] {
      Quoting.ReprStarts(args[0]);
      JoinedPrints(args[1..]);
    }
  }

  lemma {:induction false} NothingDropped(words: seq<seq<byte>>)
    requires forall i :: 0 <= i < |words| ==> words[i] != []
    ensures NonEmpty(words) == words
  {
    if words != [] {
      NothingDropped(words[1..]);
      assert words == [words[0]] + words[1..];
    }
  }

  /** Any command without empty arguments is sent as a line by quoting it, if that is short enough. */
  lemma QuotedIsLegal(cmd: Cmd)
    requires cmd != [] && (forall i :: 0 <= i < |cmd| ==> cmd[i] != []) && |Quoting.Joined(cmd)| + 2 <= INLINE_MAX_SIZE
    ensures LegalLine(Quoting.Joined(cmd), cmd)
  {
    hide Quoting.Split, Quoting.Joined;
    JoinedPrints(cmd);
    Quoting.SplitInvertsQuoting(cmd);
    NothingDropped(cmd);
  }
}
