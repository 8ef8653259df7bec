/** src/log.c: the log's list and its file, kept in step, and the file read back. */
module LogFile {
  import opened Prelude
  import opened Decimal
  import opened RaftLog
  import opened Resp

  /** The size of the command buffers of `struct logEntry`. */
  const COMMAND_LEN: nat := 40

  // ---- the file's format ------------------------------------------------------------------

  function Fields(e: Entry): seq<seq<byte>> {
    [Print(e.index), Print(e.term), e.name, e.command]
  }

  function Record(e: Entry): seq<byte> {
    Frame(Fields(e))
  }

  /** The records of a log, one after the other. */
  function FileOf(log: Log): seq<byte> {
    if log == [] then [] else FileOf(log[..|log| - 1]) + Record(log[|log| - 1])
  }

  lemma {:induction false} FileOfSplit(log: Log, k: nat)
    requires k <= |log|
    ensures FileOf(log) == FileOf(log[..k]) + FileOf(log[k..])
    decreases |log|
  {
    hide Record;
    if k == |log| {
      assert log[..k] == log && log[k..] == [];
    } else {
      var n := |log| - 1;
      FileOfSplit(log[..n], k);
      assert log[..n][..k] == log[..k] && log[..n][k..] == log[k..][..n - k];
      assert log[k..][n - k] == log[n];
    }
  }

  /** `struct logEntryNode`: an entry and the offset of its record. */
  datatype Stored = Stored(entry: Entry, position: nat)

  function Entries(nodes: seq<Stored>): (log: Log)
    ensures |log| == |nodes|
    ensures forall i :: 0 <= i < |nodes| ==> log[i] == nodes[i].entry
  {
    seq(|nodes|, i requires 0 <= i < |nodes| => nodes[i].entry)
  }

  /** Each position is the offset at which the entry's record begins. */
  ghost predicate InPlace(nodes: seq<Stored>) {
    forall i :: 0 <= i < |nodes| ==> nodes[i].position == |FileOf(Entries(nodes)[..i])|
  }

  // ---- writing ----------------------------------------------------------------------------

  /** `catLogEntry`: appends the framed arguments to a string. */
  method CatLogEntry(dst: seq<byte>, argv: seq<seq<byte>>) returns (r: seq<byte>)
    ensures r == dst + Frame(argv)
  {
    r := dst + ([STAR] + Digits(|argv|) + CRLF);
    var j := 0;
    assert argv[..0] == [];
    while j < |argv|
      invariant 0 <= j <= |argv|
      invariant r == dst + ([STAR] + Digits(|argv|) + CRLF) + Args(argv[..j])
    {
      assert argv[..j + 1][..j] == argv[..j];
      r := r + [DOLLAR] + Digits(|argv[j]|) + CRLF + argv[j] + CRLF;
      assert r == dst + ([STAR] + Digits(|argv|) + CRLF) + (Args(argv[..j]) + Arg(argv[j]));
      j := j + 1;
    }
    assert argv[..j] == argv;
    assert dst + ([STAR] + Digits(|argv|) + CRLF) + Args(argv) == dst + Frame(argv);
  }

  lemma AppendInPlace(nodes: seq<Stored>, e: Entry)
    requires InPlace(nodes)
    ensures var nodes' := nodes + [Stored(e, |FileOf(Entries(nodes))|)];
      InPlace(nodes') && Entries(nodes') == Entries(nodes) + [e]
      && FileOf(Entries(nodes')) == FileOf(Entries(nodes)) + Record(e)
  {
    hide Record, FileOf;
    var nodes' := nodes + [Stored(e, |FileOf(Entries(nodes))|)];
    var log, log' := Entries(nodes), Entries(nodes');
    assert log' == log + [e];
    forall i | 0 <= i < |nodes'| ensures nodes'[i].position == |FileOf(log'[..i])| {
      if i < |nodes| {
        assert log'[..i] == log[..i];
      } else {
        assert log'[..i] == log;
      }
    }
    FileOfSnoc(log, e);
  }

  lemma FileOfSnoc(log: Log, e: Entry)
    ensures FileOf(log + [e]) == FileOf(log) + Record(e)
  {
    assert (log + [e])[..|log|] == log;
  }

  lemma CutInPlace(nodes: seq<Stored>, p: nat)
    requires InPlace(nodes) && p < |nodes|
    ensures InPlace(nodes[..p]) && Entries(nodes[..p]) == Entries(nodes)[..p]
    ensures nodes[p].position <= |FileOf(Entries(nodes))|
    ensures FileOf(Entries(nodes))[..nodes[p].position] == FileOf(Entries(nodes)[..p])
  {
    hide FileOf;
    var log := Entries(nodes);
    FileOfSplit(log, p);
    assert Entries(nodes[..p]) == log[..p];
    forall i | 0 <= i < p ensures nodes[..p][i].position == |FileOf(log[..p][..i])| {
      assert log[..p][..i] == log[..i];
    }
  }

  // ---- reading ----------------------------------------------------------------------------

  /** Where the line that `fgets` reads into a 128-byte buffer ends. */
  function LineEnd(file: seq<byte>, pos: nat, room: nat := 127): (end: nat)
    requires pos <= |file|
    ensures pos <= end <= |file|
    ensures pos < |file| && room > 0 ==> pos < end
    decreases room
  {
    if room == 0 || pos == |file| then pos
    else if file[pos] == 10 then pos + 1
    else LineEnd(file, pos + 1, room - 1)
  }

  /** A buffer as a C string: up to its first NUL. */
  function CString(s: seq<byte>): (r: seq<byte>)
    ensures r <= s
    ensures |r| == |s| || s[|r|] == 0
    ensures forall i :: 0 <= i < |r| ==> r[i] != 0
  {
    if s == [] || s[0] == 0 then [] else [s[0]] + CString(s[1..])
  }

  function DigitRun(s: seq<byte>): (k: nat)
    ensures k <= |s|
    ensures forall i :: 0 <= i < k ==> IsDigit(s[i])
    ensures k < |s| ==> !IsDigit(s[k])
  {
    if s == [] || !IsDigit(s[0]) then 0 else 1 + DigitRun(s[1..])
  }

  /** `atoi` and `strtol`: blanks, a sign, digits, and whatever follows them is ignored. */
  function Atol(s: seq<byte>): int {
    if s != [] && (s[0] == 32 || 9 <= s[0] <= 13) then Atol(s[1..])
    else if s != [] && s[0] == MINUS then 0 - Value(s[1..][..DigitRun(s[1..])])
    else if s != [] && s[0] == 43 then Value(s[1..][..DigitRun(s[1..])])
    else Value(s[..DigitRun(s)])
  }

  /** An argument: its bytes, where the next one begins, and the length `loadLogFile` adds up. */
  datatype Piece = Piece(arg: seq<byte>, next: nat, used: nat)

  function ReadArg(file: seq<byte>, pos: nat): (r: Option<Piece>)
    requires pos <= |file|
    ensures r.Some? ==> pos < r.value.next <= |file|
  {
    var end := LineEnd(file, pos);
    var line := CString(file[pos..end]);
    if line == [] || line[0] != DOLLAR then None
    else
      var len := Atol(line[1..]);
      if len < 0 || end + len + 2 > |file| then None
      else Some(Piece(file[end..end + len], end + len + 2, len + |line| + 2))
  }

  /** What ends up in a command buffer of `struct logEntry`. */
  function Buffered(arg: seq<byte>): seq<byte> {
    var s := CString(arg);
    if |s| <= COMMAND_LEN then s else s[..COMMAND_LEN]
  }

  /** The switch over the argument's number. */
  ghost function SetField(e: Entry, j: nat, arg: seq<byte>): Option<Entry> {
    if j == 0 then
      match ParseLl(arg) case Some(v) => Some(e.(index := v)) case None => None
    else if j == 1 then
      match ParseLl(arg) case Some(v) => Some(e.(term := v)) case None => None
    else if j == 2 then Some(e.(name := Buffered(arg)))
    else if j == 3 then Some(e.(command := Buffered(arg)))
    else None
  }

  datatype Partial = Partial(entry: Entry, next: nat, used: nat)

  /** The inner loop, from argument j of argc on. */
  ghost function ReadArgs(file: seq<byte>, p: Partial, j: nat, argc: nat): (r: Option<Partial>)
    requires p.next <= |file| && j <= argc
    ensures r.Some? ==> p.next <= r.value.next <= |file|
    decreases argc - j
  {
    if j == argc then Some(p)
    else
      match ReadArg(file, p.next)
      case None => None
      case Some(a) =>
        match SetField(p.entry, j, a.arg)
        case None => None
        case Some(e) => ReadArgs(file, Partial(e, a.next, p.used + a.used), j + 1, argc)
  }

  /** One record; `junk` is what the entry's memory held before. */
  ghost function ReadRecord(file: seq<byte>, pos: nat, junk: Entry): (r: Option<Partial>)
    requires pos < |file|
    ensures r.Some? ==> pos < r.value.next <= |file|
  {
    var end := LineEnd(file, pos);
    var line := CString(file[pos..end]);
    if line == [] || line[0] != STAR then None
    else
      var argc := Atol(line[1..]);
      if argc < 1 then None else ReadArgs(file, Partial(junk, end, |line|), 0, argc)
  }

  datatype Loaded = Loaded(nodes: seq<Stored>, size: nat)

  /** The outer loop; None stands for the process giving up on the file. */
  ghost function ReadAll(file: seq<byte>, pos: nat, l: Loaded, junk: Entry): Option<Loaded>
    requires pos <= |file|
    decreases |file| - pos
  {
    if pos == |file| then Some(l)
    else
      match ReadRecord(file, pos, junk)
      case None => None
      case Some(p) =>
        ReadAll(file, p.next, Loaded(l.nodes + [Stored(p.entry, l.size)], l.size + p.used), junk)
  }

  // ---- the file reads back as the log it was written from --------------------------------

  lemma {:induction false} LineFound(file: seq<byte>, pos: nat, w: seq<byte>, room: nat)
    requires At(file, pos, w + [10]) && |w| < room && forall i :: 0 <= i < |w| ==> w[i] != 10
    ensures LineEnd(file, pos, room) == pos + |w| + 1
    decreases room
  {
    var line := file[pos..pos + |w| + 1];
    assert file[pos] == line[0] && line == w + [10];
    if w != [] {
      assert file[pos + 1..pos + 1 + |w|] == (w + [10])[1..] == w[1..] + [10];
      LineFound(file, pos + 1, w[1..], room - 1);
    }
  }

  lemma {:induction false} NulFree(s: seq<byte>)
    requires forall i :: 0 <= i < |s| ==> s[i] != 0
    ensures CString(s) == s
  {
    if s != [] {
      NulFree(s[1..]);
      assert s == [s[0]] + s[1..];
    }
  }

  lemma RunFound(s: seq<byte>, k: nat)
    requires k < |s| && !IsDigit(s[k]) && forall i :: 0 <= i < k ==> IsDigit(s[i])
    ensures DigitRun(s) == k
  {
  }

  lemma AtolReads(n: nat)
    ensures Atol(Digits(n) + CRLF) == n
  {
    hide Digits, DigitRun;
    var s := Digits(n) + CRLF;
    RunFound(s, |Digits(n)|);
    assert s[0] == Digits(n)[0] && IsDigit(s[0]);
    assert s[..|Digits(n)|] == Digits(n);
    ValueOfDigits(n);
  }

  /** A header line: a mark, a count below 100 and CRLF. */
  lemma HeaderReads(file: seq<byte>, pos: nat, mark: byte, n: nat)
    requires n < 100 && At(file, pos, [mark] + Digits(n) + CRLF) && mark != 0 && mark != 10
    ensures LineEnd(file, pos) == pos + 3 + |Digits(n)|
    ensures CString(file[pos..LineEnd(file, pos)]) == [mark] + Digits(n) + CRLF
    ensures Atol((([mark] + Digits(n) + CRLF))[1..]) == n
  {
    hide Digits, DigitRun, CString, LineEnd, Atol;
    LastDigits(n);
    var w := [mark] + Digits(n) + [13];
    assert w + [10] == [mark] + Digits(n) + CRLF;
    LineFound(file, pos, w, 127);
    NulFree(w + [10]);
    assert (w + [10])[1..] == Digits(n) + CRLF;
    AtolReads(n);
  }

  /** An argument shorter than 100 bytes reads back, whatever bytes it holds. */
  lemma ArgReads(file: seq<byte>, pos: nat, s: seq<byte>)
    requires |s| < 100 && At(file, pos, Arg(s))
    ensures ReadArg(file, pos) == Some(Piece(s, pos + |Arg(s)|, |Arg(s)|))
  {
    hide Digits, CString, LineEnd, Atol;
    var head := [DOLLAR] + Digits(|s|) + CRLF;
    assert Arg(s) == head + (s + CRLF);
    AtParts(file, pos, head, s + CRLF);
    AtParts(file, pos + |head|, s, CRLF);
    HeaderReads(file, pos, DOLLAR, |s|);
  }

  /** The entry's integers fit in 64 bits and its strings, free of NULs, in their buffers. */
  predicate Fits(e: Entry) {
    && IsLongLong(e.index) && IsLongLong(e.term)
    && |e.name| < COMMAND_LEN && |e.command| < COMMAND_LEN
    && (forall i :: 0 <= i < |e.name| ==> e.name[i] != 0)
    && (forall i :: 0 <= i < |e.command| ==> e.command[i] != 0)
  }

  lemma ShortNumeral(v: int)
    requires IsLongLong(v)
    ensures |Print(v)| <= 21
  {
    hide Digits;
    Digits10Counts(if v < 0 then -v else v);
  }

  lemma ArgsOfFour(a: seq<byte>, b: seq<byte>, c: seq<byte>, d: seq<byte>)
    ensures Args([a, b, c, d]) == Arg(a) + Arg(b) + Arg(c) + Arg(d)
  {
    hide Arg;
    var s := [a, b, c, d];
    assert s[..3] == [a, b, c] && [a, b, c][..2] == [a, b] && [a, b][..1] == [a] && [a][..0] == [];
    assert Args([a]) == Arg(a);
    assert Args([a, b]) == Arg(a) + Arg(b);
    assert Args([a, b, c]) == Arg(a) + Arg(b) + Arg(c);
  }

  /** A record reads back as its entry. */
  lemma RecordReads(file: seq<byte>, pos: nat, e: Entry, junk: Entry)
    requires Fits(e) && At(file, pos, Record(e))
    ensures pos < |file|
    ensures ReadRecord(file, pos, junk) == Some(Partial(e, pos + |Record(e)|, |Record(e)|))
  {
    hide Digits, CString, LineEnd, Atol, Arg, Args, ParseLl, Print, ReadArg;
    var f := Fields(e);
    var head := [STAR] + Digits(4) + CRLF;
    var p1 := pos + |head|;
    var p2, p3, p4 := p1 + |Arg(f[0])|, p1 + |Arg(f[0])| + |Arg(f[1])|, p1 + |Arg(f[0])| + |Arg(f[1])| + |Arg(f[2])|;
    PiecesAt(file, pos, e);
    ShortNumeral(e.index);
    ShortNumeral(e.term);
    HeaderReads(file, pos, STAR, 4);
    ArgReads(file, p1, f[0]);
    ArgReads(file, p2, f[1]);
    ArgReads(file, p3, f[2]);
    ArgReads(file, p4, f[3]);
    ParseInvertsPrint(e.index);
    ParseInvertsPrint(e.term);
    NulFree(e.name);
    NulFree(e.command);
    var e1 := junk.(index := e.index);
    var e2 := e1.(term := e.term);
    var e3 := e2.(name := e.name);
    var q0 := Partial(junk, p1, |head|);
    var q1 := Partial(e1, p2, |head| + |Arg(f[0])|);
    var q2 := Partial(e2, p3, q1.used + |Arg(f[1])|);
    var q3 := Partial(e3, p4, q2.used + |Arg(f[2])|);
    var q4 := Partial(e, p4 + |Arg(f[3])|, q3.used + |Arg(f[3])|);
    assert Takes(file, q0, 0, q1) && Takes(file, q1, 1, q2) && Takes(file, q2, 2, q3) && Takes(file, q3, 3, q4);
    FourTaken(file, q0, q1, q2, q3, q4);
  }

  /** One turn of the inner loop. */
  ghost predicate Takes(file: seq<byte>, p: Partial, j: nat, q: Partial) {
    && p.next <= |file|
    && var a := ReadArg(file, p.next);
    && a.Some?
    && SetField(p.entry, j, a.value.arg) == Some(q.entry)
    && a.value.next == q.next && q.used == p.used + a.value.used
  }

  lemma FourTaken(file: seq<byte>, q0: Partial, q1: Partial, q2: Partial, q3: Partial, q4: Partial)
    requires Takes(file, q0, 0, q1) && Takes(file, q1, 1, q2) && Takes(file, q2, 2, q3) && Takes(file, q3, 3, q4)
    ensures ReadArgs(file, q0, 0, 4) == Some(q4)
  {
    hide ReadArg, SetField;
    assert ReadArgs(file, q4, 4, 4) == Some(q4);
    assert ReadArgs(file, q3, 3, 4) == Some(q4);
    assert ReadArgs(file, q2, 2, 4) == Some(q4);
    assert ReadArgs(file, q1, 1, 4) == Some(q4);
  }

  lemma PiecesAt(file: seq<byte>, pos: nat, e: Entry)
    requires At(file, pos, Record(e))
    ensures var f := Fields(e);
      var head := [STAR] + Digits(4) + CRLF;
      var p1 := pos + |head|;
      && At(file, pos, head)
      && At(file, p1, Arg(f[0]))
      && At(file, p1 + |Arg(f[0])|, Arg(f[1]))
      && At(file, p1 + |Arg(f[0])| + |Arg(f[1])|, Arg(f[2]))
      && At(file, p1 + |Arg(f[0])| + |Arg(f[1])| + |Arg(f[2])|, Arg(f[3]))
      && |Record(e)| == |head| + |Arg(f[0])| + |Arg(f[1])| + |Arg(f[2])| + |Arg(f[3])|
  {
    hide Digits, Arg, Args, Print;
    var f := Fields(e);
    var head := [STAR] + Digits(4) + CRLF;
    var a, b, c, d := Arg(f[0]), Arg(f[1]), Arg(f[2]), Arg(f[3]);
    ArgsOfFour(f[0], f[1], f[2], f[3]);
    assert f == [f[0], f[1], f[2], f[3]];
    assert Record(e) == head + (a + b + c + d);
    AtParts(file, pos, head, a + b + c + d);
    AtParts(file, pos + |head|, a + b + c, d);
    AtParts(file, pos + |head|, a + b, c);
    AtParts(file, pos + |head|, a, b);
  }

  /** The list that goes with a log: every entry with the offset of its record. */
  ghost function Placed(log: Log): (nodes: seq<Stored>)
    ensures |nodes| == |log| && Entries(nodes) == log && InPlace(nodes)
  {
    var nodes := seq(|log|, i requires 0 <= i < |log| => Stored(log[i], |FileOf(log[..i])|));
    assert Entries(nodes) == log;
    nodes
  }

  lemma {:induction false} LoadFrom(log: Log, k: nat, junk: Entry)
    requires k <= |log| && forall i :: 0 <= i < |log| ==> Fits(log[i])
    ensures |FileOf(log[..k])| <= |FileOf(log)|
    ensures ReadAll(FileOf(log), |FileOf(log[..k])|, Loaded(Placed(log)[..k], |FileOf(log[..k])|), junk)
         == Some(Loaded(Placed(log), |FileOf(log)|))
    decreases |log| - k
  {
    hide FileOf, Record, ReadRecord, Fits;
    var file, pos := FileOf(log), |FileOf(log[..k])|;
    FileOfSplit(log, k);
    if k == |log| {
      assert log[..k] == log;
      assert Placed(log)[..k] == Placed(log);
    } else {
      FileOfSplit(log, k + 1);
      FileOfSnoc(log[..k], log[k]);
      assert log[..k] + [log[k]] == log[..k + 1];
      assert At(file, pos, Record(log[k]));
      RecordReads(file, pos, log[k], junk);
      LoadFrom(log, k + 1, junk);
      assert Placed(log)[..k] + [Stored(log[k], pos)] == Placed(log)[..k + 1];
    }
  }

  /** `loadLogFile` rebuilds the list, the positions and the size from the file of any log that fits. */
  lemma {:induction false} LoadInvertsWrite(nodes: seq<Stored>, junk: Entry)
    requires InPlace(nodes) && forall i :: 0 <= i < |nodes| ==> Fits(nodes[i].entry)
    ensures var file := FileOf(Entries(nodes));
      ReadAll(file, 0, Loaded([], 0), junk) == Some(Loaded(nodes, |file|))
  {
    hide ReadAll, Fits;
    var log := Entries(nodes);
    LoadFrom(log, 0, junk);
    assert log[..0] == [];
    assert Placed(log)[..0] == [];
    assert Placed(log) == nodes;
  }

  // ---- a file that breaks off in the middle of a record -----------------------------------

  lemma {:induction false} LineTorn(file: seq<byte>, pos: nat, room: nat)
    requires pos <= |file| && |file| - pos <= room && forall i :: pos <= i < |file| ==> file[i] != 10
    ensures LineEnd(file, pos, room) == |file|
    decreases room
  {
    if pos < |file| {
      LineTorn(file, pos + 1, room - 1);
    }
  }

  /** The first k bytes of a string end the file. */
  ghost predicate Torn(file: seq<byte>, pos: nat, s: seq<byte>, k: nat) {
    k < |s| && pos + k == |file| && file[pos..] == s[..k]
  }

  lemma TornByte(file: seq<byte>, pos: nat, s: seq<byte>, k: nat, i: nat)
    requires Torn(file, pos, s, k) && i < k
    ensures file[pos + i] == s[i]
  {
    assert file[pos..][i] == s[..k][i];
  }

  /** The part that breaks off, behind one that is whole. */
  lemma TornParts(file: seq<byte>, pos: nat, a: seq<byte>, b: seq<byte>, k: nat)
    requires Torn(file, pos, a + b, k)
    ensures k < |a| ==> Torn(file, pos, a, k)
    ensures k >= |a| ==> At(file, pos, a) && Torn(file, pos + |a|, b, k - |a|)
  {
    if k < |a| {
      assert (a + b)[..k] == a[..k];
    } else {
      assert file[pos..pos + |a|] == file[pos..][..|a|] == a;
      assert file[pos + |a|..] == file[pos..][|a|..] == b[..k - |a|];
    }
  }

  /** A header line that breaks off is read to the end of the file. */
  lemma TornHeader(file: seq<byte>, pos: nat, mark: byte, n: nat, k: nat)
    requires n < 100 && Torn(file, pos, [mark] + Digits(n) + CRLF, k) && mark != 10
    ensures LineEnd(file, pos) == |file|
  {
    hide Digits, LineEnd;
    LastDigits(n);
    var head := [mark] + Digits(n) + CRLF;
    forall i | pos <= i < |file| ensures file[i] != 10 {
      TornByte(file, pos, head, k, i - pos);
    }
    LineTorn(file, pos, 127);
  }

  lemma TornArg(file: seq<byte>, pos: nat, s: seq<byte>, k: nat)
    requires |s| < 100 && Torn(file, pos, Arg(s), k)
    ensures ReadArg(file, pos) == None
  {
    hide Digits, CString, LineEnd, Atol;
    var head := [DOLLAR] + Digits(|s|) + CRLF;
    assert Arg(s) == head + (s + CRLF);
    TornParts(file, pos, head, s + CRLF, k);
    if k < |head| {
      TornHeader(file, pos, DOLLAR, |s|, k);
    } else {
      HeaderReads(file, pos, DOLLAR, |s|);
    }
  }

  lemma {:induction false} TornArgs(file: seq<byte>, p: Partial, j: nat, args: seq<seq<byte>>, k: nat)
    requires p.next <= |file| && Torn(file, p.next, Args(args), k) && forall i :: 0 <= i < |args| ==> |args[i]| < 100
    ensures ReadArgs(file, p, j, j + |args|) == None
    decreases |args|
  {
    hide Arg, ReadArg, SetField, Args;
    if args == [] {
      NoArgs();
    } else {
      ArgsFirst(args);
      TornParts(file, p.next, Arg(args[0]), Args(args[1..]), k);
      if k < |Arg(args[0])| {
        TornArg(file, p.next, args[0], k);
      } else {
        ArgReads(file, p.next, args[0]);
        var a := ReadArg(file, p.next).value;
        var e := SetField(p.entry, j, a.arg);
        if e.Some? {
          TornArgs(file, Partial(e.value, a.next, p.used + a.used), j + 1, args[1..], k - |Arg(args[0])|);
        }
      }
    }
  }

  lemma NoArgs()
    ensures Args([]) == []
  {
  }

  /** Wherever a record breaks off, it is refused. */
  lemma TornRecord(file: seq<byte>, pos: nat, e: Entry, k: nat, junk: Entry)
    requires Fits(e) && k > 0 && Torn(file, pos, Record(e), k)
    ensures ReadRecord(file, pos, junk) == None
  {
    hide Digits, CString, LineEnd, Atol, Arg, Args, Print, ReadArg, ReadArgs;
    var head := [STAR] + Digits(4) + CRLF;
    assert Record(e) == head + Args(Fields(e));
    TornParts(file, pos, head, Args(Fields(e)), k);
    if k < |head| {
      TornHeader(file, pos, STAR, 4, k);
      forall argc: nat, q: Partial | argc >= 1 && q.next == |file| ensures ReadArgs(file, q, 0, argc) == None {
        NothingToRead(file, q, argc);
      }
    } else {
      HeaderReads(file, pos, STAR, 4);
      ShortNumeral(e.index);
      ShortNumeral(e.term);
      TornArgs(file, Partial(junk, pos + |head|, |head|), 0, Fields(e), k - |head|);
    }
  }

  lemma NothingToRead(file: seq<byte>, p: Partial, argc: nat)
    requires p.next == |file| && argc >= 1
    ensures ReadArgs(file, p, 0, argc) == None
  {
    assert LineEnd(file, |file|) == |file|;
  }

  /** Replaying the records of any log with part of another behind them fails: a write that was cut short is noticed. */
  lemma TornFileIsRefused(log: Log, e: Entry, k: nat, junk: Entry)
    requires Fits(e) && 0 < k < |Record(e)| && forall i :: 0 <= i < |log| ==> Fits(log[i])
    ensures ReadAll(FileOf(log) + Record(e)[..k], 0, Loaded([], 0), junk) == None
  {
    hide FileOf, Record, ReadAll, Fits;
    assert log[..0] == [];
    assert Placed(log)[..0] == [];
    NoFile();
    TornFrom(log, 0, e, k, junk);
  }

  lemma NoFile()
    ensures FileOf([]) == []
  {
  }

  lemma {:induction false} TornFrom(log: Log, n: nat, e: Entry, k: nat, junk: Entry)
    requires n <= |log| && Fits(e) && 0 < k < |Record(e)| && forall i :: 0 <= i < |log| ==> Fits(log[i])
    ensures |FileOf(log[..n])| <= |FileOf(log)|
    ensures ReadAll(FileOf(log) + Record(e)[..k], |FileOf(log[..n])|, Loaded(Placed(log)[..n], |FileOf(log[..n])|), junk) == None
    decreases |log| - n
  {
    hide FileOf, Record, ReadRecord, Fits;
    var whole := FileOf(log);
    var file, pos := whole + Record(e)[..k], |FileOf(log[..n])|;
    FileOfSplit(log, n);
    if n == |log| {
      assert log[..n] == log;
      assert file[pos..] == Record(e)[..k];
      TornRecord(file, pos, e, k, junk);
    } else {
      FileOfSplit(log, n + 1);
      FileOfSnoc(log[..n], log[n]);
      assert log[..n] + [log[n]] == log[..n + 1];
      assert At(whole, pos, Record(log[n]));
      AtLonger(whole, Record(e)[..k], pos, Record(log[n]));
      RecordReads(file, pos, log[n], junk);
      TornFrom(log, n + 1, e, k, junk);
      assert Placed(log)[..n] + [Stored(log[n], pos)] == Placed(log)[..n + 1];
    }
  }

  lemma AtLonger(a: seq<byte>, b: seq<byte>, pos: nat, s: seq<byte>)
    requires At(a, pos, s)
    ensures At(a + b, pos, s)
  {
    assert (a + b)[pos..pos + |s|] == a[pos..pos + |s|];
  }

  /** The list, `log_current_size` and the file behind `log_fd`, whose writes are complete. */
  class LogStore {
    var nodes: seq<Stored>
    var size: nat
    var file: seq<byte>

    ghost predicate Valid()
      reads this
    {
      file == FileOf(Entries(nodes)) && size == |file| && InPlace(nodes)
    }

    constructor ()
      ensures Valid() && nodes == [] && file == []
    {
      nodes, size, file := [], 0, [];
    }

    /** `logTruncate`: cuts the file at the entry's offset and deletes the list nodes from there on. */
    method Truncate(index: int)
      requires Valid() && 1 <= index
      modifies this
      ensures Valid() && Entries(nodes) == RaftLog.Truncate(old(Entries(nodes)), index)
    {
      hide FileOf, Record, InPlace;
      if index < |nodes| {
        var p := index - 1;
        CutInPlace(nodes, p);
        ghost var all := nodes;
        file := file[..nodes[p].position];
        size := nodes[p].position;
        ghost var kept := file;
        while |nodes| > p
          invariant p <= |nodes| && nodes[..p] == all[..p]
          invariant file == kept && size == |kept|
        {
          nodes := nodes[..p] + nodes[p + 1..];
        }
        assert nodes == all[..p];
      }
    }

    /** `logWriteEntry`. */
    method WriteEntry(e: Entry)
      requires Valid()
      modifies this
      ensures Valid() && Entries(nodes) == RaftLog.WriteEntry(old(Entries(nodes)), e)
    {
      hide FileOf, Frame, InPlace;
      if |nodes| > 0 {
        var p := LogNode(Entries(nodes), e.index);
        if p.Some? {
          var en := nodes[p.value].entry;
          if en.index == e.index && en.term == e.term {
            return;
          } else if e.term != en.term && e.index == en.index {
            Truncate(e.index);
          }
        }
      }
      var buf := CatLogEntry([], Fields(e));
      assert buf == [] + Record(e) == Record(e);
      AppendInPlace(nodes, e);
      file := file + buf;
      nodes := nodes + [Stored(e, size)];
      size := size + |buf|;
    }

    /** `logAppendEntries`. */
    method AppendEntries(es: seq<Entry>)
      requires Valid()
      modifies this
      ensures Valid() && Entries(nodes) == AppendAll(old(Entries(nodes)), es)
    {
      hide RaftLog.WriteEntry;
      var i := 0;
      assert es[0..] == es;
      while i < |es|
        invariant 0 <= i <= |es| && Valid()
        invariant AppendAll(Entries(nodes), es[i..]) == AppendAll(old(Entries(nodes)), es)
      {
        WriteEntry(es[i]);
        assert es[i..][1..] == es[i + 1..];
        i := i + 1;
      }
      assert es[i..] == [];
    }

    /** One record of `loadLogFile`: the header line, then one argument per turn of the loop. */
    method LoadRecord(pos: nat, junk: Entry) returns (r: Option<Partial>)
      requires pos < |file|
      ensures r == ReadRecord(file, pos, junk)
    {
      hide LineEnd, CString, Atol, ParseLl, ReadArg, Buffered;
      var end := LineEnd(file, pos);
      var line := CString(file[pos..end]);
      if line == [] || line[0] != STAR {
        return None;
      }
      var argc := Atol(line[1..]);
      if argc < 1 {
        return None;
      }
      var p := Partial(junk, end, |line|);
      var j := 0;
      while j < argc
        invariant 0 <= j <= argc && p.next <= |file|
        invariant ReadArgs(file, p, j, argc) == ReadRecord(file, pos, junk)
      {
        var a := ReadArg(file, p.next);
        if a.None? {
          return None;
        }
        var e := p.entry;
        match j {
          case 0 =>
            var v := StringToLl(a.value.arg);
            if v.None? { return None; }
            e := e.(index := v.value);
          case 1 =>
            var v := StringToLl(a.value.arg);
            if v.None? { return None; }
            e := e.(term := v.value);
          case 2 => e := e.(name := Buffered(a.value.arg));
          case 3 => e := e.(command := Buffered(a.value.arg));
          case _ => return None;
        }
        p := Partial(e, a.value.next, p.used + a.value.used);
        j := j + 1;
      }
      r := Some(p);
    }

    /** `loadLogFile`, run once on an empty list. */
    method Load(junk: Entry) returns (ok: bool)
      requires nodes == []
      modifies this
      ensures file == old(file)
      ensures ok == ReadAll(file, 0, Loaded([], 0), junk).Some?
      ensures ok ==> Loaded(nodes, size) == ReadAll(file, 0, Loaded([], 0), junk).value
    {
      hide ReadRecord;
      var pos := 0;
      size := 0;
      while pos < |file|
        invariant pos <= |file| && file == old(file)
        invariant ReadAll(file, pos, Loaded(nodes, size), junk) == ReadAll(file, 0, Loaded([], 0), junk)
        decreases |file| - pos
      {
        var r := LoadRecord(pos, junk);
        if r.None? {
          return false;
        }
        nodes := nodes + [Stored(r.value.entry, size)];
        size := size + r.value.used;
        pos := r.value.next;
      }
      ok := true;
    }
  }
}
