/** The replicated log of src/log.c as a list of entries: lookup, truncation and append. */
module RaftLog {
  import opened Prelude

  /** `struct logEntry`; the command strings are opaque to the protocol. */
  datatype Entry = Entry(index: int, term: int, name: seq<byte>, command: seq<byte>)

  type Log = seq<Entry>

  /** `listIndex`: a negative index counts from the tail, any other from the head. */
  function ListIndex(len: nat, index: int): (r: Option<nat>)
    ensures r.Some? <==> 0 - len <= index < len
    ensures r.Some? ==> r.value < len
  {
    if index < 0 then (if len + index >= 0 then Some(len + index) else None)
    else if index < len then Some(index)
    else None
  }

  /** `getLogNode`: the position of entry `index`.  Past the end it wraps to the head. */
  function LogNode(log: Log, index: int): (r: Option<nat>)
    ensures r.Some? <==> 1 <= index <= 2 * |log|
    ensures 1 <= index <= |log| ==> r == Some(index - 1)
    ensures |log| < index <= 2 * |log| ==> r == Some(index - 1 - |log|)
  {
    ListIndex(|log|, index - 1 - |log|)
  }

  function CurrentIndex(log: Log): int {
    if |log| == 0 then 0 else log[|log| - 1].index
  }

  function CurrentTerm(log: Log): int {
    if |log| == 0 then 0 else log[|log| - 1].term
  }

  function GetTerm(log: Log, index: int): int {
    match LogNode(log, index)
    case Some(p) => log[p].term
    case None => 0
  }

  /** `logVerifyAppend`; the comparison with the length is unsigned, so a negative index is an error. */
  predicate VerifyAppend(log: Log, index: int, term: int) {
    index == 0 || (1 <= index <= |log| && log[index - 1].term == term)
  }

  /** `logTruncate`, whose guard leaves the last entry alone. */
  function Truncate(log: Log, index: int): Log
    requires 1 <= index
  {
    if index < |log| then log[..index - 1] else log
  }

  /** `logWriteEntry` on the in-memory list. */
  function WriteEntry(log: Log, e: Entry): Log {
    var p := LogNode(log, e.index);
    if p.Some? && log[p.value].index == e.index then
      if log[p.value].term == e.term then log
      else Truncate(log, e.index) + [e]
    else
      log + [e]
  }

  /** `logAppendEntries`. */
  function AppendAll(log: Log, es: seq<Entry>): Log
    decreases |es|
  {
    if es == [] then log else AppendAll(WriteEntry(log, es[0]), es[1..])
  }

  /** List position i holds the entry with index i. */
  ghost predicate Positioned(log: Log) {
    forall k :: 0 <= k < |log| ==> log[k].index == k + 1
  }

  /** The entries carry consecutive indexes starting after `prev`. */
  ghost predicate Consecutive(es: seq<Entry>, prev: int) {
    forall k :: 0 <= k < |es| ==> es[k].index == prev + 1 + k
  }

  /** How many leading entries of the batch the log already holds after `prev`, by term. */
  function Agree(log: Log, es: seq<Entry>, prev: nat, from: nat := 0): (k: nat)
    requires from <= |es|
    ensures from <= k <= |es|
    ensures k > from ==> prev + k <= |log|
    ensures forall j :: from <= j < k ==> log[prev + j].term == es[j].term
    ensures k < |es| && prev + k < |log| ==> log[prev + k].term != es[k].term
    decreases |es| - from
  {
    if from < |es| && prev + from < |log| && log[prev + from].term == es[from].term
    then Agree(log, es, prev, from + 1)
    else from
  }

  /** The batch's first conflict falls on the log's last entry: the case `logTruncate` skips. */
  predicate ConflictsAtLast(log: Log, es: seq<Entry>, prev: nat) {
    var k := Agree(log, es, prev);
    k < |es| && prev + k + 1 == |log|
  }

  /** The batch laid over the log from its first disagreement on. */
  function Splice(log: Log, es: seq<Entry>, prev: nat): Log
    requires prev <= |log|
  {
    var k := Agree(log, es, prev);
    if k == |es| then log else log[..prev + k] + es[k..]
  }

  /** A batch past the end is appended as it is. */
  lemma {:induction false} AppendPastEnd(log: Log, es: seq<Entry>)
    requires Positioned(log) && Consecutive(es, |log|)
    ensures AppendAll(log, es) == log + es
    decreases |es|
  {
    if es != [] {
      assert WriteEntry(log, es[0]) == log + [es[0]];
      AppendPastEnd(log + [es[0]], es[1..]);
      assert log + [es[0]] + es[1..] == log + es;
    }
  }

  /** Behind an entry whose index lags its position, a batch is also appended as it is. */
  lemma {:induction false} AppendPastLag(log: Log, es: seq<Entry>)
    requires log != [] && log[|log| - 1].index == |log| - 1 && Consecutive(es, |log| - 1)
    ensures AppendAll(log, es) == log + es
    decreases |es|
  {
    if es != [] {
      assert WriteEntry(log, es[0]) == log + [es[0]];
      AppendPastLag(log + [es[0]], es[1..]);
      assert log + [es[0]] + es[1..] == log + es;
    }
  }

  /** The entries the log already agrees with are skipped. */
  lemma {:induction false} AppendSkips(log: Log, es: seq<Entry>, prev: nat, from: nat := 0)
    requires Positioned(log) && Consecutive(es, prev) && from <= |es|
    ensures AppendAll(log, es[from..]) == AppendAll(log, es[Agree(log, es, prev, from)..])
    decreases |es| - from
  {
    if Agree(log, es, prev, from) > from {
      var p := LogNode(log, es[from].index);
      assert p == Some(prev + from);
      assert WriteEntry(log, es[from]) == log;
      assert es[from..][1..] == es[from + 1..];
      AppendSkips(log, es, prev, from + 1);
    }
  }

  /** A conflict before the last entry cuts the log there; the batch replaces the rest. */
  lemma {:induction false} AppendCuts(log: Log, es: seq<Entry>, prev: nat)
    requires Positioned(log) && Consecutive(es, prev) && prev + 1 < |log|
    requires es != [] && log[prev].term != es[0].term
    ensures AppendAll(log, es) == log[..prev] + es
  {
    assert LogNode(log, es[0].index) == Some(prev);
    var cut := log[..prev] + [es[0]];
    assert WriteEntry(log, es[0]) == cut;
    AppendPastEnd(cut, es[1..]);
    assert cut + es[1..] == log[..prev] + es;
  }

  lemma WriteLate(log: Log, e: Entry)
    requires log != [] && e.index == |log| && log[|log| - 1].index == e.index
    requires log[|log| - 1].term != e.term
    ensures WriteEntry(log, e) == log + [e]
  {
  }

  /** A conflict on the last entry leaves it in place, and the batch lands one position late. */
  lemma {:induction false} AppendLags(log: Log, es: seq<Entry>)
    requires log != [] && Positioned(log) && Consecutive(es, |log| - 1)
    requires es != [] && log[|log| - 1].term != es[0].term
    ensures AppendAll(log, es) == log + es
  {
    var late := log + [es[0]];
    WriteLate(log, es[0]);
    hide WriteEntry;
    AppendPastLag(late, es[1..]);
    assert late + es[1..] == log + es;
  }

  /**
   * `logAppendEntries` splices the batch into the log, except when the first conflict is the last
   * entry: then that entry stays and the batch lands one position late.
   */
  lemma {:induction false} AppendAllMeaning(log: Log, es: seq<Entry>, prev: nat)
    requires Positioned(log) && Consecutive(es, prev) && prev <= |log|
    ensures !ConflictsAtLast(log, es, prev) ==> AppendAll(log, es) == Splice(log, es, prev)
    ensures ConflictsAtLast(log, es, prev) ==> AppendAll(log, es) == log + es[Agree(log, es, prev)..]
  {
    hide Agree, WriteEntry;
    var k := Agree(log, es, prev);
    AppendSkips(log, es, prev);
    assert es[0..] == es;
    if k == |es| {
      assert es[k..] == [];
      assert AppendAll(log, []) == log;
    } else if prev + k == |log| {
      AppendPastEnd(log, es[k..]);
      assert log[..prev + k] == log;
    } else if prev + k + 1 < |log| {
      AppendCuts(log, es[k..], prev + k);
    } else {
      AppendLags(log, es[k..]);
    }
  }

  /** Positions and indexes stay aligned exactly when the last entry is not in conflict. */
  lemma {:induction false} AppendKeepsPositions(log: Log, es: seq<Entry>, prev: nat)
    requires Positioned(log) && Consecutive(es, prev) && prev <= |log|
    ensures Positioned(AppendAll(log, es)) <==> !ConflictsAtLast(log, es, prev)
  {
    AppendAllMeaning(log, es, prev);
    var k := Agree(log, es, prev);
    if ConflictsAtLast(log, es, prev) {
      assert (log + es[k..])[|log|] == es[k];
      assert es[k].index == |log|;
    }
  }
}
