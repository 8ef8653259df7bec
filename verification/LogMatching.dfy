/** Log Matching: what every run keeps of the logs, and exactly when the code keeps it. */
module LogMatching {
  import opened RaftLog
  import opened RaftNode
  import opened RaftSystem
  import opened ElectionSafety

  /** Two logs that share an (index, term) pair agree on everything up to it. */
  ghost predicate Matching(a: Log, b: Log) {
    forall k :: 0 <= k < |a| && k < |b| && a[k].term == b[k].term ==> a[..k + 1] == b[..k + 1]
  }

  /** The property of section 5.3 of the Raft paper, with list positions equal to indexes. */
  ghost predicate LogsMatch(s: System) {
    && (forall i :: 0 <= i < |s.nodes| ==> Positioned(s.nodes[i].log))
    && (forall i, j :: 0 <= i < |s.nodes| && 0 <= j < |s.nodes| ==>
          Matching(s.nodes[i].log, s.nodes[j].log))
  }

  /** The step hands a batch to a follower whose last entry is the first one in conflict. */
  ghost predicate SkippedConflict(s: System, a: Action)
    requires Enabled(s, a)
  {
    && a.Deliver? && a.m.AppendEntries?
    && Accepts(s.nodes[a.m.to], a.m)
    && a.m.prevIndex >= 0
    && ConflictsAtLast(s.nodes[a.m.to].log, a.m.entries, a.m.prevIndex)
  }

  // ---- the invariant ----------------------------------------------------------------------

  /** Up to any entry of term t, the log is a prefix of the log of term t's leader. */
  ghost predicate Derived(log: Log, logs: map<int, Log>) {
    && Positioned(log)
    && forall k :: 0 <= k < |log| ==>
         && log[k].term in logs
         && k < |logs[log[k].term]|
         && log[..k + 1] == logs[log[k].term][..k + 1]
  }

  ghost predicate LeaderLogsOk(h: History) {
    && h.logs.Keys == h.chief.Keys
    && forall t :: t in h.logs ==> Derived(h.logs[t], h.logs)
  }

  ghost predicate NodeLogsOk(nodes: seq<Node>, h: History) {
    && (forall i :: 0 <= i < |nodes| ==> Derived(nodes[i].log, h.logs))
    && (forall i :: 0 <= i < |nodes| && nodes[i].role == Leader && nodes[i].term in h.logs ==>
          nodes[i].log == h.logs[nodes[i].term])
  }

  /** A batch is a stretch of its leader's log, announced with the term that precedes it. */
  ghost predicate FromLeader(m: Message, logs: map<int, Log>)
    requires m.AppendEntries?
  {
    m.entries != [] ==>
      && m.term in logs
      && 0 <= m.prevIndex && m.prevIndex + |m.entries| <= |logs[m.term]|
      && m.entries == logs[m.term][m.prevIndex..m.prevIndex + |m.entries|]
      && (m.prevIndex > 0 ==> m.prevTerm == logs[m.term][m.prevIndex - 1].term)
  }

  ghost predicate BatchLogsOk(net: multiset<Message>, h: History) {
    forall m :: m in net && m.AppendEntries? ==> FromLeader(m, h.logs)
  }

  ghost predicate LogInv(s: System, h: History) {
    && LeaderLogsOk(h)
    && NodeLogsOk(s.nodes, h)
    && BatchLogsOk(s.net, h)
  }

  // ---- logs that descend from leaders match -----------------------------------------------

  lemma DerivedMatch(a: Log, b: Log, logs: map<int, Log>)
    requires Derived(a, logs) && Derived(b, logs)
    ensures Matching(a, b)
  {
  }

  lemma InvMatches(s: System, h: History)
    requires LogInv(s, h)
    ensures LogsMatch(s)
  {
    forall i, j | 0 <= i < |s.nodes| && 0 <= j < |s.nodes|
      ensures Matching(s.nodes[i].log, s.nodes[j].log)
    {
      DerivedMatch(s.nodes[i].log, s.nodes[j].log, h.logs);
    }
  }

  /** A prefix of a derived log is derived. */
  lemma DerivedPrefix(log: Log, n: nat, logs: map<int, Log>)
    requires Derived(log, logs) && n <= |log|
    ensures Derived(log[..n], logs)
  {
    var cut := log[..n];
    forall k | 0 <= k < n
      ensures cut[k].term in logs && k < |logs[cut[k].term]| && cut[..k + 1] == logs[cut[k].term][..k + 1]
    {
      assert cut[..k + 1] == log[..k + 1];
    }
  }

  /** A log that passes the check at `prev` and agrees with k entries shares that much with the leader. */
  lemma {:induction false} SharesPrefix(log: Log, boss: Log, logs: map<int, Log>, prev: nat, k: nat)
    requires Derived(log, logs) && Derived(boss, logs)
    requires prev + k <= |log| && prev + k <= |boss|
    requires prev > 0 ==> log[prev - 1].term == boss[prev - 1].term
    requires k > 0 ==> log[prev + k - 1].term == boss[prev + k - 1].term
    ensures log[..prev + k] == boss[..prev + k]
  {
    if prev + k > 0 {
      var i := prev + k - 1;
      assert log[i].term == boss[i].term;
      assert log[..i + 1] == logs[log[i].term][..i + 1] == boss[..i + 1];
    }
  }

  /** Splicing a stretch of the leader's log into a follower leaves it derived. */
  lemma SpliceDerived(log: Log, boss: Log, logs: map<int, Log>, prev: nat, es: seq<Entry>)
    requires Derived(log, logs) && Derived(boss, logs)
    requires prev <= |log| && prev + |es| <= |boss| && es == boss[prev..prev + |es|]
    requires prev > 0 ==> log[prev - 1].term == boss[prev - 1].term
    ensures Derived(Splice(log, es, prev), logs)
  {
    hide Agree, Derived;
    var k := Agree(log, es, prev);
    if k < |es| {
      SharesPrefix(log, boss, logs, prev, k);
      assert boss[..prev + k] + es[k..] == boss[..prev + |es|];
      DerivedPrefix(boss, prev + |es|, logs);
    }
  }

  /** A stretch of the leader's log that is not misplaced leaves the follower's log derived. */
  lemma StretchDerived(log: Log, boss: Log, logs: map<int, Log>, prev: nat, es: seq<Entry>)
    requires Derived(log, logs) && Derived(boss, logs) && Positioned(log) && Consecutive(es, prev)
    requires prev <= |log| && prev + |es| <= |boss| && es == boss[prev..prev + |es|]
    requires prev > 0 ==> log[prev - 1].term == boss[prev - 1].term
    requires !ConflictsAtLast(log, es, prev)
    ensures Derived(AppendAll(log, es), logs)
  {
    hide Agree, WriteEntry, AppendAll, Splice, Derived, Positioned, ConflictsAtLast, Consecutive;
    AppendAllMeaning(log, es, prev);
    SpliceDerived(log, boss, logs, prev, es);
  }

  /** A batch that is not misplaced leaves the follower's log derived. */
  lemma AppendDerived(log: Log, m: Message, h: History)
    requires LeaderLogsOk(h) && Derived(log, h.logs)
    requires m.AppendEntries? && FromLeader(m, h.logs) && VerifyAppend(log, m.prevIndex, m.prevTerm)
    requires m.prevIndex >= 0 ==> !ConflictsAtLast(log, m.entries, m.prevIndex)
    ensures Derived(AppendAll(log, m.entries), h.logs)
  {
    hide ConflictsAtLast, Consecutive, Derived, AppendAll, Positioned;
    if m.entries == [] {
      NothingToAppend(log);
    } else {
      DerivedPositioned(log, h.logs);
      BatchConsecutive(m, h);
      StretchDerived(log, h.logs[m.term], h.logs, m.prevIndex, m.entries);
    }
  }

  lemma NothingToAppend(log: Log)
    ensures AppendAll(log, []) == log
  {
  }

  lemma DerivedPositioned(log: Log, logs: map<int, Log>)
    requires Derived(log, logs)
    ensures Positioned(log)
  {
  }

  // ---- every step keeps the invariant -----------------------------------------------------

  lemma DerivedGrows(log: Log, logs: map<int, Log>, logs': map<int, Log>)
    requires Derived(log, logs)
    requires forall t :: t in logs ==> t in logs' && logs[t] <= logs'[t]
    ensures Derived(log, logs')
  {
    forall k | 0 <= k < |log|
      ensures log[k].term in logs' && k < |logs'[log[k].term]|
      ensures log[..k + 1] == logs'[log[k].term][..k + 1]
    {
      var t := log[k].term;
      assert logs[t][..k + 1] == logs'[t][..k + 1];
    }
  }

  lemma FromLeaderGrows(m: Message, logs: map<int, Log>, logs': map<int, Log>)
    requires m.AppendEntries? && FromLeader(m, logs)
    requires forall t :: t in logs ==> t in logs' && logs[t] <= logs'[t]
    ensures FromLeader(m, logs')
  {
    if m.entries != [] {
      var a, b := logs[m.term], logs'[m.term];
      assert b[m.prevIndex..m.prevIndex + |m.entries|] == a[m.prevIndex..m.prevIndex + |m.entries|];
    }
  }

  /** Winning a term starts its leader log with the winner's own. */
  lemma WinKeeps(s: System, h: History, i: nat)
    requires Inv(s, h) && LogInv(s, h) && Enabled(s, Win(i))
    ensures LogInv(Next(s, Win(i)), Recorded(s, h, Win(i)))
  {
    hide Inv, Derived, FromLeader;
    Won(s, h, i);
    LeadersKnown(s, h);
    var h' := Recorded(s, h, Win(i));
    assert forall t :: t in h.logs ==> t in h'.logs && h.logs[t] <= h'.logs[t];
    forall t | t in h'.logs ensures Derived(h'.logs[t], h'.logs) {
      var l := if t in h.logs then h.logs[t] else s.nodes[i].log;
      DerivedGrows(l, h.logs, h'.logs);
    }
    NodesGrow(s.nodes, h, h');
    NetGrows(s.net, h, h');
  }

  lemma LeadersKnown(s: System, h: History)
    requires Inv(s, h)
    ensures forall i :: 0 <= i < |s.nodes| && s.nodes[i].role == Leader ==> s.nodes[i].term in h.chief
  {
  }

  lemma NodesGrow(nodes: seq<Node>, h: History, h': History)
    requires forall i :: 0 <= i < |nodes| ==> Derived(nodes[i].log, h.logs)
    requires forall t :: t in h.logs ==> t in h'.logs && h.logs[t] <= h'.logs[t]
    ensures forall i :: 0 <= i < |nodes| ==> Derived(nodes[i].log, h'.logs)
  {
    forall i | 0 <= i < |nodes| ensures Derived(nodes[i].log, h'.logs) {
      DerivedGrows(nodes[i].log, h.logs, h'.logs);
    }
  }

  lemma NetGrows(net: multiset<Message>, h: History, h': History)
    requires BatchLogsOk(net, h)
    requires forall t :: t in h.logs ==> t in h'.logs && h.logs[t] <= h'.logs[t]
    ensures BatchLogsOk(net, h')
  {
    forall m | m in net && m.AppendEntries? ensures FromLeader(m, h'.logs) {
      FromLeaderGrows(m, h.logs, h'.logs);
    }
  }

  /** A leader's own append extends its term's log by one entry of that term. */
  lemma CommandKeeps(s: System, h: History, a: Action)
    requires Inv(s, h) && LogInv(s, h) && Enabled(s, a) && a.Command?
    ensures LogInv(Next(s, a), Recorded(s, h, a))
  {
    hide Inv, Derived, WriteEntry, CommitUpTo, BatchLogsOk;
    var n := s.nodes[a.i];
    LeadersApart(s, h, a.i);
    var e := Entry(CurrentIndex(n.log) + 1, n.term, a.name, a.command);
    OwnAppend(n.log, e, h.logs);
    var h' := h.(logs := h.logs[n.term := n.log + [e]]);
    ExtendAll(s, h, h', a.i, e);
    ExtendNodes(s.nodes, h, h', a.i, OnCommand(n, a.name, a.command));
  }

  lemma ExtendNodes(nodes: seq<Node>, h: History, h': History, i: nat, n': Node)
    requires NodeLogsOk(nodes, h) && i < |nodes| && n'.term == nodes[i].term
    requires forall j :: 0 <= j < |nodes| ==> Derived(nodes[j].log, h'.logs)
    requires Derived(n'.log, h'.logs) && h'.logs == h.logs[n'.term := n'.log]
    requires forall j :: 0 <= j < |nodes| && j != i && nodes[j].role == Leader ==> nodes[j].term != n'.term
    ensures NodeLogsOk(nodes[i := n'], h')
  {
    hide Derived;
  }

  lemma ExtendAll(s: System, h: History, h': History, i: nat, e: Entry)
    requires LogInv(s, h) && i < |s.nodes| && e.term in h.logs && h.logs[e.term] == s.nodes[i].log
    requires e.index == |s.nodes[i].log| + 1
    requires h' == h.(logs := h.logs[e.term := s.nodes[i].log + [e]])
    ensures LeaderLogsOk(h') && BatchLogsOk(s.net, h') && Derived(s.nodes[i].log + [e], h'.logs)
    ensures forall j :: 0 <= j < |s.nodes| ==> Derived(s.nodes[j].log, h'.logs)
  {
    hide Positioned;
    var n, t := s.nodes[i], e.term;
    assert forall x :: x in h.logs ==> x in h'.logs && h.logs[x] <= h'.logs[x];
    forall x | x in h'.logs ensures Derived(h'.logs[x], h'.logs) {
      assert Derived(h.logs[x], h.logs);
      DerivedGrows(h.logs[x], h.logs, h'.logs);
      if x == t {
        ExtendDerived(n.log, e, h'.logs);
      }
    }
    NodesGrow(s.nodes, h, h');
    NetGrows(s.net, h, h');
  }

  lemma ExtendDerived(log: Log, e: Entry, logs: map<int, Log>)
    requires Derived(log, logs) && e.index == |log| + 1
    requires e.term in logs && logs[e.term] == log + [e]
    ensures Derived(log + [e], logs)
  {
    forall k | 0 <= k < |log| + 1
      ensures k < |logs[(log + [e])[k].term]| && (log + [e])[..k + 1] == logs[(log + [e])[k].term][..k + 1]
    {
      if k < |log| {
        assert (log + [e])[..k + 1] == log[..k + 1];
      }
    }
  }

  /** A leader's next entry never collides with one it holds. */
  lemma OwnAppend(log: Log, e: Entry, logs: map<int, Log>)
    requires Derived(log, logs) && e.index == CurrentIndex(log) + 1
    ensures WriteEntry(log, e) == log + [e] && e.index == |log| + 1
  {
  }

  lemma LeadersApart(s: System, h: History, i: nat)
    requires Inv(s, h) && i < |s.nodes| && s.nodes[i].role == Leader
    ensures s.nodes[i].term in h.chief
    ensures forall j :: 0 <= j < |s.nodes| && j != i && s.nodes[j].role == Leader ==>
              s.nodes[j].term != s.nodes[i].term
  {
  }

  /** A batch built by a leader is a stretch of its log. */
  lemma SendKeeps(s: System, h: History, i: nat, j: nat)
    requires Inv(s, h) && LogInv(s, h) && Enabled(s, SendAppend(i, j))
    ensures LogInv(Next(s, SendAppend(i, j)), h)
  {
    var n := s.nodes[i];
    var m := AppendRequest(n, i, j);
    assert n.term in h.chief && h.logs[n.term] == n.log;
    RequestFromLeader(n, i, j, h);
    assert forall x :: x in s.net + multiset{m} ==> x in s.net || x == m;
  }

  lemma RequestFromLeader(n: Node, i: nat, j: nat, h: History)
    requires j < |n.peers| && n.term in h.logs && h.logs[n.term] == n.log && Positioned(n.log)
    ensures FromLeader(AppendRequest(n, i, j), h.logs)
  {
    var next := n.peers[j].nextIndex;
    var es := Batch(n.log, next);
    if es != [] {
      assert 1 <= next <= |n.log|;
      assert n.log[next - 1..][..|es|] == n.log[next - 1..next - 1 + |es|];
    }
  }

  lemma KeepLog(s: System, h: History, i: nat, n': Node)
    requires Inv(s, h) && LogInv(s, h) && i < |s.nodes|
    requires n'.log == s.nodes[i].log
    requires n'.role == Leader ==> s.nodes[i].role == Leader && n'.term == s.nodes[i].term
    ensures LogInv(s.(nodes := s.nodes[i := n']), h)
  {
  }

  /** No batch of its own term ever reaches a leader. */
  lemma LeaderRefuses(s: System, h: History, m: Message)
    requires Inv(s, h) && m in s.net && m.AppendEntries? && s.nodes[m.to].role == Leader
    ensures m.term != s.nodes[m.to].term
  {
  }

  lemma AppendKeeps(s: System, h: History, m: Message)
    requires Inv(s, h) && LogInv(s, h) && Enabled(s, Deliver(m)) && m.AppendEntries?
    requires !SkippedConflict(s, Deliver(m))
    ensures LogInv(Next(s, Deliver(m)), h)
  {
    hide Inv, Derived, FromLeader, ConflictsAtLast, AppendAll, CommitUpTo, LeaderLogsOk;
    if s.nodes[m.to].role == Leader {
      LeaderRefuses(s, h, m);
    }
    var n := s.nodes[m.to];
    var n' := OnAppendEntries(n, m);
    var r := ReplyToAppend(n, m);
    if Accepts(n, m) {
      AppendDerived(n.log, m, h);
    }
    assert n'.role == Leader ==> n' == n;
    assert Derived(n'.log, h.logs);
    assert forall x :: x in s.net - multiset{m} + multiset{r} ==> x in s.net || x == r;
  }

  /** Every step but a skipped conflict keeps the invariant. */
  lemma StepLogInv(s: System, h: History, a: Action)
    requires Inv(s, h) && LogInv(s, h) && Enabled(s, a) && !SkippedConflict(s, a)
    ensures LogInv(Next(s, a), Recorded(s, h, a))
  {
    match a
    case Deliver(m) =>
      if m.AppendEntries? {
        AppendKeeps(s, h, m);
      } else {
        OtherDelivered(s, h, m);
      }
    case Lose(m) =>
      assert forall x :: x in s.net - multiset{m} ==> x in s.net;
    case Timeout(i, linked) =>
      TimeoutKeeps(s, h, i, linked);
    case Win(i) => WinKeeps(s, h, i);
    case SendAppend(i, j) => SendKeeps(s, h, i, j);
    case Command(i, name, command) => CommandKeeps(s, h, a);
    case UpdateCommit(i, c) => KeepLog(s, h, i, OnQuorumIndex(s.nodes[i], c));
    case Scramble(i, peers) => KeepLog(s, h, i, s.nodes[i].(peers := peers));
  }

  lemma TimeoutKeeps(s: System, h: History, i: nat, linked: set<nat>)
    requires Inv(s, h) && LogInv(s, h) && Enabled(s, Timeout(i, linked))
    ensures LogInv(Next(s, Timeout(i, linked)), Recorded(s, h, Timeout(i, linked)))
  {
    var n := Campaign(s.nodes[i], i);
    KeepLog(s, h, i, n);
    assert forall x :: x in s.net + multiset(Broadcast(n, i, linked)) && x.AppendEntries? ==> x in s.net;
  }

  lemma OtherDelivered(s: System, h: History, m: Message)
    requires Inv(s, h) && LogInv(s, h) && Enabled(s, Deliver(m)) && !m.AppendEntries?
    ensures LogInv(Next(s, Deliver(m)), Recorded(s, h, Deliver(m)))
  {
    hide Inv, LeaderLogsOk, Derived, FromLeader;
    var n := s.nodes[m.to];
    KeepLog(s, h, m.to, Receive(n, m));
    assert Recorded(s, h, Deliver(m)).logs == h.logs;
    assert Recorded(s, h, Deliver(m)).chief == h.chief;
    SameLogs(s.(nodes := s.nodes[m.to := Receive(n, m)]), h, Recorded(s, h, Deliver(m)));
    assert forall x :: x in s.net - multiset{m} + Replies(n, m) && x.AppendEntries? ==> x in s.net;
  }

  lemma SameLogs(s: System, h: History, h': History)
    requires LogInv(s, h) && h'.logs == h.logs && h'.chief == h.chief
    ensures LogInv(s, h')
  {
  }

  // ---- whole runs -------------------------------------------------------------------------

  /** Before any skipped conflict, the invariant holds at every state of a run. */
  lemma {:induction false} RunLogInv(run: seq<System>, acts: seq<Action>, k: nat)
    requires IsRun(run, acts) && k <= |acts|
    requires forall j :: 0 <= j < k ==> !SkippedConflict(run[j], acts[j])
    ensures LogInv(run[k], HistoryAt(run, acts, k))
  {
    hide Inv, LogInv, Next, Recorded, SkippedConflict, Enabled;
    if k == 0 {
      InitLogInv(run[0]);
    } else {
      RunLogInv(run, acts, k - 1);
      RunInv(run, acts, k - 1);
      StepLogInv(run[k - 1], HistoryAt(run, acts, k - 1), acts[k - 1]);
    }
  }

  lemma InitLogInv(s: System)
    requires Init(s)
    ensures LogInv(s, History(map[], map[], map[], map[]))
  {
  }

  /** A skipped conflict puts an entry at the wrong position. */
  lemma SkipMisplaces(s: System, h: History, a: Action)
    requires LogInv(s, h) && Enabled(s, a) && SkippedConflict(s, a)
    ensures !LogsMatch(Next(s, a))
  {
    hide Agree, Derived, Positioned, Consecutive, AppendAll, Matching;
    var m := a.m;
    var log := s.nodes[m.to].log;
    BatchConsecutive(m, h);
    DerivedPositioned(log, h.logs);
    AppendKeepsPositions(log, m.entries, m.prevIndex);
    assert !Positioned(Next(s, a).nodes[m.to].log);
  }

  lemma BatchConsecutive(m: Message, h: History)
    requires m.AppendEntries? && m.entries != [] && FromLeader(m, h.logs) && LeaderLogsOk(h)
    ensures Consecutive(m.entries, m.prevIndex)
  {
    assert Positioned(h.logs[m.term]);
  }

  /**
   * Log Matching, exactly: a run keeps it in every state if and only if no step of the run hands a
   * follower a batch whose first conflict is the follower's last entry.
   */
  lemma {:induction false} LogMatchingExactly(run: seq<System>, acts: seq<Action>)
    requires IsRun(run, acts)
    ensures (forall k :: 0 <= k < |run| ==> LogsMatch(run[k]))
       <==> (forall k :: 0 <= k < |acts| ==> !SkippedConflict(run[k], acts[k]))
  {
    hide LogInv, Next, SkippedConflict, Enabled, LogsMatch, Recorded;
    if forall k :: 0 <= k < |acts| ==> !SkippedConflict(run[k], acts[k]) {
      forall k | 0 <= k < |run| ensures LogsMatch(run[k]) {
        RunLogInv(run, acts, k);
        InvMatches(run[k], HistoryAt(run, acts, k));
      }
    } else {
      var k := FirstSkip(run, acts, 0);
      RunLogInv(run, acts, k);
      SkipMisplaces(run[k], HistoryAt(run, acts, k), acts[k]);
      assert !LogsMatch(run[k + 1]);
    }
  }

  lemma {:induction false} FirstSkip(run: seq<System>, acts: seq<Action>, from: nat) returns (k: nat)
    requires IsRun(run, acts) && from <= |acts|
    requires forall j :: 0 <= j < from ==> !SkippedConflict(run[j], acts[j])
    requires exists j :: 0 <= j < |acts| && SkippedConflict(run[j], acts[j])
    ensures k < |acts| && SkippedConflict(run[k], acts[k])
    ensures forall j :: 0 <= j < k ==> !SkippedConflict(run[j], acts[j])
    decreases |acts| - from
  {
    if SkippedConflict(run[from], acts[from]) {
      k := from;
    } else {
      k := FirstSkip(run, acts, from + 1);
    }
  }

  /** One step never shortens the log of a term's leader. */
  lemma LogsGrow(s: System, h: History, a: Action, t: int)
    requires Inv(s, h) && LogInv(s, h) && Enabled(s, a) && t in h.logs
    ensures t in Recorded(s, h, a).logs && h.logs[t] <= Recorded(s, h, a).logs[t]
  {
    hide Inv, WriteEntry, FromLeader;
    if a.Win? {
      Won(s, h, a.i);
    } else if a.Command? {
      LeadersApart(s, h, a.i);
      var n := s.nodes[a.i];
      OwnAppend(n.log, Entry(CurrentIndex(n.log) + 1, n.term, a.name, a.command), h.logs);
    }
  }

  lemma {:induction false} RunLogsGrow(run: seq<System>, acts: seq<Action>, j: nat, k: nat, t: int)
    requires IsRun(run, acts) && j <= k <= |acts|
    requires forall i :: 0 <= i < k ==> !SkippedConflict(run[i], acts[i])
    requires t in HistoryAt(run, acts, j).logs
    ensures t in HistoryAt(run, acts, k).logs
    ensures HistoryAt(run, acts, j).logs[t] <= HistoryAt(run, acts, k).logs[t]
    decreases k
  {
    hide Inv, LogInv, Next, Recorded, SkippedConflict, Enabled;
    if j < k {
      RunLogsGrow(run, acts, j, k - 1, t);
      RunInv(run, acts, k - 1);
      RunLogInv(run, acts, k - 1);
      LogsGrow(run[k - 1], HistoryAt(run, acts, k - 1), acts[k - 1], t);
    }
  }

  /** Leader Append-Only: while a server leads one term, its log only gets longer. */
  lemma {:induction false} LeaderAppendOnly(run: seq<System>, acts: seq<Action>, j: nat, k: nat, i: nat)
    requires IsRun(run, acts) && j <= k <= |acts|
    requires forall l :: 0 <= l < k ==> !SkippedConflict(run[l], acts[l])
    requires i < |run[j].nodes| && i < |run[k].nodes|
    requires run[j].nodes[i].role == Leader && run[k].nodes[i].role == Leader
    requires run[j].nodes[i].term == run[k].nodes[i].term
    ensures run[j].nodes[i].log <= run[k].nodes[i].log
  {
    hide Next, Recorded, SkippedConflict, Enabled, HistoryAt;
    RunInv(run, acts, j);
    RunInv(run, acts, k);
    RunLogInv(run, acts, j);
    RunLogInv(run, acts, k);
    RunLogsGrow(run, acts, j, k, run[j].nodes[i].term);
  }
}
