/** Commit indexes over runs: a leader's never goes down but can pass the end of its log, and a follower's can go down. */
module CommitPastEnd {
  import opened Prelude
  import opened RaftLog
  import opened RaftNode
  import opened RaftSystem
  import opened ElectionSafety
  import opened CommitChoice
  import opened MisplacedEntry
  import ClusterServer

  // ---- never down -------------------------------------------------------------------------

  lemma TermGrows(s: System, a: Action, i: nat)
    requires Enabled(s, a) && i < |s.nodes|
    ensures |Next(s, a).nodes| == |s.nodes| && Next(s, a).nodes[i].term >= s.nodes[i].term
  {
    hide AppendAll, VerifyAppend, CommitUpTo, GetTerm, FreshPeers, WriteEntry, Batch, Grants, Receive, Replies, Broadcast;
    match a {
      case Deliver(m) => TermReceives(s.nodes[m.to], m);
      case _ =>
    }
  }

  lemma TermReceives(n: Node, m: Message)
    requires m.AppendReply? ==> m.from < |n.peers|
    ensures Receive(n, m).term >= n.term
  {
    hide AppendAll, VerifyAppend, CommitUpTo, Grants;
  }

  /** A leader that stays in its term stays leader, and its commit index does not go down. */
  lemma LeaderStep(s: System, h: History, a: Action, i: nat)
    requires Inv(s, h) && Enabled(s, a) && i < |s.nodes| && s.nodes[i].role == Leader
    requires |Next(s, a).nodes| == |s.nodes| && Next(s, a).nodes[i].term == s.nodes[i].term
    ensures Next(s, a).nodes[i].role == Leader && Next(s, a).nodes[i].commit >= s.nodes[i].commit
  {
    hide Inv, AppendAll, VerifyAppend, CommitUpTo, GetTerm, FreshPeers, WriteEntry;
    match a {
      case Deliver(m) =>
        if m.to == i {
          NoOwnBatch(s, h, m, i);
          LeaderReceives(s.nodes[i], m);
        }
      case Command(j, name, command) =>
        if j == i {
          CommandCommits(s.nodes[i], name, command);
        }
      case _ =>
    }
  }

  /**
    Of all steps of a cluster, those that lower a server's commit index are exactly the appends it accepts from a leader
    that has committed more and that leave its log ending before that index.
   */
  lemma CommitDropsExactly(s: System, a: Action, i: nat)
    requires Enabled(s, a) && i < |s.nodes|
    ensures |Next(s, a).nodes| == |s.nodes|
    ensures var n := s.nodes[i];
      Next(s, a).nodes[i].commit < n.commit <==>
        && a.Deliver? && a.m.to == i && a.m.AppendEntries? && Accepts(n, a.m)
        && n.commit < a.m.commit && CurrentIndex(AppendAll(n.log, a.m.entries)) < n.commit
  {
    hide AppendAll, VerifyAppend, CommitUpTo, GetTerm, FreshPeers, WriteEntry, Batch, Grants, Receive, Replies, Broadcast, OnCommand;
    match a {
      case Deliver(m) => CommitReceives(s.nodes[m.to], m);
      case Command(j, name, command) => CommandCommits(s.nodes[j], name, command);
      case _ =>
    }
  }

  lemma CommitReceives(n: Node, m: Message)
    requires m.AppendReply? ==> m.from < |n.peers|
    ensures Receive(n, m).commit < n.commit <==>
              && m.AppendEntries? && Accepts(n, m)
              && n.commit < m.commit && CurrentIndex(AppendAll(n.log, m.entries)) < n.commit
  {
    hide AppendAll, VerifyAppend, Grants;
  }

  /** Nobody sends a leader a batch of its own term. */
  lemma NoOwnBatch(s: System, h: History, m: Message, i: nat)
    requires Inv(s, h) && m in s.net && m.to == i && i < |s.nodes| && s.nodes[i].role == Leader
    ensures m.AppendEntries? ==> m.term != s.nodes[i].term
  {
    hide BallotsOk, TallyOk, TokensOk;
  }

  lemma LeaderReceives(n: Node, m: Message)
    requires n.role == Leader && (m.AppendEntries? ==> m.term != n.term) && (m.AppendReply? ==> m.from < |n.peers|)
    ensures Receive(n, m).term == n.term ==> Receive(n, m).role == Leader && Receive(n, m).commit == n.commit
  {
    hide AppendAll, VerifyAppend, CommitUpTo;
  }

  lemma CommandCommits(n: Node, name: seq<byte>, command: seq<byte>)
    ensures OnCommand(n, name, command).commit >= n.commit && OnCommand(n, name, command).role == n.role
  {
    hide WriteEntry;
  }

  lemma {:induction false} TermsGrow(run: seq<System>, acts: seq<Action>, j: nat, k: nat, i: nat)
    requires IsRun(run, acts) && j <= k <= |acts| && i < |run[j].nodes|
    ensures |run[k].nodes| == |run[j].nodes| && run[k].nodes[i].term >= run[j].nodes[i].term
    decreases k
  {
    hide Next, Enabled, Init;
    if j < k {
      TermsGrow(run, acts, j, k - 1, i);
      TermGrows(run[k - 1], acts[k - 1], i);
    }
  }

  /** While a server leads one term, its commit index never goes down. */
  lemma {:induction false} LeaderCommitGrows(run: seq<System>, acts: seq<Action>, j: nat, k: nat, i: nat)
    requires IsRun(run, acts) && j <= k <= |acts| && i < |run[j].nodes| && i < |run[k].nodes|
    requires run[j].nodes[i].role == Leader && run[j].nodes[i].term == run[k].nodes[i].term
    ensures run[k].nodes[i].role == Leader && run[j].nodes[i].commit <= run[k].nodes[i].commit
    decreases k
  {
    hide Next, Enabled, Init, Inv;
    if j < k {
      TermsGrow(run, acts, j, k - 1, i);
      TermsGrow(run, acts, k - 1, k, i);
      LeaderCommitGrows(run, acts, j, k - 1, i);
      RunInv(run, acts, k - 1);
      LeaderStep(run[k - 1], HistoryAt(run, acts, k - 1), acts[k - 1], i);
    }
  }

  // ---- past the end -----------------------------------------------------------------------

  const E1 := Entry(1, 1, [], [])
  const E2 := Entry(2, 1, [], [])
  const E3 := Entry(3, 1, [], [])
  const E4 := Entry(4, 1, [], [])
  const N2 := Entry(2, 3, [], [])

  /** No field is corrupted, and an index that is committed is the quorum's. */
  ghost predicate Genuine(s: System, a: Action) {
    match a
    case Scramble(_, _) => false
    case UpdateCommit(i, c) => i < |s.nodes| && QuorumIndex(ClusterServer.MatchIndexes(s.nodes[i].peers), Quorum(|s.nodes|), c)
    case _ => true
  }

  ghost predicate Goes(s: System, a: Action, s': System) {
    Step(s, a, s') && Genuine(s, a)
  }

  /** The steps from s through mid, all of them genuine. */
  ghost predicate Steps(s: System, acts: seq<Action>, mid: seq<System>) {
    && |acts| == |mid| > 0 && Goes(s, acts[0], mid[0])
    && forall k :: 1 <= k < |acts| ==> Goes(mid[k - 1], acts[k], mid[k])
  }

  ghost predicate GenuineRun(run: seq<System>, acts: seq<Action>) {
    IsRun(run, acts) && forall k :: 0 <= k < |acts| ==> Genuine(run[k], acts[k])
  }

  const HEARD1 := VOTER1.(leader := Some(0))
  const HEARD2 := IDLE.(term := 1, leader := Some(0))
  const OK1 := AppendReply(1, 0, 1, 0, 0, true)
  const OK2 := AppendReply(2, 0, 1, 0, 0, true)
  const BEAT1 := AppendEntries(0, 1, 1, 0, 0, 0, [])
  const BEAT2 := AppendEntries(0, 2, 1, 0, 0, 0, [])

  function Sys(a: Node, b: Node, c: Node, net: multiset<Message>): System {
    System([a, b, c], net)
  }

  function Nth(a: Node, b: Node, c: Node, i: nat): Node {
    if i == 0 then a else if i == 1 then b else c
  }

  /** The cluster with server i changed. */
  function Put(a: Node, b: Node, c: Node, i: nat, n: Node, net: multiset<Message>): System {
    Sys(if i == 0 then n else a, if i == 1 then n else b, if i == 2 then n else c, net)
  }

  lemma Sends(a: Node, b: Node, c: Node, net: multiset<Message>, i: nat, j: nat, m: Message, n: Node)
    requires i < 3 && j < 3 && i != j && Nth(a, b, c, i).role == Leader && |Nth(a, b, c, i).peers| == 3
    requires m == AppendRequest(Nth(a, b, c, i), i, j) && n == AfterAppendRequest(Nth(a, b, c, i), j)
    ensures Goes(Sys(a, b, c, net), SendAppend(i, j), Put(a, b, c, i, n, net + multiset{m}))
  {
    hide AppendRequest, AfterAppendRequest;
  }

  lemma Commands(a: Node, b: Node, c: Node, net: multiset<Message>, i: nat, n: Node)
    requires i < 3 && Nth(a, b, c, i).role == Leader && n == OnCommand(Nth(a, b, c, i), [], [])
    ensures Goes(Sys(a, b, c, net), Command(i, [], []), Put(a, b, c, i, n, net))
  {
    hide OnCommand;
  }

  /** One server asks another for its vote. */
  lemma Campaigns(a: Node, b: Node, c: Node, net: multiset<Message>, i: nat, j: nat, n: Node, m: Message)
    requires i < 3 && j < 3 && i != j && Nth(a, b, c, i).role != Leader && n == Campaign(Nth(a, b, c, i), i) && m == VoteRequest(n, i, j)
    ensures Goes(Sys(a, b, c, net), Timeout(i, {j}), Put(a, b, c, i, n, net + multiset{m}))
  {
    hide Campaign, VoteRequest;
    assert Broadcast(n, i, {j}) == {m};
    assert multiset({m}) == multiset{m};
  }

  lemma TakesOffice(a: Node, b: Node, c: Node, net: multiset<Message>, i: nat, n: Node)
    requires i < 3 && Nth(a, b, c, i).role == Candidate && Nth(a, b, c, i).votes >= 2 && n == TakeOffice(Nth(a, b, c, i), i)
    ensures Goes(Sys(a, b, c, net), Win(i), Put(a, b, c, i, n, net))
  {
    hide TakeOffice;
  }

  lemma Commits(a: Node, b: Node, c: Node, net: multiset<Message>, i: nat, k: int, n: Node)
    requires i < 3 && Nth(a, b, c, i).role == Leader && n == OnQuorumIndex(Nth(a, b, c, i), k)
    requires QuorumIndex(ClusterServer.MatchIndexes(Nth(a, b, c, i).peers), Quorum(3), k)
    ensures Goes(Sys(a, b, c, net), UpdateCommit(i, k), Put(a, b, c, i, n, net))
  {
    hide OnQuorumIndex, QuorumIndex, ClusterServer.MatchIndexes;
  }

  lemma Loses(a: Node, b: Node, c: Node, net: multiset<Message>, m: Message)
    ensures Goes(Sys(a, b, c, net + multiset{m}), Lose(m), Sys(a, b, c, net))
  {
    assert net + multiset{m} - multiset{m} == net;
  }

  lemma Delivers(a: Node, b: Node, c: Node, net: multiset<Message>, m: Message, n: Node, out: multiset<Message>)
    requires m.to < 3 && (m.AppendReply? ==> m.from < |Nth(a, b, c, m.to).peers|)
    requires n == Receive(Nth(a, b, c, m.to), m) && out == Replies(Nth(a, b, c, m.to), m)
    ensures Goes(Sys(a, b, c, net + multiset{m}), Deliver(m), Put(a, b, c, m.to, n, net + out))
  {
    hide Receive, Replies, Enabled;
    var s := Sys(a, b, c, net + multiset{m});
    assert s.nodes[m.to] == Nth(a, b, c, m.to);
    CanDeliver(s, m);
    assert s.net - multiset{m} == net;
    assert s.nodes[m.to := n] == Put(a, b, c, m.to, n, net + out).nodes;
  }

  lemma CanDeliver(s: System, m: Message)
    requires m in s.net && m.to < |s.nodes| && (m.AppendReply? ==> m.from < |s.nodes[m.to].peers|)
    ensures Enabled(s, Deliver(m))
  {
  }

  lemma BeatHeard()
    ensures AppendRequest(CHIEF0, 0, 1) == BEAT1 && AppendRequest(CHIEF0, 0, 2) == BEAT2
    ensures AfterAppendRequest(CHIEF0, 1) == CHIEF0 && AfterAppendRequest(CHIEF0, 2) == CHIEF0
    ensures OnAppendEntries(VOTER1, BEAT1) == HEARD1 && ReplyToAppend(VOTER1, BEAT1) == OK1
    ensures OnAppendEntries(IDLE, BEAT2) == HEARD2 && ReplyToAppend(IDLE, BEAT2) == OK2
  {
  }

  /** Server 0's empty heartbeats are answered, and the answers delayed. */
  lemma Heartbeats() returns (acts: seq<Action>, mid: seq<System>)
    ensures Steps(Sys(CHIEF0, VOTER1, IDLE, multiset{}), acts, mid)
    ensures mid[|mid| - 1] == Sys(CHIEF0, HEARD1, HEARD2, multiset{OK1, OK2})
  {
    hide Goes, OnAppendEntries, ReplyToAppend, AppendRequest, AfterAppendRequest;
    BeatHeard();
    assert multiset{} + multiset{BEAT1} == multiset{BEAT1} && multiset{} + multiset{OK1} == multiset{OK1};
    assert multiset{OK1} + multiset{OK2} == multiset{OK1, OK2};
    Sends(CHIEF0, VOTER1, IDLE, multiset{}, 0, 1, BEAT1, CHIEF0);
    Delivers(CHIEF0, VOTER1, IDLE, multiset{}, BEAT1, HEARD1, multiset{OK1});
    Sends(CHIEF0, HEARD1, IDLE, multiset{OK1}, 0, 2, BEAT2, CHIEF0);
    Delivers(CHIEF0, HEARD1, IDLE, multiset{OK1}, BEAT2, HEARD2, multiset{OK2});
    acts := [SendAppend(0, 1), Deliver(BEAT1), SendAppend(0, 2), Deliver(BEAT2)];
    mid := [Sys(CHIEF0, VOTER1, IDLE, multiset{BEAT1}), Sys(CHIEF0, HEARD1, IDLE, multiset{OK1}),
            Sys(CHIEF0, HEARD1, IDLE, multiset{OK1} + multiset{BEAT2}), Sys(CHIEF0, HEARD1, HEARD2, DELAYED)];
  }

  const DELAYED := multiset{OK1, OK2}

  function Led(log: Log): Node {
    CHIEF0.(log := log)
  }

  lemma Written(log: Log, e: Entry)
    requires Positioned(log) && e == Entry(|log| + 1, 1, [], [])
    ensures OnCommand(Led(log), [], []) == Led(log + [e])
  {
    assert CurrentIndex(log) == |log|;
  }

  /** Four entries of server 0's own. */
  lemma FourCommands() returns (acts: seq<Action>, mid: seq<System>)
    ensures Steps(Sys(CHIEF0, HEARD1, HEARD2, DELAYED), acts, mid)
    ensures mid[|mid| - 1] == Sys(Led([E1, E2, E3, E4]), HEARD1, HEARD2, DELAYED)
  {
    hide Goes, OnCommand;
    assert CHIEF0 == Led([]);
    Written([], E1);
    Written([E1], E2);
    Written([E1, E2], E3);
    Written([E1, E2, E3], E4);
    assert [] + [E1] == [E1] && [E1] + [E2] == [E1, E2] && [E1, E2] + [E3] == [E1, E2, E3];
    assert [E1, E2, E3] + [E4] == [E1, E2, E3, E4];
    Commands(Led([]), HEARD1, HEARD2, DELAYED, 0, Led([E1]));
    Commands(Led([E1]), HEARD1, HEARD2, DELAYED, 0, Led([E1, E2]));
    Commands(Led([E1, E2]), HEARD1, HEARD2, DELAYED, 0, Led([E1, E2, E3]));
    Commands(Led([E1, E2, E3]), HEARD1, HEARD2, DELAYED, 0, Led([E1, E2, E3, E4]));
    var c := Command(0, [], []);
    acts := [c, c, c, c];
    mid := [Sys(Led([E1]), HEARD1, HEARD2, DELAYED), Sys(Led([E1, E2]), HEARD1, HEARD2, DELAYED),
            Sys(Led([E1, E2, E3]), HEARD1, HEARD2, DELAYED), Sys(Led([E1, E2, E3, E4]), HEARD1, HEARD2, DELAYED)];
  }

  const SENT_ONE := Led([E1, E2, E3, E4]).(peers := [P, Peer(1, 0, Some(4)), Peer(1, 0, None)])
  const SENT_BOTH := Led([E1, E2, E3, E4]).(peers := [P, Peer(1, 0, Some(4)), Peer(1, 0, Some(4))])

  lemma Batches()
    ensures var l := [E1, E2, E3, E4];
      AppendRequest(Led(l), 0, 1) == AppendEntries(0, 1, 1, 0, 0, 0, l) && AfterAppendRequest(Led(l), 1) == SENT_ONE
      && AppendRequest(SENT_ONE, 0, 2) == AppendEntries(0, 2, 1, 0, 0, 0, l) && AfterAppendRequest(SENT_ONE, 2) == SENT_BOTH
  {
    assert [E1, E2, E3, E4][0..] == [E1, E2, E3, E4];
  }

  /** Both batches are lost, but remembered as sent. */
  lemma LostBatches() returns (acts: seq<Action>, mid: seq<System>)
    ensures Steps(Sys(Led([E1, E2, E3, E4]), HEARD1, HEARD2, DELAYED), acts, mid)
    ensures mid[|mid| - 1] == Sys(SENT_BOTH, HEARD1, HEARD2, DELAYED)
  {
    hide Goes, AppendRequest, AfterAppendRequest;
    var l := [E1, E2, E3, E4];
    var m1, m2 := AppendEntries(0, 1, 1, 0, 0, 0, l), AppendEntries(0, 2, 1, 0, 0, 0, l);
    Batches();
    Sends(Led(l), HEARD1, HEARD2, DELAYED, 0, 1, m1, SENT_ONE);
    Loses(SENT_ONE, HEARD1, HEARD2, DELAYED, m1);
    Sends(SENT_ONE, HEARD1, HEARD2, DELAYED, 0, 2, m2, SENT_BOTH);
    Loses(SENT_BOTH, HEARD1, HEARD2, DELAYED, m2);
    acts := [SendAppend(0, 1), Lose(m1), SendAppend(0, 2), Lose(m2)];
    mid := [Sys(SENT_ONE, HEARD1, HEARD2, DELAYED + multiset{m1}), Sys(SENT_ONE, HEARD1, HEARD2, DELAYED),
            Sys(SENT_BOTH, HEARD1, HEARD2, DELAYED + multiset{m2}), Sys(SENT_BOTH, HEARD1, HEARD2, DELAYED)];
  }

  // Server 1 wins term 2 with server 2's vote.
  const ASK := RequestVote(1, 2, 2, 0, 0)
  const YES := VoteReply(2, 1, 2, true)
  const CAND1 := HEARD1.(role := Candidate, leader := None, votedFor := Some(1), votes := 1, term := 2)
  const GAVE := HEARD2.(term := 2, leader := None, votedFor := Some(1))
  const LEAD1 := CAND1.(role := Leader, votes := 2, leader := Some(1), peers := [Peer(1, 0, None), P, Peer(1, 0, None)])

  lemma SecondTerm()
    ensures Campaign(HEARD1, 1) == CAND1 && VoteRequest(CAND1, 1, 2) == ASK
    ensures OnRequestVote(HEARD2, ASK) == GAVE && ReplyToVote(HEARD2, ASK) == YES
    ensures OnVoteReply(CAND1, 2, true) == CAND1.(votes := 2) && TakeOffice(CAND1.(votes := 2), 1) == LEAD1
  {
    assert FreshPeers(CAND1.(votes := 2), 1) == LEAD1.peers;
  }

  lemma OtherWins() returns (acts: seq<Action>, mid: seq<System>)
    ensures Steps(Sys(SENT_BOTH, HEARD1, HEARD2, DELAYED), acts, mid)
    ensures mid[|mid| - 1] == Sys(SENT_BOTH, LEAD1, GAVE, DELAYED)
  {
    hide Goes, Campaign, VoteRequest, OnRequestVote, ReplyToVote, OnVoteReply, TakeOffice;
    SecondTerm();
    assert DELAYED + multiset{} == DELAYED;
    Campaigns(SENT_BOTH, HEARD1, HEARD2, DELAYED, 1, 2, CAND1, ASK);
    Delivers(SENT_BOTH, CAND1, HEARD2, DELAYED, ASK, GAVE, multiset{YES});
    Delivers(SENT_BOTH, CAND1, GAVE, DELAYED, YES, CAND1.(votes := 2), multiset{});
    TakesOffice(SENT_BOTH, CAND1.(votes := 2), GAVE, DELAYED, 1, LEAD1);
    acts := [Timeout(1, {2}), Deliver(ASK), Deliver(YES), Win(1)];
    mid := [Sys(SENT_BOTH, CAND1, HEARD2, DELAYED + multiset{ASK}), Sys(SENT_BOTH, CAND1, GAVE, DELAYED + multiset{YES}),
            Sys(SENT_BOTH, CAND1.(votes := 2), GAVE, DELAYED), Sys(SENT_BOTH, LEAD1, GAVE, DELAYED)];
  }

  // Its own first entry replaces server 0's four, and server 2 has it too.
  const M2 := Entry(2, 2, [], [])
  const M3 := Entry(3, 2, [], [])
  const CUT := AppendEntries(1, 0, 2, 0, 0, 0, [NEW])
  const FIRST := AppendEntries(1, 2, 2, 0, 0, 0, [NEW])
  const DONE := AppendReply(0, 1, 2, 1, 0, true)
  const HAS := AppendReply(2, 1, 2, 1, 0, true)
  const CUT0 := SENT_BOTH.(role := Follower, term := 2, leader := Some(1), votedFor := None, log := [NEW])
  const HAS2 := GAVE.(leader := Some(1), log := [NEW])
  const SENT := DELAYED + multiset{DONE}
  const BOTH := DELAYED + multiset{DONE} + multiset{HAS}

  /** Server 1 as leader of term 2, with the last entries it sent to servers 0 and 2. */
  function Two(log: Log, to0: Option<int>, to2: Option<int>): Node {
    LEAD1.(log := log, peers := [Peer(1, 0, to0), P, Peer(1, 0, to2)])
  }

  lemma Replaced()
    ensures OnCommand(LEAD1, [], []) == Two([NEW], None, None)
    ensures AppendRequest(Two([NEW], None, None), 1, 0) == CUT && AfterAppendRequest(Two([NEW], None, None), 0) == Two([NEW], Some(1), None)
    ensures OnAppendEntries(SENT_BOTH, CUT) == CUT0 && ReplyToAppend(SENT_BOTH, CUT) == DONE
  {
    FirstEntry(LEAD1);
    assert [NEW][0..] == [NEW] && [NEW][1..] == [];
    assert WriteEntry([E1, E2, E3, E4], NEW) == [NEW];
    assert AppendAll([E1, E2, E3, E4], [NEW]) == [NEW];
  }

  lemma Followed()
    ensures AppendRequest(Two([NEW], Some(1), None), 1, 2) == FIRST
    ensures AfterAppendRequest(Two([NEW], Some(1), None), 2) == Two([NEW], Some(1), Some(1))
    ensures OnAppendEntries(GAVE, FIRST) == HAS2 && ReplyToAppend(GAVE, FIRST) == HAS
  {
    assert [NEW][0..] == [NEW] && [NEW][1..] == [];
    assert WriteEntry([], NEW) == [NEW];
    assert AppendAll([], [NEW]) == [NEW];
  }

  lemma CutsOff() returns (acts: seq<Action>, mid: seq<System>)
    ensures Steps(Sys(SENT_BOTH, LEAD1, GAVE, DELAYED), acts, mid)
    ensures mid[|mid| - 1] == Sys(CUT0, Two([NEW], Some(1), Some(1)), HAS2, BOTH)
  {
    hide Goes, OnCommand, AppendRequest, AfterAppendRequest, OnAppendEntries, ReplyToAppend;
    Replaced();
    Followed();
    var n0, n1, n2 := Two([NEW], None, None), Two([NEW], Some(1), None), Two([NEW], Some(1), Some(1));
    Commands(SENT_BOTH, LEAD1, GAVE, DELAYED, 1, n0);
    Sends(SENT_BOTH, n0, GAVE, DELAYED, 1, 0, CUT, n1);
    Delivers(SENT_BOTH, n1, GAVE, DELAYED, CUT, CUT0, multiset{DONE});
    Sends(CUT0, n1, GAVE, SENT, 1, 2, FIRST, n2);
    Delivers(CUT0, n2, GAVE, SENT, FIRST, HAS2, multiset{HAS});
    acts := [Command(1, [], []), SendAppend(1, 0), Deliver(CUT), SendAppend(1, 2), Deliver(FIRST)];
    mid := [Sys(SENT_BOTH, n0, GAVE, DELAYED), Sys(SENT_BOTH, n1, GAVE, DELAYED + multiset{CUT}), Sys(CUT0, n1, GAVE, SENT),
            Sys(CUT0, n2, GAVE, SENT + multiset{FIRST}), Sys(CUT0, n2, HAS2, BOTH)];
  }

  // Two more entries are lost on their way, and the answers to the first taken for theirs.
  const THREE: Log := [NEW, M2, M3]
  const LOST0 := AppendEntries(1, 0, 2, 0, 0, 0, THREE)
  const LOST2 := AppendEntries(1, 2, 2, 0, 0, 0, THREE)
  const HALF1 := Two(THREE, Some(3), Some(3)).(peers := [Peer(4, 3, Some(3)), P, Peer(1, 0, Some(3))])
  const FULL1 := Two(THREE, Some(3), Some(3)).(peers := [Peer(4, 3, Some(3)), P, Peer(4, 3, Some(3))])
  const DID1 := FULL1.(commit := 3)

  lemma TwoMore()
    ensures OnCommand(Two([NEW], Some(1), Some(1)), [], []) == Two([NEW, M2], Some(1), Some(1))
    ensures OnCommand(Two([NEW, M2], Some(1), Some(1)), [], []) == Two(THREE, Some(1), Some(1))
  {
    assert WriteEntry([NEW], M2) == [NEW, M2] && WriteEntry([NEW, M2], M3) == THREE;
  }

  lemma ThreeSent()
    ensures AppendRequest(Two(THREE, Some(1), Some(1)), 1, 0) == LOST0
    ensures AfterAppendRequest(Two(THREE, Some(1), Some(1)), 0) == Two(THREE, Some(3), Some(1))
    ensures AppendRequest(Two(THREE, Some(3), Some(1)), 1, 2) == LOST2
    ensures AfterAppendRequest(Two(THREE, Some(3), Some(1)), 2) == Two(THREE, Some(3), Some(3))
  {
    assert THREE[0..] == THREE;
  }

  lemma ThreeTaken()
    ensures OnAppendReply(Two(THREE, Some(3), Some(3)), 0, 2, true) == HALF1 && OnAppendReply(HALF1, 2, 2, true) == FULL1
    ensures OnQuorumIndex(FULL1, 3) == DID1
  {
  }

  lemma SendsMore() returns (acts: seq<Action>, mid: seq<System>)
    ensures Steps(Sys(CUT0, Two([NEW], Some(1), Some(1)), HAS2, BOTH), acts, mid)
    ensures mid[|mid| - 1] == Sys(CUT0, Two(THREE, Some(3), Some(3)), HAS2, BOTH)
  {
    hide Goes, OnCommand, AppendRequest, AfterAppendRequest;
    TwoMore();
    ThreeSent();
    var n1, n2, n3 := Two([NEW], Some(1), Some(1)), Two([NEW, M2], Some(1), Some(1)), Two(THREE, Some(1), Some(1));
    var n4, n5 := Two(THREE, Some(3), Some(1)), Two(THREE, Some(3), Some(3));
    Commands(CUT0, n1, HAS2, BOTH, 1, n2);
    Commands(CUT0, n2, HAS2, BOTH, 1, n3);
    Sends(CUT0, n3, HAS2, BOTH, 1, 0, LOST0, n4);
    Loses(CUT0, n4, HAS2, BOTH, LOST0);
    Sends(CUT0, n4, HAS2, BOTH, 1, 2, LOST2, n5);
    Loses(CUT0, n5, HAS2, BOTH, LOST2);
    var c := Command(1, [], []);
    acts := [c, c, SendAppend(1, 0), Lose(LOST0), SendAppend(1, 2), Lose(LOST2)];
    mid := [Sys(CUT0, n2, HAS2, BOTH), Sys(CUT0, n3, HAS2, BOTH), Sys(CUT0, n4, HAS2, BOTH + multiset{LOST0}),
            Sys(CUT0, n4, HAS2, BOTH), Sys(CUT0, n5, HAS2, BOTH + multiset{LOST2}), Sys(CUT0, n5, HAS2, BOTH)];
  }

  lemma CommitsThree() returns (acts: seq<Action>, mid: seq<System>)
    ensures Steps(Sys(CUT0, Two(THREE, Some(3), Some(3)), HAS2, BOTH), acts, mid)
    ensures mid[|mid| - 1] == Sys(CUT0, DID1, HAS2, DELAYED)
  {
    hide Goes, OnAppendReply, OnQuorumIndex, QuorumIndex, ClusterServer.MatchIndexes;
    ThreeTaken();
    QuorumIsThree();
    var n, none := Two(THREE, Some(3), Some(3)), multiset{};
    var rest := DELAYED + multiset{HAS};
    assert BOTH == rest + multiset{DONE} && rest + none == rest && DELAYED + none == DELAYED;
    Delivers(CUT0, n, HAS2, rest, DONE, HALF1, none);
    Delivers(CUT0, HALF1, HAS2, DELAYED, HAS, FULL1, none);
    Commits(CUT0, FULL1, HAS2, DELAYED, 1, 3, DID1);
    acts := [Deliver(DONE), Deliver(HAS), UpdateCommit(1, 3)];
    mid := [Sys(CUT0, HALF1, HAS2, rest), Sys(CUT0, FULL1, HAS2, DELAYED), Sys(CUT0, DID1, HAS2, DELAYED)];
  }

  /** Of three match indexes, two at k and one at 0, a quorum reaches k. */
  lemma TwoReach(s: seq<int>, k: int)
    requires k > 0 && multiset(s) == multiset{0, k, k} && |s| == 3
    ensures QuorumIndex(s, Quorum(3), k)
  {
    hide QuorumIndex;
    PickReaches([k, k, 0], 2);
    assert multiset([k, k, 0]) == multiset{0, k, k};
    PermutedQuorum(s, [k, k, 0], 2, k);
  }

  lemma QuorumIsThree()
    ensures QuorumIndex(ClusterServer.MatchIndexes(FULL1.peers), Quorum(3), 3)
  {
    hide QuorumIndex;
    assert ClusterServer.MatchIndexes(FULL1.peers) == [3, 0, 3];
    TwoReach([3, 0, 3], 3);
  }

  lemma QuorumIsFour()
    ensures QuorumIndex(ClusterServer.MatchIndexes(MATCH2.peers), Quorum(3), 4)
  {
    hide QuorumIndex;
    assert ClusterServer.MatchIndexes(MATCH2.peers) == [0, 4, 4];
    TwoReach([0, 4, 4], 4);
  }

  // Server 0 wins term 3, again with server 2's vote.
  const ASK3 := RequestVote(0, 2, 3, 1, 2)
  const YES3 := VoteReply(2, 0, 3, true)
  const CAND0 := CUT0.(role := Candidate, leader := None, votedFor := Some(0), votes := 1, term := 3)
  const GAVE3 := HAS2.(term := 3, leader := None, votedFor := Some(0))
  const BACK0 := CAND0.(role := Leader, votes := 2, leader := Some(0), peers := [P, Peer(2, 0, Some(4)), Peer(2, 0, Some(4))])

  lemma ThirdTerm()
    ensures Campaign(CUT0, 0) == CAND0 && VoteRequest(CAND0, 0, 2) == ASK3
    ensures OnRequestVote(HAS2, ASK3) == GAVE3 && ReplyToVote(HAS2, ASK3) == YES3
    ensures OnVoteReply(CAND0, 3, true) == CAND0.(votes := 2) && TakeOffice(CAND0.(votes := 2), 0) == BACK0
  {
    assert FreshPeers(CAND0.(votes := 2), 0) == BACK0.peers;
  }

  lemma WinsAgain() returns (acts: seq<Action>, mid: seq<System>)
    ensures Steps(Sys(CUT0, DID1, HAS2, DELAYED), acts, mid)
    ensures mid[|mid| - 1] == Sys(BACK0, DID1, GAVE3, DELAYED)
  {
    hide Goes, Campaign, VoteRequest, OnRequestVote, ReplyToVote, OnVoteReply, TakeOffice;
    ThirdTerm();
    assert DELAYED + multiset{} == DELAYED;
    Campaigns(CUT0, DID1, HAS2, DELAYED, 0, 2, CAND0, ASK3);
    Delivers(CAND0, DID1, HAS2, DELAYED, ASK3, GAVE3, multiset{YES3});
    Delivers(CAND0, DID1, GAVE3, DELAYED, YES3, CAND0.(votes := 2), multiset{});
    TakesOffice(CAND0.(votes := 2), DID1, GAVE3, DELAYED, 0, BACK0);
    acts := [Timeout(0, {2}), Deliver(ASK3), Deliver(YES3), Win(0)];
    mid := [Sys(CAND0, DID1, HAS2, DELAYED + multiset{ASK3}), Sys(CAND0, DID1, GAVE3, DELAYED + multiset{YES3}),
            Sys(CAND0.(votes := 2), DID1, GAVE3, DELAYED), Sys(BACK0, DID1, GAVE3, DELAYED)];
  }

  // The delayed answers are taken for answers to the lost batches.
  const WROTE0 := BACK0.(log := [NEW, N2])
  const MATCH1 := WROTE0.(peers := [P, Peer(5, 4, Some(4)), Peer(2, 0, Some(4))])
  const MATCH2 := WROTE0.(peers := [P, Peer(5, 4, Some(4)), Peer(5, 4, Some(4))])
  const PAST := MATCH2.(commit := 4)

  lemma Mistaken()
    ensures OnCommand(BACK0, [], []) == WROTE0
    ensures OnAppendReply(WROTE0, 1, 1, true) == MATCH1 && OnAppendReply(MATCH1, 2, 1, true) == MATCH2
    ensures OnQuorumIndex(MATCH2, 4) == PAST
  {
    assert WriteEntry([NEW], N2) == [NEW, N2];
  }

  lemma CountsDelayed() returns (acts: seq<Action>, mid: seq<System>)
    ensures Steps(Sys(BACK0, DID1, GAVE3, DELAYED), acts, mid)
    ensures |mid| == 4 && mid[2] == Sys(MATCH2, DID1, GAVE3, multiset{}) && mid[3] == Sys(PAST, DID1, GAVE3, multiset{})
    ensures acts[3] == UpdateCommit(0, 4)
  {
    hide Goes, OnCommand, OnAppendReply, OnQuorumIndex, QuorumIndex, ClusterServer.MatchIndexes;
    Mistaken();
    QuorumIsFour();
    assert DELAYED == multiset{OK2} + multiset{OK1} && multiset{OK2} == multiset{} + multiset{OK2};
    var none: multiset<Message> := multiset{};
    assert multiset{OK2} + none == multiset{OK2} && none + none == none;
    Commands(BACK0, DID1, GAVE3, DELAYED, 0, WROTE0);
    Delivers(WROTE0, DID1, GAVE3, multiset{OK2}, OK1, MATCH1, multiset{});
    Delivers(MATCH1, DID1, GAVE3, multiset{}, OK2, MATCH2, multiset{});
    Commits(MATCH2, DID1, GAVE3, multiset{}, 0, 4, PAST);
    acts := [Command(0, [], []), Deliver(OK1), Deliver(OK2), UpdateCommit(0, 4)];
    mid := [Sys(WROTE0, DID1, GAVE3, DELAYED), Sys(MATCH1, DID1, GAVE3, multiset{OK2}),
            Sys(MATCH2, DID1, GAVE3, multiset{}), Sys(PAST, DID1, GAVE3, multiset{})];
  }

  lemma Extended(run: seq<System>, acts: seq<Action>, more: seq<Action>, mid: seq<System>)
    requires GenuineRun(run, acts) && Steps(run[|acts|], more, mid)
    ensures GenuineRun(run + mid, acts + more)
    ensures (run + mid)[|acts + more|] == mid[|mid| - 1]
  {
    hide Next, Enabled, Init, Genuine;
    Extend(run, acts, more, mid);
    var all, steps := run + mid, acts + more;
    forall k | 0 <= k < |steps| ensures Genuine(all[k], steps[k]) {
      if k <= |acts| {
        assert all[k] == run[k];
      } else {
        assert all[k] == mid[k - |acts| - 1];
      }
    }
  }

  /** Up to where server 0 leads term 3 while two answers to its heartbeats of term 1 are still on their way. */
  lemma ToTermThree() returns (run: seq<System>, acts: seq<Action>)
    ensures GenuineRun(run, acts) && |run| == |acts| + 1 && run[|acts|] == Sys(BACK0, DID1, GAVE3, DELAYED)
  {
    hide Steps, GenuineRun;
    run, acts := Begin();
    var more, mid := Heartbeats();
    Extended(run, acts, more, mid);
    run, acts := run + mid, acts + more;
    more, mid := FourCommands();
    Extended(run, acts, more, mid);
    run, acts := run + mid, acts + more;
    more, mid := LostBatches();
    Extended(run, acts, more, mid);
    run, acts := run + mid, acts + more;
    more, mid := OtherWins();
    Extended(run, acts, more, mid);
    run, acts := run + mid, acts + more;
    more, mid := CutsOff();
    Extended(run, acts, more, mid);
    run, acts := run + mid, acts + more;
    more, mid := SendsMore();
    Extended(run, acts, more, mid);
    run, acts := run + mid, acts + more;
    more, mid := CommitsThree();
    Extended(run, acts, more, mid);
    run, acts := run + mid, acts + more;
    more, mid := WinsAgain();
    Extended(run, acts, more, mid);
    run, acts := run + mid, acts + more;
    RunLength(run, acts);
  }

  /**
    A run of three servers, with no field corrupted and only quorums' indexes committed, in which the largest index that a
    quorum of the leader's match indexes reach is 4, its log has two entries, and the leader commits 4.
   */
  lemma CommitPassesTheEnd() returns (run: seq<System>, acts: seq<Action>)
    ensures GenuineRun(run, acts)
    ensures |acts| > 0 && acts[|acts| - 1] == UpdateCommit(0, 4)
    ensures run[|acts| - 1].nodes == [MATCH2, DID1, GAVE3] && run[|acts|] == Sys(PAST, DID1, GAVE3, multiset{})
    ensures QuorumIndex(ClusterServer.MatchIndexes(MATCH2.peers), Quorum(3), 4)
    ensures PAST.role == Leader && PAST.commit == 4 && |PAST.log| == 2
  {
    hide Steps, GenuineRun, QuorumIndex, ClusterServer.MatchIndexes;
    QuorumIsFour();
    run, acts := ToTermThree();
    var more, mid := CountsDelayed();
    StepsLength(run[|acts|], more, mid);
    Extended(run, acts, more, mid);
    run, acts := run + mid, acts + more;
  }

  // ---- and a follower's goes down ---------------------------------------------------------

  // Server 2's campaign makes server 0 step down, and server 2's vote brings it back.
  const RAISED := RequestVote(2, 0, 4, 1, 2)
  const DENY := VoteReply(0, 2, 4, false)
  const CAND2 := GAVE3.(role := Candidate, leader := None, votedFor := Some(2), votes := 1, term := 4)
  const DOWN0 := PAST.(role := Follower, term := 4, leader := None, votedFor := None)
  const ASK5 := RequestVote(0, 2, 5, 2, 3)
  const YES5 := VoteReply(2, 0, 5, true)
  const CAND5 := DOWN0.(role := Candidate, votedFor := Some(0), votes := 1, term := 5)
  const GAVE5 := CAND2.(role := Follower, term := 5, leader := None, votedFor := Some(0))
  const LEAD5 := CAND5.(role := Leader, votes := 2, leader := Some(0), peers := [P, Peer(3, 0, Some(4)), Peer(3, 0, Some(4))])
  const LEFT := multiset{DENY}

  lemma StepsDown()
    ensures Campaign(GAVE3, 2) == CAND2 && VoteRequest(CAND2, 2, 0) == RAISED
    ensures OnRequestVote(PAST, RAISED) == DOWN0 && ReplyToVote(PAST, RAISED) == DENY
  {
  }

  lemma FifthTerm()
    ensures Campaign(DOWN0, 0) == CAND5 && VoteRequest(CAND5, 0, 2) == ASK5
    ensures OnRequestVote(CAND2, ASK5) == GAVE5 && ReplyToVote(CAND2, ASK5) == YES5
    ensures OnVoteReply(CAND5, 5, true) == CAND5.(votes := 2) && TakeOffice(CAND5.(votes := 2), 0) == LEAD5
  {
    assert FreshPeers(CAND5.(votes := 2), 0) == LEAD5.peers;
  }

  lemma WinsOnceMore() returns (acts: seq<Action>, mid: seq<System>)
    ensures Steps(Sys(PAST, DID1, GAVE3, multiset{}), acts, mid)
    ensures mid[|mid| - 1] == Sys(LEAD5, DID1, GAVE5, LEFT)
  {
    hide Goes, Campaign, VoteRequest, OnRequestVote, ReplyToVote, OnVoteReply, TakeOffice;
    StepsDown();
    FifthTerm();
    var none: multiset<Message> := multiset{};
    assert none + multiset{RAISED} == multiset{RAISED} && none + LEFT == LEFT && LEFT + none == LEFT;
    Campaigns(PAST, DID1, GAVE3, none, 2, 0, CAND2, RAISED);
    Delivers(PAST, DID1, CAND2, none, RAISED, DOWN0, LEFT);
    Campaigns(DOWN0, DID1, CAND2, LEFT, 0, 2, CAND5, ASK5);
    Delivers(CAND5, DID1, CAND2, LEFT, ASK5, GAVE5, multiset{YES5});
    Delivers(CAND5, DID1, GAVE5, LEFT, YES5, CAND5.(votes := 2), none);
    TakesOffice(CAND5.(votes := 2), DID1, GAVE5, LEFT, 0, LEAD5);
    acts := [Timeout(2, {0}), Deliver(RAISED), Timeout(0, {2}), Deliver(ASK5), Deliver(YES5), Win(0)];
    mid := [Sys(PAST, DID1, CAND2, multiset{RAISED}), Sys(DOWN0, DID1, CAND2, LEFT), Sys(CAND5, DID1, CAND2, LEFT + multiset{ASK5}),
            Sys(CAND5, DID1, GAVE5, LEFT + multiset{YES5}), Sys(CAND5.(votes := 2), DID1, GAVE5, LEFT), Sys(LEAD5, DID1, GAVE5, LEFT)];
  }

  // Server 1's log is cut to server 0's two entries, and its commit index with it.
  const TRY := AppendEntries(0, 1, 5, 2, 3, 4, [])
  const NO := AppendReply(1, 0, 5, 3, 3, false)
  const TRIED0 := LEAD5.(peers := [P, Peer(3, 0, None), Peer(3, 0, Some(4))])
  const BACKED0 := LEAD5.(peers := [P, Peer(2, 0, None), Peer(3, 0, Some(4))])
  const TOLD0 := LEAD5.(peers := [P, Peer(2, 0, Some(2)), Peer(3, 0, Some(4))])
  const FOLLOWS1 := DID1.(role := Follower, term := 5, leader := Some(0), votedFor := None)
  const LAST := AppendEntries(0, 1, 5, 1, 2, 4, [N2])
  const LOWER1 := FOLLOWS1.(log := [NEW, N2], commit := 2)
  const AGREED := AppendReply(1, 0, 5, 2, 2, true)

  lemma Refused()
    ensures AppendRequest(LEAD5, 0, 1) == TRY && AfterAppendRequest(LEAD5, 1) == TRIED0
    ensures OnAppendEntries(DID1, TRY) == FOLLOWS1 && ReplyToAppend(DID1, TRY) == NO
    ensures OnAppendReply(TRIED0, 1, 5, false) == BACKED0
  {
  }

  lemma Lowered()
    ensures AppendRequest(BACKED0, 0, 1) == LAST && AfterAppendRequest(BACKED0, 1) == TOLD0
    ensures OnAppendEntries(FOLLOWS1, LAST) == LOWER1 && ReplyToAppend(FOLLOWS1, LAST) == AGREED
  {
    assert [NEW, N2][1..] == [N2] && [N2][1..] == [];
    assert WriteEntry(THREE, N2) == [NEW, N2];
    assert AppendAll(THREE, [N2]) == [NEW, N2];
  }

  lemma CutsAgain() returns (acts: seq<Action>, mid: seq<System>)
    ensures Steps(Sys(LEAD5, DID1, GAVE5, LEFT), acts, mid)
    ensures |mid| == 5 && acts[4] == Deliver(LAST)
    ensures mid[3] == Sys(TOLD0, FOLLOWS1, GAVE5, LEFT + multiset{LAST}) && mid[4] == Sys(TOLD0, LOWER1, GAVE5, LEFT + multiset{AGREED})
  {
    hide Goes, AppendRequest, AfterAppendRequest, OnAppendEntries, ReplyToAppend, OnAppendReply;
    Refused();
    Lowered();
    assert LEFT + multiset{} == LEFT;
    Sends(LEAD5, DID1, GAVE5, LEFT, 0, 1, TRY, TRIED0);
    Delivers(TRIED0, DID1, GAVE5, LEFT, TRY, FOLLOWS1, multiset{NO});
    Delivers(TRIED0, FOLLOWS1, GAVE5, LEFT, NO, BACKED0, multiset{});
    Sends(BACKED0, FOLLOWS1, GAVE5, LEFT, 0, 1, LAST, TOLD0);
    Delivers(TOLD0, FOLLOWS1, GAVE5, LEFT, LAST, LOWER1, multiset{AGREED});
    acts := [SendAppend(0, 1), Deliver(TRY), Deliver(NO), SendAppend(0, 1), Deliver(LAST)];
    mid := [Sys(TRIED0, DID1, GAVE5, LEFT + multiset{TRY}), Sys(TRIED0, FOLLOWS1, GAVE5, LEFT + multiset{NO}),
            Sys(BACKED0, FOLLOWS1, GAVE5, LEFT), Sys(TOLD0, FOLLOWS1, GAVE5, LEFT + multiset{LAST}),
            Sys(TOLD0, LOWER1, GAVE5, LEFT + multiset{AGREED})];
  }

  /**
    A run of the same kind whose last step lowers the commit index of a follower from 3 to 2: a leader whose commit index
    is past the end of its log cuts the follower's log behind that log.
   */
  lemma FollowerCommitDrops() returns (run: seq<System>, acts: seq<Action>)
    ensures GenuineRun(run, acts) && |acts| > 0 && acts[|acts| - 1] == Deliver(LAST)
    ensures run[|acts| - 1].nodes[1] == FOLLOWS1 && run[|acts|].nodes[1] == LOWER1
    ensures FOLLOWS1.role == LOWER1.role == Follower && FOLLOWS1.commit == 3 && LOWER1.commit == 2
  {
    hide Steps, GenuineRun, QuorumIndex, ClusterServer.MatchIndexes;
    run, acts := CommitPassesTheEnd();
    var more, mid := WinsOnceMore();
    Extended(run, acts, more, mid);
    run, acts := run + mid, acts + more;
    more, mid := CutsAgain();
    RunLength(run, acts);
    StepsLength(run[|acts|], more, mid);
    Extended(run, acts, more, mid);
    run, acts := run + mid, acts + more;
  }

  lemma Begin() returns (run: seq<System>, acts: seq<Action>)
    ensures GenuineRun(run, acts)
    ensures |run| == |acts| + 1 && run[|acts|] == Sys(CHIEF0, VOTER1, IDLE, multiset{})
  {
    hide Next, Enabled, Init;
    run, acts := FirstElection();
  }

  lemma RunLength(run: seq<System>, acts: seq<Action>)
    requires GenuineRun(run, acts)
    ensures |run| == |acts| + 1
  {
    hide Next, Enabled, Init, Genuine;
  }

  lemma StepsLength(s: System, acts: seq<Action>, mid: seq<System>)
    requires Steps(s, acts, mid)
    ensures |acts| == |mid|
  {
    hide Goes;
  }
}
