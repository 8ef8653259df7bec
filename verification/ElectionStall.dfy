/** The voting rule of src/cluster.c against that of the Raft paper, and what its difference can do. */
module ElectionStall {
  import opened Prelude
  import opened RaftLog
  import opened RaftNode
  import opened RaftSystem
  import opened ElectionSafety
  import opened MisplacedEntry

  // ---- the rule ---------------------------------------------------------------------------

  /** Section 5.4.1 of the Raft paper: the later last term, or among equal ones the longer log. */
  predicate UpToDate(lastIndex: int, lastTerm: int, log: Log) {
    CurrentTerm(log) < lastTerm || (CurrentTerm(log) == lastTerm && CurrentIndex(log) <= lastIndex)
  }

  /** The vote as the paper has it. */
  predicate PaperGrants(n: Node, term: int, candidate: nat, lastIndex: int, lastTerm: int) {
    && n.term <= term && (n.term < term || n.votedFor.None? || n.votedFor == Some(candidate))
    && UpToDate(lastIndex, lastTerm, n.log)
  }

  /** A vote is given as in the paper except to a candidate whose log is newer but shorter. */
  lemma GrantsExactly(n: Node, term: int, candidate: nat, lastIndex: int, lastTerm: int)
    ensures Grants(n, term, candidate, lastIndex, lastTerm)
       <==> PaperGrants(n, term, candidate, lastIndex, lastTerm) && CurrentIndex(n.log) <= lastIndex
  {
  }

  /** A log's owner would not vote for the other's. */
  predicate Refuses(voter: Log, candidate: Log) {
    CurrentIndex(voter) > CurrentIndex(candidate) || CurrentTerm(voter) > CurrentTerm(candidate)
  }

  predicate LongerButOlder(a: Log, b: Log) {
    CurrentIndex(a) > CurrentIndex(b) && CurrentTerm(a) < CurrentTerm(b)
  }

  /** Under the paper's rule one of two logs can always have the other's vote; here, unless one is newer and the other longer. */
  lemma OneCanLead(a: Log, b: Log)
    ensures UpToDate(CurrentIndex(a), CurrentTerm(a), b) || UpToDate(CurrentIndex(b), CurrentTerm(b), a)
    ensures Refuses(a, b) && Refuses(b, a) <==> LongerButOlder(a, b) || LongerButOlder(b, a)
  {
  }

  // ---- servers that are up, on their own --------------------------------------------------

  ghost predicate Members(s: System, up: set<nat>) {
    forall i :: i in up ==> i < |s.nodes|
  }

  /** Those of the servers that are up whose vote a candidate can get. */
  ghost function Supporters(nodes: seq<Node>, up: set<nat>, c: nat): set<nat>
    requires c < |nodes|
  {
    set v | v in up && v < |nodes| && (v == c || !Refuses(nodes[v].log, nodes[c].log))
  }

  ghost predicate HasQuorum(s: System, up: set<nat>, c: nat) {
    c in up && c < |s.nodes| && |Supporters(s.nodes, up, c)| >= Quorum(|s.nodes|)
  }

  /** Nobody who is up leads or is about to, and no packet is on its way to them. */
  ghost predicate Quiet(s: System, up: set<nat>) {
    && Members(s, up)
    && (forall i :: i in up ==>
          s.nodes[i].role != Leader && (s.nodes[i].role == Candidate ==> s.nodes[i].votes < Quorum(|s.nodes|)))
    && forall m :: m in s.net ==> m.to !in up
  }

  /** Only servers that are up act or receive; packets may be lost. */
  predicate OnlyUp(a: Action, up: set<nat>) {
    match a
    case Deliver(m) => m.to in up
    case Lose(_) => true
    case Timeout(i, _) => i in up
    case Win(i) => i in up
    case SendAppend(i, _) => i in up
    case Command(i, _, _) => i in up
    case UpdateCommit(i, _) => i in up
    case Scramble(i, _) => i in up
  }

  /** A run of theirs, from any state. */
  ghost predicate Path(run: seq<System>, acts: seq<Action>, up: set<nat>) {
    && |run| == |acts| + 1
    && forall k :: 0 <= k < |acts| ==>
         OnlyUp(acts[k], up) && Enabled(run[k], acts[k]) && run[k + 1] == Next(run[k], acts[k])
  }

  ghost predicate OneLeads(s: System, up: set<nat>) {
    exists i :: i in up && i < |s.nodes| && s.nodes[i].role == Leader
  }

  /** Some run of the servers that are up makes one of them leader. */
  ghost predicate CanElect(s: System, up: set<nat>) {
    exists run, acts :: Path(run, acts, up) && run[0] == s && OneLeads(run[|acts|], up)
  }

  // ---- without a quorum of supporters -----------------------------------------------------

  /** No packet can bring the candidate another vote of its term. */
  ghost predicate NoMoreVotes(net: multiset<Message>, up: set<nat>, c: nat, t: int) {
    && (forall m :: m in net && m.VoteReply? && m.granted && m.to == c ==> m.term != t)
    && (forall m :: m in net && m.RequestVote? && m.from == c && m.to in up ==> m.term != t)
  }

  /** Either only supporters have been counted, or too few and no more to come. */
  ghost predicate Hopeless(s: System, h: History, up: set<nat>, c: nat)
    requires c < |s.nodes|
  {
    var t := s.nodes[c].term;
    (c, t) in h.tally
    && (h.tally[(c, t)] <= Supporters(s.nodes, up, c)
        || (s.nodes[c].votes < Quorum(|s.nodes|) && NoMoreVotes(s.net, up, c, t)))
  }

  ghost predicate NoneLeads(s: System, h: History, up: set<nat>)
    requires Members(s, up)
  {
    forall c :: c in up ==> s.nodes[c].role != Leader && (s.nodes[c].role == Candidate ==> Hopeless(s, h, up, c))
  }

  /** A packet to a server that is up: a request about its sender's log, or a vote that only a supporter gives. */
  ghost predicate Harmless(nodes: seq<Node>, up: set<nat>, m: Message) {
    m.to in up && m.to < |nodes| ==>
      || (m.VoteReply?
          && (m.granted && m.term == nodes[m.to].term && nodes[m.to].role == Candidate ==> m.from in Supporters(nodes, up, m.to)))
      || (m.RequestVote? && m.from in up && m.from != m.to && m.from < |nodes|
          && m.lastIndex == CurrentIndex(nodes[m.from].log) && m.lastTerm == CurrentTerm(nodes[m.from].log))
  }

  ghost predicate Stalled(s: System, h: History, up: set<nat>) {
    && Members(s, up) && NoneLeads(s, h, up)
    && (forall c :: c in up ==> !HasQuorum(s, up, c))
    && forall m :: m in s.net ==> Harmless(s.nodes, up, m)
  }


  /** A change of one server's role, term or counters, and of the packets, that keeps every log. */
  lemma OneChanges(s: System, h: History, up: set<nat>, i: nat, n: Node, net: multiset<Message>, h': History)
    requires Stalled(s, h, up) && i in up && n.log == s.nodes[i].log && n.role != Leader
    requires forall m :: m in net ==> Harmless(s.nodes[i := n], up, m)
    requires n.role == Candidate ==> Hopeless(System(s.nodes[i := n], net), h', up, i)
    requires forall c :: c in up && c != i && s.nodes[c].role == Candidate && Hopeless(s, h, up, c) ==>
               Hopeless(System(s.nodes[i := n], net), h', up, c)
    ensures Stalled(System(s.nodes[i := n], net), h', up)
  {
    var s' := System(s.nodes[i := n], net);
    forall c | c in up ensures Supporters(s'.nodes, up, c) == Supporters(s.nodes, up, c) {
    }
    assert forall c :: c in up ==> HasQuorum(s', up, c) == HasQuorum(s, up, c);
  }

  lemma SameSupporters(nodes: seq<Node>, up: set<nat>, i: nat, n: Node, c: nat)
    requires i < |nodes| && c < |nodes| && n.log == nodes[i].log
    ensures Supporters(nodes[i := n], up, c) == Supporters(nodes, up, c)
  {
  }

  /** A packet that speaks for a candidacy. */
  ghost predicate SpeaksFor(m: Message, c: nat, t: int) {
    (m.VoteReply? && m.granted && m.to == c && m.term == t) || (m.RequestVote? && m.from == c && m.term == t)
  }

  /** A candidacy stays hopeless while nothing new speaks for it. */
  lemma StillHopeless(s: System, h: History, up: set<nat>, c: nat, s': System, h': History)
    requires c < |s.nodes| == |s'.nodes| && Hopeless(s, h, up, c)
    requires s'.nodes[c].term == s.nodes[c].term && s'.nodes[c].votes == s.nodes[c].votes
    requires Supporters(s'.nodes, up, c) == Supporters(s.nodes, up, c)
    requires (c, s.nodes[c].term) in h'.tally && h'.tally[(c, s.nodes[c].term)] == h.tally[(c, s.nodes[c].term)]
    requires forall m :: m in s'.net ==> m in s.net || !SpeaksFor(m, c, s.nodes[c].term)
    ensures Hopeless(s', h', up, c)
  {
  }

  /** No vote has been cast in a term that has not begun. */
  lemma NoEarlyVote(s: System, h: History, m: Message)
    requires Inv(s, h) && m in s.net && m.VoteReply? && m.granted
    ensures m.to < |s.nodes| && m.term <= s.nodes[m.to].term
  {
    hide ChiefsOk, BatchesOk, BallotsOk, TallyCounts;
    assert Token(m) == Some((m.to, m.from, m.term));
  }

  lemma StillHarmless(s: System, h: History, up: set<nat>, i: nat, n: Node, m: Message)
    requires Inv(s, h) && m in s.net && i < |s.nodes| && n.log == s.nodes[i].log && Harmless(s.nodes, up, m)
    requires n.role == Candidate && n.term == s.nodes[i].term ==> s.nodes[i].role == Candidate
    requires n.term >= s.nodes[i].term
    ensures Harmless(s.nodes[i := n], up, m)
  {
    hide Inv, Supporters;
    if m.VoteReply? && m.granted {
      NoEarlyVote(s, h, m);
    }
    if m.to < |s.nodes| {
      SameSupporters(s.nodes, up, i, n, m.to);
    }
  }

  lemma TimeoutStalls(s: System, h: History, up: set<nat>, i: nat, linked: set<nat>)
    requires Stalled(s, h, up) && Inv(s, h) && i in up && Enabled(s, Timeout(i, linked))
    ensures Stalled(Next(s, Timeout(i, linked)), Recorded(s, h, Timeout(i, linked)), up)
  {
    hide Inv, Hopeless, Supporters;
    var n := Campaign(s.nodes[i], i);
    var out := Broadcast(n, i, linked);
    var s', h' := Next(s, Timeout(i, linked)), Recorded(s, h, Timeout(i, linked));
    forall m | m in s'.net ensures Harmless(s'.nodes, up, m) {
      if m in s.net {
        StillHarmless(s, h, up, i, n, m);
      } else {
        assert m in out;
      }
    }
    OwnVote(s', h', up, i);
    forall c | c in up && c != i && s.nodes[c].role == Candidate && Hopeless(s, h, up, c) ensures Hopeless(s', h', up, c) {
      SameSupporters(s.nodes, up, i, n, c);
      HasTally(s, h, up, c);
      forall m | m in s'.net && m !in s.net ensures !SpeaksFor(m, c, s.nodes[c].term) {
        assert m in out;
      }
      StillHopeless(s, h, up, c, s', h');
    }
    OneChanges(s, h, up, i, n, s'.net, h');
  }

  lemma OwnVote(s: System, h: History, up: set<nat>, i: nat)
    requires i in up && i < |s.nodes| && (i, s.nodes[i].term) in h.tally && h.tally[(i, s.nodes[i].term)] == {i}
    ensures Hopeless(s, h, up, i)
  {
  }

  lemma HasTally(s: System, h: History, up: set<nat>, c: nat)
    requires c < |s.nodes| && Hopeless(s, h, up, c)
    ensures (c, s.nodes[c].term) in h.tally
  {
  }

  /** A vote request among the servers that are up. */
  lemma RequestStalls(s: System, h: History, up: set<nat>, m: Message)
    requires Stalled(s, h, up) && Inv(s, h) && m.to in up && Enabled(s, Deliver(m)) && m.RequestVote?
    ensures Stalled(Next(s, Deliver(m)), Recorded(s, h, Deliver(m)), up)
  {
    hide Inv, Hopeless, Supporters;
    assert Harmless(s.nodes, up, m);
    var n := OnRequestVote(s.nodes[m.to], m);
    var r := ReplyToVote(s.nodes[m.to], m);
    var s', h' := Next(s, Deliver(m)), Recorded(s, h, Deliver(m));
    SameSupporters(s.nodes, up, m.to, n, m.from);
    GivenBySupporter(s.nodes, up, m);
    forall x | x in s'.net ensures Harmless(s'.nodes, up, x) {
      if x in s.net {
        StillHarmless(s, h, up, m.to, n, x);
      } else {
        assert x == r;
      }
    }
    forall c | c in up && s.nodes[c].role == Candidate && Hopeless(s, h, up, c)
                 && (c == m.to ==> n.role == Candidate)
      ensures Hopeless(s', h', up, c)
    {
      SameSupporters(s.nodes, up, m.to, n, c);
      HasTally(s, h, up, c);
      if c == m.from && m.term == s.nodes[c].term {
        StillOpen(s, h, up, c, m);
        Backed(s', h', up, c);
      } else {
        StillHopeless(s, h, up, c, s', h');
      }
    }
    OneChanges(s, h, up, m.to, n, s'.net, h');
  }

  /** Whoever gives its vote is a supporter. */
  lemma GivenBySupporter(nodes: seq<Node>, up: set<nat>, m: Message)
    requires m.RequestVote? && m.to in up && m.to < |nodes| && m.from < |nodes|
    requires m.lastIndex == CurrentIndex(nodes[m.from].log) && m.lastTerm == CurrentTerm(nodes[m.from].log)
    ensures ReplyToVote(nodes[m.to], m).granted ==> m.to in Supporters(nodes, up, m.from)
  {
  }

  /** A candidacy with a request on its way is hopeless only for want of supporters. */
  lemma StillOpen(s: System, h: History, up: set<nat>, c: nat, m: Message)
    requires c < |s.nodes| && Hopeless(s, h, up, c) && m in s.net && m.to in up && SpeaksFor(m, c, s.nodes[c].term)
    ensures h.tally[(c, s.nodes[c].term)] <= Supporters(s.nodes, up, c)
  {
  }

  lemma Backed(s: System, h: History, up: set<nat>, c: nat)
    requires c < |s.nodes| && (c, s.nodes[c].term) in h.tally
    requires h.tally[(c, s.nodes[c].term)] <= Supporters(s.nodes, up, c)
    ensures Hopeless(s, h, up, c)
  {
  }

  /** A reply to one of the servers that are up. */
  lemma ReplyStalls(s: System, h: History, up: set<nat>, m: Message)
    requires Stalled(s, h, up) && Inv(s, h) && m.to in up && Enabled(s, Deliver(m)) && m.VoteReply?
    ensures Stalled(Next(s, Deliver(m)), Recorded(s, h, Deliver(m)), up)
  {
    hide Inv, Hopeless, Supporters;
    assert Harmless(s.nodes, up, m);
    var c := m.to;
    var n := OnVoteReply(s.nodes[c], m.term, m.granted);
    var s', h' := Next(s, Deliver(m)), Recorded(s, h, Deliver(m));
    forall x | x in s'.net ensures Harmless(s'.nodes, up, x) {
      StillHarmless(s, h, up, c, n, x);
    }
    SameSupporters(s.nodes, up, c, n, c);
    if n.role == Candidate {
      HasTally(s, h, up, c);
      if m.granted && m.term == s.nodes[c].term {
        StillOpen(s, h, up, c, m);
        Backed(s', h', up, c);
      } else {
        StillHopeless(s, h, up, c, s', h');
      }
    }
    forall d | d in up && d != c && s.nodes[d].role == Candidate && Hopeless(s, h, up, d) ensures Hopeless(s', h', up, d) {
      SameSupporters(s.nodes, up, c, n, d);
      HasTally(s, h, up, d);
      StillHopeless(s, h, up, d, s', h');
    }
    OneChanges(s, h, up, c, n, s'.net, h');
  }

  lemma LoseStalls(s: System, h: History, up: set<nat>, m: Message)
    requires Stalled(s, h, up) && Enabled(s, Lose(m))
    ensures Stalled(Next(s, Lose(m)), h, up)
  {
    hide Supporters;
    var s' := Next(s, Lose(m));
    assert forall x :: x in s'.net ==> x in s.net;
    assert forall c :: c in up ==> HasQuorum(s', up, c) == HasQuorum(s, up, c);
    forall c | c in up && s.nodes[c].role == Candidate ensures Hopeless(s', h, up, c) {
      StillHopeless(s, h, up, c, s', h);
    }
  }

  lemma ScrambleStalls(s: System, h: History, up: set<nat>, i: nat, peers: seq<Peer>)
    requires Stalled(s, h, up) && Inv(s, h) && i in up && Enabled(s, Scramble(i, peers))
    ensures Stalled(Next(s, Scramble(i, peers)), h, up)
  {
    hide Inv, Hopeless, Supporters;
    var s', n := Next(s, Scramble(i, peers)), s.nodes[i].(peers := peers);
    forall x | x in s.net ensures Harmless(s'.nodes, up, x) {
      StillHarmless(s, h, up, i, n, x);
    }
    forall c | c in up && s.nodes[c].role == Candidate ensures Hopeless(s', h, up, c) {
      SameSupporters(s.nodes, up, i, n, c);
      HasTally(s, h, up, c);
      StillHopeless(s, h, up, c, s', h);
    }
    OneChanges(s, h, up, i, n, s.net, h);
  }

  /** Without a quorum of supporters a candidate never has a quorum of votes. */
  lemma TooFew(s: System, h: History, up: set<nat>, c: nat)
    requires Stalled(s, h, up) && Inv(s, h) && c in up && s.nodes[c].role == Candidate
    ensures s.nodes[c].votes < Quorum(|s.nodes|)
  {
    hide BallotsOk, TallySound, TokensOk, ChiefsOk, BatchesOk;
    var t := h.tally[(c, s.nodes[c].term)];
    if t <= Supporters(s.nodes, up, c) {
      SubsetSize(t, Supporters(s.nodes, up, c));
    }
  }

  lemma {:induction false} SubsetSize(a: set<nat>, b: set<nat>)
    requires a <= b
    ensures |a| <= |b|
  {
    assert b == a + (b - a);
  }

  /** No step of theirs changes that. */
  lemma StepStalls(s: System, h: History, up: set<nat>, a: Action)
    requires Stalled(s, h, up) && Inv(s, h) && Enabled(s, a) && OnlyUp(a, up)
    ensures Stalled(Next(s, a), Recorded(s, h, a), up)
  {
    hide Inv, Hopeless, Supporters, Recorded, Next;
    match a {
      case Deliver(m) =>
        assert Harmless(s.nodes, up, m);
        if m.RequestVote? {
          RequestStalls(s, h, up, m);
        } else {
          ReplyStalls(s, h, up, m);
        }
      case Lose(m) => LoseStalls(s, h, up, m); NothingRecorded(s, h, a);
      case Timeout(i, linked) => TimeoutStalls(s, h, up, i, linked);
      case Win(i) => TooFew(s, h, up, i);
      case Scramble(i, peers) => ScrambleStalls(s, h, up, i, peers); NothingRecorded(s, h, a);
      case _ =>
    }
  }

  lemma NothingRecorded(s: System, h: History, a: Action)
    requires Enabled(s, a) && (a.Lose? || a.Scramble?)
    ensures Recorded(s, h, a) == h
  {
  }

  ghost function HistoryOn(run: seq<System>, acts: seq<Action>, up: set<nat>, h: History, k: nat): History
    requires Path(run, acts, up) && k <= |acts|
  {
    if k == 0 then h else Recorded(run[k - 1], HistoryOn(run, acts, up, h, k - 1), acts[k - 1])
  }

  /** Whatever they do and however packets are lost or delayed, none of them ever leads. */
  lemma {:induction false} NeverElects(run: seq<System>, acts: seq<Action>, up: set<nat>, h: History, k: nat)
    requires Path(run, acts, up) && k <= |acts| && Stalled(run[0], h, up) && Inv(run[0], h)
    ensures Stalled(run[k], HistoryOn(run, acts, up, h, k), up) && Inv(run[k], HistoryOn(run, acts, up, h, k))
    ensures !OneLeads(run[k], up)
  {
    hide Inv, Next, Enabled, Recorded, Hopeless, Supporters;
    if k > 0 {
      NeverElects(run, acts, up, h, k - 1);
      StepStalls(run[k - 1], HistoryOn(run, acts, up, h, k - 1), up, acts[k - 1]);
      StepInv(run[k - 1], HistoryOn(run, acts, up, h, k - 1), acts[k - 1]);
    }
  }

  lemma QuietStalls(s: System, h: History, up: set<nat>)
    requires Quiet(s, up) && Inv(s, h) && forall c :: c in up ==> !HasQuorum(s, up, c)
    ensures Stalled(s, h, up)
  {
    hide Supporters, BallotsOk, TallySound, TokensOk, ChiefsOk, BatchesOk;
  }

  // ---- with a quorum of supporters --------------------------------------------------------

  lemma OneStep(s: System, a: Action, up: set<nat>)
    requires Enabled(s, a) && OnlyUp(a, up)
    ensures Path([s, Next(s, a)], [a], up)
  {
    hide Next, Enabled;
  }

  lemma Then(run: seq<System>, acts: seq<Action>, more: seq<System>, moreActs: seq<Action>, up: set<nat>)
    requires Path(run, acts, up) && Path(more, moreActs, up) && run[|acts|] == more[0]
    ensures Path(run + more[1..], acts + moreActs, up)
    ensures (run + more[1..])[0] == run[0] && (run + more[1..])[|acts + moreActs|] == more[|moreActs|]
  {
    hide Next, Enabled;
    var all, steps := run + more[1..], acts + moreActs;
    forall k | 0 <= k < |steps| ensures OnlyUp(steps[k], up) && Enabled(all[k], steps[k]) && all[k + 1] == Next(all[k], steps[k]) {
      if k < |acts| {
        assert all[k] == run[k] && all[k + 1] == run[k + 1] && steps[k] == acts[k];
      } else {
        var j := k - |acts|;
        assert all[k] == more[j] && all[k + 1] == more[j + 1] && steps[k] == moreActs[j];
      }
    }
  }

  /** A server that is not a leader can raise its term as far as it likes. */
  lemma {:induction false} Raise(s: System, up: set<nat>, c: nat, target: int) returns (run: seq<System>, acts: seq<Action>, n: Node)
    requires c in up && c < |s.nodes| && s.nodes[c].role != Leader && s.nodes[c].term <= target
    ensures Path(run, acts, up) && run[0] == s && run[|acts|] == System(s.nodes[c := n], s.net)
    ensures n.term == target && n.log == s.nodes[c].log && n.role != Leader
    decreases target - s.nodes[c].term
  {
    if s.nodes[c].term == target {
      run, acts, n := [s], [], s.nodes[c];
      assert s.nodes[c := s.nodes[c]] == s.nodes;
    } else {
      var a := Timeout(c, {});
      assert Broadcast(Campaign(s.nodes[c], c), c, {}) == {};
      var s1 := System(s.nodes[c := Campaign(s.nodes[c], c)], s.net);
      assert s.net + multiset({}) == s.net;
      assert Next(s, a) == s1;
      OneStep(s, a, up);
      var more, moreActs;
      more, moreActs, n := Raise(s1, up, c, target);
      Then([s, s1], [a], more, moreActs, up);
      run, acts := [s, s1] + more[1..], [a] + moreActs;
    }
  }

  function Ask(n: Node, c: nat, v: nat): Message {
    RequestVote(c, v, n.term, CurrentIndex(n.log), CurrentTerm(n.log))
  }

  /** Servers that would vote for the candidate, in an earlier term, with its request on the way. */
  ghost predicate Asked(s: System, up: set<nat>, c: nat, rest: set<nat>)
    requires c < |s.nodes|
  {
    forall v :: v in rest ==>
      && v in up && v != c && v < |s.nodes| && s.nodes[v].term < s.nodes[c].term
      && !Refuses(s.nodes[v].log, s.nodes[c].log) && Ask(s.nodes[c], c, v) in s.net
  }

  /** One vote asked for, given and counted. */
  lemma OneVote(s: System, up: set<nat>, c: nat, rest: set<nat>, v: nat) returns (s': System, run: seq<System>, acts: seq<Action>)
    requires c in up && c < |s.nodes| && s.nodes[c].role == Candidate && Asked(s, up, c, rest) && v in rest
    ensures Path(run, acts, up) && run[0] == s && run[|acts|] == s'
    ensures |s'.nodes| == |s.nodes| && s'.nodes[c] == s.nodes[c].(votes := s.nodes[c].votes + 1) && Asked(s', up, c, rest - {v})
  {
    hide OnRequestVote, ReplyToVote, Next, Enabled;
    var ask := Ask(s.nodes[c], c, v);
    var yes := VoteReply(v, c, s.nodes[c].term, true);
    var n := OnRequestVote(s.nodes[v], ask);
    var s1 := System(s.nodes[v := n], s.net - multiset{ask} + multiset{yes});
    VoteGiven(s, c, v);
    s' := System(s1.nodes[c := s.nodes[c].(votes := s.nodes[c].votes + 1)], s1.net - multiset{yes});
    VoteCounted(s1, c, v);
    OneStep(s, Deliver(ask), up);
    OneStep(s1, Deliver(yes), up);
    Then([s, s1], [Deliver(ask)], [s1, s'], [Deliver(yes)], up);
    run, acts := [s, s1] + [s1, s'][1..], [Deliver(ask)] + [Deliver(yes)];
    forall w | w in rest - {v} ensures Ask(s'.nodes[c], c, w) in s'.net {
      assert Ask(s.nodes[c], c, w) != ask && Ask(s.nodes[c], c, w) != yes;
    }
  }

  lemma VoteGiven(s: System, c: nat, v: nat)
    requires c < |s.nodes| && v < |s.nodes| && v != c && s.nodes[v].term < s.nodes[c].term
    requires !Refuses(s.nodes[v].log, s.nodes[c].log) && Ask(s.nodes[c], c, v) in s.net
    ensures var ask := Ask(s.nodes[c], c, v);
      && Enabled(s, Deliver(ask))
      && Next(s, Deliver(ask)) == System(s.nodes[v := OnRequestVote(s.nodes[v], ask)],
                                         s.net - multiset{ask} + multiset{VoteReply(v, c, s.nodes[c].term, true)})
  {
    var ask := Ask(s.nodes[c], c, v);
    assert ReplyToVote(s.nodes[v], ask) == VoteReply(v, c, s.nodes[c].term, true);
  }

  lemma VoteCounted(s: System, c: nat, v: nat)
    requires c < |s.nodes| && s.nodes[c].role == Candidate && VoteReply(v, c, s.nodes[c].term, true) in s.net
    ensures var yes := VoteReply(v, c, s.nodes[c].term, true);
      && Enabled(s, Deliver(yes))
      && Next(s, Deliver(yes)) == System(s.nodes[c := s.nodes[c].(votes := s.nodes[c].votes + 1)], s.net - multiset{yes})
  {
    var yes := VoteReply(v, c, s.nodes[c].term, true);
    assert s.net - multiset{yes} + multiset{} == s.net - multiset{yes};
  }

  lemma {:induction false} Collect(s: System, up: set<nat>, c: nat, rest: set<nat>)
      returns (s': System, run: seq<System>, acts: seq<Action>)
    requires c in up && c < |s.nodes| && s.nodes[c].role == Candidate && Asked(s, up, c, rest)
    ensures Path(run, acts, up) && run[0] == s && run[|acts|] == s'
    ensures |s'.nodes| == |s.nodes| && s'.nodes[c] == s.nodes[c].(votes := s.nodes[c].votes + |rest|)
    decreases |rest|
  {
    hide Next, Enabled, Asked;
    if rest == {} {
      s', run, acts := s, [s], [];
    } else {
      var v :| v in rest;
      var s1, run1, acts1 := OneVote(s, up, c, rest, v);
      var run2, acts2;
      s', run2, acts2 := Collect(s1, up, c, rest - {v});
      Then(run1, acts1, run2, acts2, up);
      run, acts := run1 + run2[1..], acts1 + acts2;
    }
  }

  lemma {:induction false} TermBound(nodes: seq<Node>) returns (t: int)
    ensures forall i :: 0 <= i < |nodes| ==> nodes[i].term <= t
  {
    if nodes == [] {
      t := 0;
    } else {
      t := TermBound(nodes[..|nodes| - 1]);
      t := if t < nodes[|nodes| - 1].term then nodes[|nodes| - 1].term else t;
    }
  }

  /** The candidate asks its supporters in a term later than any of theirs. */
  lemma Candidacy(s: System, up: set<nat>, c: nat, n: Node, rest: set<nat>) returns (s': System)
    requires Members(s, up) && c in up && s.nodes[c].role != Leader
    requires n == Campaign(s.nodes[c], c) && rest == Supporters(s.nodes, up, c) - {c}
    requires forall v :: v in rest ==> s.nodes[v].term < n.term
    ensures Enabled(s, Timeout(c, rest)) && s' == Next(s, Timeout(c, rest))
    ensures |s'.nodes| == |s.nodes| && s'.nodes[c] == n && Asked(s', up, c, rest)
  {
    s' := Next(s, Timeout(c, rest));
    forall v | v in rest ensures Ask(n, c, v) in s'.net {
      assert VoteRequest(n, c, v) in Broadcast(n, c, rest);
    }
  }

  /** A server with a quorum of supporters can be elected. */
  lemma Elect(s: System, up: set<nat>, c: nat) returns (run: seq<System>, acts: seq<Action>)
    requires Quiet(s, up) && HasQuorum(s, up, c)
    ensures Path(run, acts, up) && run[0] == s && OneLeads(run[|acts|], up)
  {
    hide Next, Enabled, Supporters, Asked;
    var t := TermBound(s.nodes);
    var n0;
    run, acts, n0 := Raise(s, up, c, t);
    var s0 := System(s.nodes[c := n0], s.net);
    var voters := Supporters(s.nodes, up, c);
    SameSupporters(s.nodes, up, c, n0, c);
    SupportersIn(s.nodes, up, c);
    var rest := voters - {c};
    var s1 := Candidacy(s0, up, c, Campaign(n0, c), rest);
    OneStep(s0, Timeout(c, rest), up);
    Then(run, acts, [s0, s1], [Timeout(c, rest)], up);
    run, acts := run + [s0, s1][1..], acts + [Timeout(c, rest)];
    var s2, run2, acts2 := Collect(s1, up, c, rest);
    Then(run, acts, run2, acts2, up);
    run, acts := run + run2[1..], acts + acts2;
    var s3 := Wins(s2, c);
    OneStep(s2, Win(c), up);
    Then(run, acts, [s2, s3], [Win(c)], up);
    run, acts := run + [s2, s3][1..], acts + [Win(c)];
  }

  lemma SupportersIn(nodes: seq<Node>, up: set<nat>, c: nat)
    requires c in up && c < |nodes|
    ensures c in Supporters(nodes, up, c) && forall v :: v in Supporters(nodes, up, c) ==> v in up && v < |nodes|
  {
  }

  lemma Wins(s: System, c: nat) returns (s': System)
    requires c < |s.nodes| && s.nodes[c].role == Candidate && s.nodes[c].votes >= Quorum(|s.nodes|)
    ensures Enabled(s, Win(c)) && s' == Next(s, Win(c)) && |s'.nodes| == |s.nodes| && s'.nodes[c].role == Leader
  {
    s' := Next(s, Win(c));
  }

  /**
    From any quiet state of a run, the servers that are up can elect a leader by themselves if and only if one of them
    has a quorum of supporters among them.
   */
  lemma {:induction false} ElectsExactly(run: seq<System>, acts: seq<Action>, up: set<nat>)
    requires IsRun(run, acts) && Quiet(run[|acts|], up)
    ensures CanElect(run[|acts|], up) <==> exists c :: HasQuorum(run[|acts|], up, c)
  {
    hide Inv, Next, Enabled, Init, HasQuorum, Stalled, Quiet, OneLeads;
    var s, h := run[|acts|], HistoryAt(run, acts, |acts|);
    RunInv(run, acts, |acts|);
    if c :| HasQuorum(s, up, c) {
      var more, moreActs := Elect(s, up, c);
    } else {
      QuietStalls(s, h, up);
      forall more, moreActs | Path(more, moreActs, up) && more[0] == s ensures !OneLeads(more[|moreActs|], up) {
        NeverElects(more, moreActs, up, h, |moreActs|);
      }
    }
  }

  // ---- how a cluster gets there -----------------------------------------------------------

  const SECOND := Entry(2, 1, [], [])
  const LONGER := CHIEF0.(log := [OLD, SECOND])
  const NEWER := CHIEF1.(log := [NEW])
  const ASK0 := RequestVote(2, 0, 3, 0, 0)
  const ASK1 := RequestVote(2, 1, 3, 0, 0)
  const NO0 := VoteReply(0, 2, 3, false)
  const NO1 := VoteReply(1, 2, 3, false)
  const DOWN0 := StepDown(LONGER, 3)
  const DOWN1 := StepDown(NEWER, 3)

  /** Server 0 appends a second entry of its own. */
  lemma SecondEntry(s: System)
    requires s == System([CHIEF0.(log := [OLD]), VOTER1, IDLE], multiset{})
    ensures Step(s, Command(0, [], []), System([LONGER, VOTER1, IDLE], multiset{}))
  {
    assert WriteEntry([OLD], SECOND) == [OLD, SECOND];
  }

  lemma NewerEntry(s: System)
    requires s == System([LONGER, CHIEF1, VOTER2], multiset{})
    ensures Step(s, Command(1, [], []), System([LONGER, NEWER, VOTER2], multiset{}))
  {
    FirstEntry(CHIEF1);
  }

  /** Server 2 asks both leaders for their votes in term 3; both step down and refuse. */
  lemma BothStepDown(s: System) returns (acts: seq<Action>, mid: seq<System>)
    requires s == System([LONGER, NEWER, VOTER2], multiset{})
    ensures |acts| == |mid| == 3 && Step(s, acts[0], mid[0])
    ensures forall k :: 1 <= k < 3 ==> Step(mid[k - 1], acts[k], mid[k])
    ensures mid[2].nodes == [DOWN0, DOWN1, Campaign(VOTER2, 2)]
    ensures mid[2].net == multiset{NO0, NO1}
  {
    hide Next, Enabled, Campaign, StepDown;
    var c := Campaign(VOTER2, 2);
    var s1 := System([LONGER, NEWER, c], multiset{ASK0, ASK1});
    var s2 := System([DOWN0, NEWER, c], multiset{ASK1, NO0});
    var s3 := System([DOWN0, DOWN1, c], multiset{NO0, NO1});
    BothAsked(s, s1);
    FirstRefusal(s1, s2);
    SecondRefusal(s2, s3);
    acts := [Timeout(2, {0, 1}), Deliver(ASK0), Deliver(ASK1)];
    mid := [s1, s2, s3];
  }

  lemma BothAsked(s: System, s': System)
    requires s == System([LONGER, NEWER, VOTER2], multiset{})
    requires s' == System([LONGER, NEWER, Campaign(VOTER2, 2)], multiset{ASK0, ASK1})
    ensures Step(s, Timeout(2, {0, 1}), s')
  {
    assert Broadcast(Campaign(VOTER2, 2), 2, {0, 1}) == {ASK0, ASK1};
    assert multiset({ASK0, ASK1}) == multiset{ASK0, ASK1};
  }

  lemma FirstRefusal(s: System, s': System)
    requires s == System([LONGER, NEWER, Campaign(VOTER2, 2)], multiset{ASK0, ASK1})
    requires s' == System([DOWN0, NEWER, Campaign(VOTER2, 2)], multiset{ASK1, NO0})
    ensures Step(s, Deliver(ASK0), s')
  {
    assert ReplyToVote(LONGER, ASK0) == NO0 && OnRequestVote(LONGER, ASK0) == DOWN0;
  }

  lemma SecondRefusal(s: System, s': System)
    requires s == System([DOWN0, NEWER, Campaign(VOTER2, 2)], multiset{ASK1, NO0})
    requires s' == System([DOWN0, DOWN1, Campaign(VOTER2, 2)], multiset{NO0, NO1})
    ensures Step(s, Deliver(ASK1), s')
  {
    assert ReplyToVote(NEWER, ASK1) == NO1 && OnRequestVote(NEWER, ASK1) == DOWN1;
  }

  /** Three servers can come to where two of them, a quorum, can never elect a leader without the third. */
  lemma QuorumCanStall() returns (run: seq<System>, acts: seq<Action>)
    ensures IsRun(run, acts) && |run[|acts|].nodes| == 3 && Quorum(3) == 2
    ensures Quiet(run[|acts|], {0, 1}) && !CanElect(run[|acts|], {0, 1})
  {
    hide Next, Enabled, Init, Quiet, CanElect, HasQuorum, Campaign, StepDown;
    run, acts := FirstElection();
    var own := System([CHIEF0.(log := [OLD]), VOTER1, IDLE], multiset{});
    OwnEntry(run[|acts|], own);
    var longer := System([LONGER, VOTER1, IDLE], multiset{});
    SecondEntry(own);
    Extend(run, acts, [Command(0, [], []), Command(0, [], [])], [own, longer]);
    run, acts := run + [own, longer], acts + [Command(0, [], []), Command(0, [], [])];
    var s, more, mid := SecondElection(longer, LONGER);
    Extend(run, acts, more, mid);
    run, acts := run + mid, acts + more;
    var newer := System([LONGER, NEWER, VOTER2], multiset{});
    NewerEntry(s);
    Extend(run, acts, [Command(1, [], [])], [newer]);
    run, acts := run + [newer], acts + [Command(1, [], [])];
    more, mid := BothStepDown(newer);
    Extend(run, acts, more, mid);
    run, acts := run + mid, acts + more;
    TwoStall(run[|acts|]);
    ElectsExactly(run, acts, {0, 1});
  }

  lemma TwoStall(s: System)
    requires s.nodes == [DOWN0, DOWN1, Campaign(VOTER2, 2)]
    requires s.net == multiset{NO0, NO1}
    ensures Quiet(s, {0, 1}) && forall c :: !HasQuorum(s, {0, 1}, c)
  {
    assert Supporters(s.nodes, {0, 1}, 0) == {0};
    assert Supporters(s.nodes, {0, 1}, 1) == {1};
  }
}
