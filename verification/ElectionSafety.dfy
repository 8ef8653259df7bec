/** Election Safety: no two servers are ever leader in the same term, in any run. */
module ElectionSafety {
  import opened Prelude
  import opened RaftLog
  import opened RaftNode
  import opened RaftSystem

  /**
   * What the proof remembers of a run: who each server voted for in each term, whose grants each
   * candidate has counted, and who won each term with which log.
   */
  datatype History = History(
    ballots: map<(nat, int), nat>,
    tally: map<(nat, int), set<nat>>,
    chief: map<int, nat>,
    logs: map<int, Log>)

  /** The (candidate, voter, term) that a vote request or a grant speaks for. */
  ghost function Token(m: Message): Option<(nat, nat, int)> {
    match m
    case RequestVote(c, v, t, _, _) => Some((c, v, t))
    case VoteReply(v, c, t, true) => Some((c, v, t))
    case _ => None
  }

  /** A server's vote is the ballot it cast in its term; no ballot is cast in a later term. */
  ghost predicate BallotsOk(nodes: seq<Node>, h: History) {
    && (forall b :: b in h.ballots ==> b.0 < |nodes| && b.1 <= nodes[b.0].term)
    && (forall v :: 0 <= v < |nodes| ==>
          if (v, nodes[v].term) in h.ballots
          then nodes[v].votedFor == Some(h.ballots[(v, nodes[v].term)])
          else nodes[v].votedFor == None)
  }

  /** Each tally holds distinct servers that voted that way. */
  ghost predicate TallySound(nodes: seq<Node>, h: History) {
    && (forall b :: b in h.tally ==> b.0 < |nodes| && b.1 <= nodes[b.0].term)
    && (forall b, v :: b in h.tally && v in h.tally[b] ==>
          (v, b.1) in h.ballots && h.ballots[(v, b.1)] == b.0)
  }

  /** The bare counter of a candidate is the size of its tally. */
  ghost predicate TallyCounts(nodes: seq<Node>, h: History) {
    && (forall c :: 0 <= c < |nodes| && (c, nodes[c].term) in h.tally ==>
          nodes[c].votes == |h.tally[(c, nodes[c].term)]|)
    && (forall c :: 0 <= c < |nodes| && nodes[c].role != Follower ==> (c, nodes[c].term) in h.tally)
  }

  ghost predicate TallyOk(nodes: seq<Node>, h: History) {
    TallySound(nodes, h) && TallyCounts(nodes, h)
  }

  /** At most one packet speaks for a voter that is not yet counted; grants match ballots. */
  ghost predicate TokensOk(net: multiset<Message>, h: History) {
    && (forall m :: m in net && Token(m).Some? ==>
          var (c, v, t) := Token(m).value;
          net[m] == 1 && (c, t) in h.tally && v !in h.tally[(c, t)])
    && (forall m, m' :: m in net && m' in net && Token(m).Some? && Token(m) == Token(m') ==> m == m')
    && (forall m :: m in net && m.VoteReply? && m.granted ==>
          (m.from, m.term) in h.ballots && h.ballots[(m.from, m.term)] == m.to)
  }

  /** Whoever won a term has a quorum, and leads for as long as it stays in that term. */
  ghost predicate ChiefsOk(nodes: seq<Node>, h: History) {
    && (forall t :: t in h.chief ==>
          && h.chief[t] < |nodes|
          && (h.chief[t], t) in h.tally
          && |h.tally[(h.chief[t], t)]| >= Quorum(|nodes|)
          && t <= nodes[h.chief[t]].term
          && (nodes[h.chief[t]].term == t ==> nodes[h.chief[t]].role == Leader))
    && (forall c :: 0 <= c < |nodes| && nodes[c].role == Leader ==>
          nodes[c].term in h.chief && h.chief[nodes[c].term] == c)
  }

  /** Batches come from the winner of their term and go to somebody else. */
  ghost predicate BatchesOk(net: multiset<Message>, h: History) {
    forall m :: m in net && m.AppendEntries? ==>
      m.from != m.to && m.term in h.chief && h.chief[m.term] == m.from
  }

  ghost predicate Inv(s: System, h: History) {
    && BallotsOk(s.nodes, h)
    && TallyOk(s.nodes, h)
    && TokensOk(s.net, h)
    && ChiefsOk(s.nodes, h)
    && BatchesOk(s.net, h)
    && (forall i :: 0 <= i < |s.nodes| ==> |s.nodes[i].peers| == |s.nodes|)
    && (forall m :: m in s.net ==> m.from < |s.nodes| && m.to < |s.nodes|)
  }

  // ---- quorums ----------------------------------------------------------------------------

  lemma {:induction false} BoundedSet(s: set<nat>, n: nat)
    requires forall x :: x in s ==> x < n
    ensures |s| <= n
  {
    if n == 0 {
      assert s == {};
    } else {
      BoundedSet(s - {n - 1}, n - 1);
    }
  }

  /** Two quorums of one cluster share a member. */
  lemma QuorumsMeet(a: set<nat>, b: set<nat>, n: nat) returns (v: nat)
    requires forall x :: x in a + b ==> x < n
    requires |a| >= Quorum(n) && |b| >= Quorum(n)
    ensures v in a && v in b
  {
    BoundedSet(a + b, n);
    assert |a + b| == |a| + |b| - |a * b|;
    v :| v in a * b;
  }

  /** A second quorum in a won term belongs to the same winner. */
  lemma OneWinner(s: System, h: History, c: nat, t: int)
    requires BallotsOk(s.nodes, h) && TallyOk(s.nodes, h) && ChiefsOk(s.nodes, h)
    requires (c, t) in h.tally && |h.tally[(c, t)]| >= Quorum(|s.nodes|) && t in h.chief
    ensures h.chief[t] == c
  {
    var a, b := h.tally[(c, t)], h.tally[(h.chief[t], t)];
    forall x | x in a + b ensures x < |s.nodes| {
      assert (x, t) in h.ballots;
    }
    var v := QuorumsMeet(a, b, |s.nodes|);
  }

  // ---- every step keeps the invariant -----------------------------------------------------

  /** The history after a step. */
  ghost function Recorded(s: System, h: History, a: Action): History
    requires Enabled(s, a)
  {
    match a
    case Deliver(m) =>
      if m.RequestVote? && ReplyToVote(s.nodes[m.to], m).granted then
        h.(ballots := h.ballots[(m.to, m.term) := m.from])
      else if m.VoteReply? && m.granted && m.term == s.nodes[m.to].term && (m.to, m.term) in h.tally then
        h.(tally := h.tally[(m.to, m.term) := h.tally[(m.to, m.term)] + {m.from}])
      else h
    case Timeout(i, _) =>
      var t := s.nodes[i].term + 1;
      h.(ballots := h.ballots[(i, t) := i], tally := h.tally[(i, t) := {i}])
    case Win(i) =>
      var n := s.nodes[i];
      h.(chief := h.chief[n.term := i], logs := h.logs[n.term := n.log])
    case Command(i, name, command) =>
      h.(logs := h.logs[s.nodes[i].term := OnCommand(s.nodes[i], name, command).log])
    case _ => h
  }

  lemma InitInv(s: System)
    requires Init(s)
    ensures Inv(s, History(map[], map[], map[], map[]))
  {
  }

  /** A server that does not change its term, vote or tally counter keeps its part. */
  ghost predicate SameBallot(n: Node, n': Node) {
    && n'.term == n.term && n'.votedFor == n.votedFor && n'.votes == n.votes
    && (n'.role == n.role || (n.role == Candidate && n'.role == Follower))
    && |n'.peers| == |n.peers|
  }

  /** A server that moves to a later term has cast no ballot there and leads nothing. */
  ghost predicate MovesOn(n: Node, n': Node) {
    && n'.term > n.term && n'.votedFor == None && n'.role == Follower && |n'.peers| == |n.peers|
  }

  lemma KeepNodes(s: System, h: History, i: nat, n': Node)
    requires Inv(s, h) && i < |s.nodes|
    requires SameBallot(s.nodes[i], n') || MovesOn(s.nodes[i], n')
    ensures Inv(s.(nodes := s.nodes[i := n']), h)
  {
    hide BallotsOk, TallyOk, TokensOk, ChiefsOk, BatchesOk;
    KeepBallotsAndTally(s.nodes, h, i, n');
    KeepChiefs(s.nodes, h, i, n');
  }

  lemma KeepBallotsAndTally(nodes: seq<Node>, h: History, i: nat, n': Node)
    requires BallotsOk(nodes, h) && TallyOk(nodes, h) && i < |nodes|
    requires SameBallot(nodes[i], n') || MovesOn(nodes[i], n')
    ensures BallotsOk(nodes[i := n'], h) && TallyOk(nodes[i := n'], h)
  {
  }

  lemma KeepChiefs(nodes: seq<Node>, h: History, i: nat, n': Node)
    requires ChiefsOk(nodes, h) && i < |nodes|
    requires SameBallot(nodes[i], n') || MovesOn(nodes[i], n')
    ensures ChiefsOk(nodes[i := n'], h)
  {
  }

  lemma ShrinkNet(s: System, h: History, m: Message)
    requires Inv(s, h)
    ensures Inv(s.(net := s.net - multiset{m}), h)
  {
    var net' := s.net - multiset{m};
    assert forall x :: x in net' ==> x in s.net && net'[x] <= s.net[x];
  }

  lemma AddPlain(s: System, h: History, m: Message)
    requires Inv(s, h) && Token(m).None? && m.from < |s.nodes| && m.to < |s.nodes|
    requires m.AppendEntries? ==> m.from != m.to && m.term in h.chief && h.chief[m.term] == m.from
    ensures Inv(s.(net := s.net + multiset{m}), h)
  {
    var net' := s.net + multiset{m};
    assert forall x :: x in net' ==> x in s.net || x == m;
    assert forall x :: x in net' && x != m ==> net'[x] == s.net[x];
  }

  lemma VoteRequested(s: System, h: History, m: Message)
    requires Inv(s, h) && m in s.net && m.RequestVote?
    ensures Inv(Next(s, Deliver(m)), Recorded(s, h, Deliver(m)))
  {
    hide BallotsOk, TallyOk, TokensOk, ChiefsOk, BatchesOk;
    var n := s.nodes[m.to];
    var n' := OnRequestVote(n, m);
    var r := ReplyToVote(n, m);
    var s1 := s.(net := s.net - multiset{m});
    ShrinkNet(s, h, m);
    if r.granted {
      GrantVote(s, h, m);
    } else {
      KeepNodes(s1, h, m.to, n');
      AddPlain(s1.(nodes := s.nodes[m.to := n']), h, r);
    }
  }

  /** The voter's side of a grant: its new term and vote, and the same role unless it moved on. */
  ghost predicate CastsFor(n: Node, n': Node, c: nat) {
    && n'.term >= n.term && n'.votedFor == Some(c) && n'.votes == n.votes && |n'.peers| == |n.peers|
    && (n'.term == n.term ==> n'.role == n.role && (n.votedFor == None || n.votedFor == Some(c)))
    && (n'.term > n.term ==> n'.role == Follower)
  }

  lemma GrantBallots(nodes: seq<Node>, h: History, v: nat, n': Node, c: nat)
    requires BallotsOk(nodes, h) && v < |nodes| && CastsFor(nodes[v], n', c)
    ensures BallotsOk(nodes[v := n'], h.(ballots := h.ballots[(v, n'.term) := c]))
    ensures (v, n'.term) in h.ballots ==> h.ballots[(v, n'.term)] == c
  {
  }

  lemma GrantTally(nodes: seq<Node>, h: History, v: nat, n': Node, c: nat)
    requires BallotsOk(nodes, h) && TallyOk(nodes, h) && v < |nodes| && CastsFor(nodes[v], n', c)
    ensures TallyOk(nodes[v := n'], h.(ballots := h.ballots[(v, n'.term) := c]))
  {
    hide BallotsOk;
    GrantBallots(nodes, h, v, n', c);
  }

  lemma GrantChiefs(nodes: seq<Node>, h: History, v: nat, n': Node, c: nat)
    requires ChiefsOk(nodes, h) && v < |nodes| && CastsFor(nodes[v], n', c)
    ensures ChiefsOk(nodes[v := n'], h.(ballots := h.ballots[(v, n'.term) := c]))
  {
  }

  /** The grant takes the place of the request it answers. */
  lemma GrantTokens(net: multiset<Message>, h: History, m: Message, r: Message)
    requires TokensOk(net, h) && m in net && m.RequestVote? && r == VoteReply(m.to, m.from, m.term, true)
    requires (m.to, m.term) in h.ballots ==> h.ballots[(m.to, m.term)] == m.from
    ensures TokensOk(net - multiset{m} + multiset{r}, h.(ballots := h.ballots[(m.to, m.term) := m.from]))
  {
    var net' := net - multiset{m} + multiset{r};
    assert Token(r) == Token(m);
    assert r !in net;
    assert forall x :: x in net' ==> x == r || (x in net && x != m);
    assert forall x :: x in net' ==> net'[x] == 1 || Token(x).None?;
  }

  lemma AddReply(net: multiset<Message>, h: History, r: Message, h': History)
    requires BatchesOk(net, h) && !r.AppendEntries? && h'.chief == h.chief
    ensures BatchesOk(net + multiset{r}, h')
  {
    assert forall x :: x in net + multiset{r} ==> x in net || x == r;
  }

  lemma GrantVote(s: System, h: History, m: Message)
    requires Inv(s, h) && m in s.net && m.RequestVote? && ReplyToVote(s.nodes[m.to], m).granted
    ensures Inv(Next(s, Deliver(m)), h.(ballots := h.ballots[(m.to, m.term) := m.from]))
  {
    hide BallotsOk, TallyOk, TokensOk, ChiefsOk, BatchesOk;
    var n := s.nodes[m.to];
    var n' := OnRequestVote(n, m);
    assert CastsFor(n, n', m.from);
    GrantBallots(s.nodes, h, m.to, n', m.from);
    GrantTally(s.nodes, h, m.to, n', m.from);
    GrantChiefs(s.nodes, h, m.to, n', m.from);
    GrantTokens(s.net, h, m, ReplyToVote(n, m));
    ShrinkNet(s, h, m);
    AddReply(s.net - multiset{m}, h, ReplyToVote(n, m), h.(ballots := h.ballots[(m.to, m.term) := m.from]));
    var net' := s.net - multiset{m} + multiset{ReplyToVote(n, m)};
    assert forall x :: x in net' ==> x in s.net || x == ReplyToVote(n, m);
  }

  lemma CountTally(nodes: seq<Node>, h: History, c: nat, v: nat, n': Node)
    requires BallotsOk(nodes, h) && TallyOk(nodes, h) && c < |nodes|
    requires n' == nodes[c].(votes := nodes[c].votes + 1)
    requires (c, n'.term) in h.tally && v !in h.tally[(c, n'.term)]
    requires (v, n'.term) in h.ballots && h.ballots[(v, n'.term)] == c
    ensures TallyOk(nodes[c := n'], h.(tally := h.tally[(c, n'.term) := h.tally[(c, n'.term)] + {v}]))
  {
    hide TallySound, TallyCounts, BallotsOk;
    CountSound(nodes, h, c, v, n');
    CountCounts(nodes, h, c, v, n');
  }

  lemma CountSound(nodes: seq<Node>, h: History, c: nat, v: nat, n': Node)
    requires TallySound(nodes, h) && c < |nodes|
    requires n'.term == nodes[c].term && (c, n'.term) in h.tally
    requires (v, n'.term) in h.ballots && h.ballots[(v, n'.term)] == c
    ensures TallySound(nodes[c := n'], h.(tally := h.tally[(c, n'.term) := h.tally[(c, n'.term)] + {v}]))
  {
    var key := (c, n'.term);
    var tally' := h.tally[key := h.tally[key] + {v}];
    assert forall b, x :: b in tally' && x in tally'[b] ==> (b == key && x == v) || (b in h.tally && x in h.tally[b]);
  }

  lemma CountCounts(nodes: seq<Node>, h: History, c: nat, v: nat, n': Node)
    requires TallyCounts(nodes, h) && c < |nodes|
    requires n' == nodes[c].(votes := nodes[c].votes + 1)
    requires (c, n'.term) in h.tally && v !in h.tally[(c, n'.term)]
    ensures TallyCounts(nodes[c := n'], h.(tally := h.tally[(c, n'.term) := h.tally[(c, n'.term)] + {v}]))
  {
  }

  lemma CountChiefs(nodes: seq<Node>, h: History, c: nat, v: nat, n': Node)
    requires ChiefsOk(nodes, h) && c < |nodes|
    requires n' == nodes[c].(votes := nodes[c].votes + 1)
    requires (c, n'.term) in h.tally && v !in h.tally[(c, n'.term)]
    ensures ChiefsOk(nodes[c := n'], h.(tally := h.tally[(c, n'.term) := h.tally[(c, n'.term)] + {v}]))
  {
  }

  lemma CountTokens(net: multiset<Message>, h: History, m: Message)
    requires TokensOk(net, h) && m in net && m.VoteReply? && m.granted
    requires (m.to, m.term) in h.tally
    ensures TokensOk(net - multiset{m},
                     h.(tally := h.tally[(m.to, m.term) := h.tally[(m.to, m.term)] + {m.from}]))
  {
    var net' := net - multiset{m};
    assert Token(m) == Some((m.to, m.from, m.term));
    assert forall x :: x in net' ==> x in net && net'[x] <= net[x];
    assert forall x :: x in net' && Token(x).Some? ==> Token(x) != Token(m);
  }

  lemma CountVote(s: System, h: History, m: Message)
    requires Inv(s, h) && m in s.net && m.VoteReply? && m.granted && m.term == s.nodes[m.to].term
    ensures Inv(Next(s, Deliver(m)), Recorded(s, h, Deliver(m)))
  {
    hide BallotsOk, TallyOk, TokensOk, ChiefsOk, BatchesOk;
    GrantFacts(s.net, h, m);
    var n' := OnVoteReply(s.nodes[m.to], m.term, m.granted);
    CountTally(s.nodes, h, m.to, m.from, n');
    CountChiefs(s.nodes, h, m.to, m.from, n');
    CountTokens(s.net, h, m);
    ShrinkNet(s, h, m);
    var h' := h.(tally := h.tally[(m.to, m.term) := h.tally[(m.to, m.term)] + {m.from}]);
    KeepBallots(s.nodes, h, m.to, n', h');
    KeepBatches(s.net - multiset{m}, h, h');
    assert s.net - multiset{m} + multiset{} == s.net - multiset{m};
  }

  lemma GrantFacts(net: multiset<Message>, h: History, m: Message)
    requires TokensOk(net, h) && m in net && m.VoteReply? && m.granted
    ensures (m.to, m.term) in h.tally && m.from !in h.tally[(m.to, m.term)]
    ensures (m.from, m.term) in h.ballots && h.ballots[(m.from, m.term)] == m.to
  {
    assert Token(m) == Some((m.to, m.from, m.term));
  }

  lemma KeepBatches(net: multiset<Message>, h: History, h': History)
    requires BatchesOk(net, h) && h'.chief == h.chief
    ensures BatchesOk(net, h')
  {
  }

  lemma KeepBallots(nodes: seq<Node>, h: History, i: nat, n': Node, h': History)
    requires BallotsOk(nodes, h) && i < |nodes| && h'.ballots == h.ballots
    requires n'.term == nodes[i].term && n'.votedFor == nodes[i].votedFor
    ensures BallotsOk(nodes[i := n'], h')
  {
  }

  lemma CampaignBallots(nodes: seq<Node>, h: History, i: nat, h': History)
    requires BallotsOk(nodes, h) && i < |nodes|
    requires h'.ballots == h.ballots[(i, nodes[i].term + 1) := i]
    ensures BallotsOk(nodes[i := Campaign(nodes[i], i)], h')
    ensures (i, nodes[i].term + 1) !in h.ballots
  {
  }

  lemma CampaignTally(nodes: seq<Node>, h: History, i: nat)
    requires TallyOk(nodes, h) && i < |nodes| && (i, nodes[i].term + 1) !in h.ballots
    ensures var t := nodes[i].term + 1;
      var h' := h.(ballots := h.ballots[(i, t) := i], tally := h.tally[(i, t) := {i}]);
      TallyOk(nodes[i := Campaign(nodes[i], i)], h')
    ensures (i, nodes[i].term + 1) !in h.tally
  {
  }

  lemma CampaignChiefs(nodes: seq<Node>, h: History, i: nat)
    requires TallyOk(nodes, h) && ChiefsOk(nodes, h) && i < |nodes| && nodes[i].role != Leader
    ensures var t := nodes[i].term + 1;
      var h' := h.(ballots := h.ballots[(i, t) := i], tally := h.tally[(i, t) := {i}]);
      ChiefsOk(nodes[i := Campaign(nodes[i], i)], h')
  {
  }

  lemma CampaignTokens(net: multiset<Message>, h: History, i: nat, n: Node, linked: set<nat>)
    requires TokensOk(net, h) && (i, n.term) !in h.tally && (i, n.term) !in h.ballots && i !in linked
    ensures TokensOk(net + multiset(Broadcast(n, i, linked)),
                     h.(ballots := h.ballots[(i, n.term) := i], tally := h.tally[(i, n.term) := {i}]))
  {
    var sent := Broadcast(n, i, linked);
    var net' := net + multiset(sent);
    forall x | x in sent
      ensures x !in net && net'[x] == 1 && Token(x) == Some((i, x.to, n.term)) && x.to != i
    {
    }
    forall x | x in net'
      ensures x in sent || (x in net && net'[x] == net[x])
    {
    }
  }

  lemma Campaigned(s: System, h: History, i: nat, linked: set<nat>)
    requires Inv(s, h) && Enabled(s, Timeout(i, linked))
    ensures Inv(Next(s, Timeout(i, linked)), Recorded(s, h, Timeout(i, linked)))
  {
    hide BallotsOk, TallyOk, TokensOk, ChiefsOk, BatchesOk, Token;
    CampaignBallots(s.nodes, h, i, Recorded(s, h, Timeout(i, linked)));
    CampaignTally(s.nodes, h, i);
    CampaignChiefs(s.nodes, h, i);
    var n := Campaign(s.nodes[i], i);
    CampaignTokens(s.net, h, i, n, linked);
    CampaignBatches(s.net, h, i, n, linked, Recorded(s, h, Timeout(i, linked)));
    assert forall x :: x in s.net + multiset(Broadcast(n, i, linked)) ==>
      x in s.net || x in Broadcast(n, i, linked);
  }

  lemma CampaignBatches(net: multiset<Message>, h: History, i: nat, n: Node, linked: set<nat>, h': History)
    requires BatchesOk(net, h) && h'.chief == h.chief
    ensures BatchesOk(net + multiset(Broadcast(n, i, linked)), h')
  {
    assert forall x :: x in net + multiset(Broadcast(n, i, linked)) && x.AppendEntries? ==> x in net;
  }

  lemma WonTally(nodes: seq<Node>, h: History, i: nat, n': Node, h': History)
    requires BallotsOk(nodes, h) && TallyOk(nodes, h) && i < |nodes|
    requires n' == nodes[i].(role := Leader, leader := n'.leader, peers := n'.peers)
    requires nodes[i].role == Candidate && h'.ballots == h.ballots && h'.tally == h.tally
    ensures BallotsOk(nodes[i := n'], h') && TallyOk(nodes[i := n'], h')
  {
  }

  lemma WonChiefs(nodes: seq<Node>, h: History, i: nat, n': Node, h': History)
    requires TallyOk(nodes, h) && ChiefsOk(nodes, h) && i < |nodes|
    requires nodes[i].role == Candidate && nodes[i].votes >= Quorum(|nodes|)
    requires n' == nodes[i].(role := Leader, leader := n'.leader, peers := n'.peers)
    requires nodes[i].term !in h.chief && h'.tally == h.tally && h'.chief == h.chief[n'.term := i]
    ensures ChiefsOk(nodes[i := n'], h')
  {
  }

  /** A candidate with a quorum is the first winner of its term. */
  lemma NewTerm(s: System, h: History, i: nat)
    requires BallotsOk(s.nodes, h) && TallyOk(s.nodes, h) && ChiefsOk(s.nodes, h)
    requires i < |s.nodes| && s.nodes[i].role == Candidate && s.nodes[i].votes >= Quorum(|s.nodes|)
    ensures s.nodes[i].term !in h.chief
  {
    if s.nodes[i].term in h.chief {
      OneWinner(s, h, i, s.nodes[i].term);
    }
  }

  lemma WonNet(net: multiset<Message>, h: History, h': History, t: int)
    requires TokensOk(net, h) && BatchesOk(net, h) && t !in h.chief
    requires h'.ballots == h.ballots && h'.tally == h.tally
    requires forall x :: x in h.chief ==> x in h'.chief && h'.chief[x] == h.chief[x]
    ensures TokensOk(net, h') && BatchesOk(net, h')
  {
  }

  lemma Won(s: System, h: History, i: nat)
    requires Inv(s, h) && Enabled(s, Win(i))
    ensures s.nodes[i].term !in h.chief
    ensures Inv(Next(s, Win(i)), Recorded(s, h, Win(i)))
  {
    hide BallotsOk, TallyOk, ChiefsOk, TokensOk, BatchesOk;
    NewTerm(s, h, i);
    WonTally(s.nodes, h, i, TakeOffice(s.nodes[i], i), Recorded(s, h, Win(i)));
    WonChiefs(s.nodes, h, i, TakeOffice(s.nodes[i], i), Recorded(s, h, Win(i)));
    WonNet(s.net, h, Recorded(s, h, Win(i)), s.nodes[i].term);
  }

  /** Every step keeps the invariant, and no step changes who won an earlier term. */
  lemma StepInv(s: System, h: History, a: Action)
    requires Inv(s, h) && Enabled(s, a)
    ensures Inv(Next(s, a), Recorded(s, h, a))
  {
    hide BallotsOk, TallyOk, TokensOk, ChiefsOk, BatchesOk;
    match a
    case Deliver(m) => Delivered(s, h, m);
    case Lose(m) => ShrinkNet(s, h, m);
    case Timeout(i, linked) => Campaigned(s, h, i, linked);
    case Win(i) => Won(s, h, i);
    case SendAppend(i, j) =>
      SentAppend(s, h, i, j);
    case Command(i, name, command) =>
      KeepNodes(s, h, i, OnCommand(s.nodes[i], name, command));
      IgnoreLogs(Next(s, a), h, Recorded(s, h, a));
    case UpdateCommit(i, c) => KeepNodes(s, h, i, OnQuorumIndex(s.nodes[i], c));
    case Scramble(i, peers) => KeepNodes(s, h, i, s.nodes[i].(peers := peers));
  }

  lemma LeaderIsChief(nodes: seq<Node>, h: History, i: nat)
    requires ChiefsOk(nodes, h) && i < |nodes| && nodes[i].role == Leader
    ensures nodes[i].term in h.chief && h.chief[nodes[i].term] == i
  {
  }

  lemma SentAppend(s: System, h: History, i: nat, j: nat)
    requires Inv(s, h) && Enabled(s, SendAppend(i, j))
    ensures Inv(Next(s, SendAppend(i, j)), h)
  {
    hide BallotsOk, TallyOk, TokensOk, ChiefsOk, BatchesOk, Batch, GetTerm;
    var m := AppendRequest(s.nodes[i], i, j);
    LeaderIsChief(s.nodes, h, i);
    KeepNodes(s, h, i, AfterAppendRequest(s.nodes[i], j));
    AddPlain(s.(nodes := s.nodes[i := AfterAppendRequest(s.nodes[i], j)]), h, m);
  }

  lemma IgnoreLogs(s: System, h: History, h': History)
    requires Inv(s, h) && h' == h.(logs := h'.logs)
    ensures Inv(s, h')
  {
  }

  lemma Delivered(s: System, h: History, m: Message)
    requires Inv(s, h) && Enabled(s, Deliver(m))
    ensures Inv(Next(s, Deliver(m)), Recorded(s, h, Deliver(m)))
  {
    hide BallotsOk, TallyOk, TokensOk, ChiefsOk, BatchesOk;
    var n := s.nodes[m.to];
    if m.RequestVote? {
      VoteRequested(s, h, m);
    } else if m.VoteReply? && m.granted && m.term == n.term {
      CountVote(s, h, m);
    } else {
      var s1 := s.(net := s.net - multiset{m});
      ShrinkNet(s, h, m);
      KeepNodes(s1, h, m.to, Receive(n, m));
      if m.AppendEntries? {
        AddPlain(s1.(nodes := s.nodes[m.to := Receive(n, m)]), h, ReplyToAppend(n, m));
      } else {
        assert s1.net + multiset{} == s1.net;
      }
    }
  }

  /** The history of each state of a run. */
  ghost function HistoryAt(run: seq<System>, acts: seq<Action>, k: nat): History
    requires IsRun(run, acts) && k <= |acts|
  {
    if k == 0 then History(map[], map[], map[], map[])
    else Recorded(run[k - 1], HistoryAt(run, acts, k - 1), acts[k - 1])
  }

  lemma {:induction false} RunInv(run: seq<System>, acts: seq<Action>, k: nat)
    requires IsRun(run, acts) && k <= |acts|
    ensures Inv(run[k], HistoryAt(run, acts, k))
    ensures |run[k].nodes| == |run[0].nodes|
  {
    if k == 0 {
      InitInv(run[0]);
    } else {
      hide Inv, Next, Recorded, Enabled;
      RunInv(run, acts, k - 1);
      StepInv(run[k - 1], HistoryAt(run, acts, k - 1), acts[k - 1]);
      SameSize(run[k - 1], acts[k - 1]);
    }
  }

  lemma SameSize(s: System, a: Action)
    requires Enabled(s, a)
    ensures |Next(s, a).nodes| == |s.nodes|
  {
  }

  /** No step changes who won an earlier term. */
  lemma ChiefKept(s: System, h: History, a: Action, t: int)
    requires Inv(s, h) && Enabled(s, a) && t in h.chief
    ensures t in Recorded(s, h, a).chief && Recorded(s, h, a).chief[t] == h.chief[t]
  {
    hide Inv;
    if a.Win? {
      Won(s, h, a.i);
    }
  }

  lemma {:induction false} ChiefStays(run: seq<System>, acts: seq<Action>, j: nat, k: nat, t: int)
    requires IsRun(run, acts) && j <= k <= |acts| && t in HistoryAt(run, acts, j).chief
    ensures t in HistoryAt(run, acts, k).chief
    ensures HistoryAt(run, acts, k).chief[t] == HistoryAt(run, acts, j).chief[t]
    decreases k
  {
    hide Inv, Next, Recorded, Enabled;
    if j < k {
      ChiefStays(run, acts, j, k - 1, t);
      RunInv(run, acts, k - 1);
      ChiefKept(run[k - 1], HistoryAt(run, acts, k - 1), acts[k - 1], t);
    }
  }

  /**
   * Election Safety over whole runs: if server a leads term t at one point of a run and server b
   * leads term t at another, they are the same server.
   */
  lemma {:induction false} LeadersAreUnique(run: seq<System>, acts: seq<Action>, j: nat, k: nat, a: nat, b: nat)
    requires IsRun(run, acts) && j <= k <= |acts|
    requires a < |run[j].nodes| && b < |run[k].nodes|
    requires run[j].nodes[a].role == Leader && run[k].nodes[b].role == Leader
    requires run[j].nodes[a].term == run[k].nodes[b].term
    ensures a == b
  {
    RunInv(run, acts, j);
    RunInv(run, acts, k);
    ChiefStays(run, acts, j, k, run[j].nodes[a].term);
  }
}
