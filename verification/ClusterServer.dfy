/** The server object of src/cluster.c, each method proved against the protocol's steps. */
module ClusterServer {
  import opened Prelude
  import opened RaftLog
  import opened RaftNode
  import opened RaftSystem
  import opened CommitChoice
  import opened LogFile

  // ---- one server's own steps -------------------------------------------------------------

  datatype Effect = Effect(node: Node, sent: multiset<Message>)

  /** The actions a server takes by itself, from its cron or a client's command. */
  ghost predicate CanAct(n: Node, size: nat, me: nat, a: Action) {
    match a
    case Timeout(i, linked) => i == me && n.role != Leader && me !in linked && forall j :: j in linked ==> j < size
    case Win(i) => i == me && n.role == Candidate && n.votes >= Quorum(size)
    case SendAppend(i, j) => i == me && j < size && j != me && n.role == Leader && j < |n.peers|
    case Command(i, _, _) => i == me && n.role == Leader
    case UpdateCommit(i, _) => i == me && n.role == Leader
    case _ => false
  }

  ghost function Act(n: Node, size: nat, me: nat, a: Action): Effect
    requires CanAct(n, size, me, a)
  {
    match a
    case Timeout(_, linked) => Effect(Campaign(n, me), multiset(Broadcast(Campaign(n, me), me, linked)))
    case Win(_) => Effect(TakeOffice(n, me), multiset{})
    case SendAppend(_, j) => Effect(AfterAppendRequest(n, j), multiset{AppendRequest(n, me, j)})
    case Command(_, name, command) => Effect(OnCommand(n, name, command), multiset{})
    case UpdateCommit(_, c) => Effect(OnQuorumIndex(n, c), multiset{})
  }

  /** The actions are possible one after the other and take e to e'. */
  ghost predicate Performs(e: Effect, size: nat, me: nat, acts: seq<Action>, e': Effect)
    decreases |acts|
  {
    if acts == [] then e == e'
    else
      && CanAct(e.node, size, me, acts[0])
      && var x := Act(e.node, size, me, acts[0]);
         Performs(Effect(x.node, e.sent + x.sent), size, me, acts[1..], e')
  }

  lemma {:induction false} PerformsThen(e: Effect, size: nat, me: nat, acts: seq<Action>, e1: Effect, a: Action)
    requires Performs(e, size, me, acts, e1) && CanAct(e1.node, size, me, a)
    ensures var x := Act(e1.node, size, me, a);
      Performs(e, size, me, acts + [a], Effect(x.node, e1.sent + x.sent))
    decreases |acts|
  {
    hide CanAct, Act;
    if acts == [] {
      assert acts + [a] == [a];
      assert [a][1..] == [];
    } else {
      var x := Act(e.node, size, me, acts[0]);
      PerformsThen(Effect(x.node, e.sent + x.sent), size, me, acts[1..], e1, a);
      assert (acts + [a])[1..] == acts[1..] + [a];
    }
  }

  /** A run of the whole system made of those actions. */
  ghost predicate Leads(s: System, acts: seq<Action>, s': System)
    decreases |acts|
  {
    if acts == [] then s == s' else Enabled(s, acts[0]) && Leads(Next(s, acts[0]), acts[1..], s')
  }

  /** What a server performs by itself is a sequence of steps of any cluster it is part of. */
  lemma {:induction false} LocalStepsAreSystemSteps(
      s: System, me: nat, sent: multiset<Message>, net: multiset<Message>, acts: seq<Action>, e': Effect)
    requires me < |s.nodes| && s.net == net + sent
    requires Performs(Effect(s.nodes[me], sent), |s.nodes|, me, acts, e')
    ensures Leads(s, acts, System(s.nodes[me := e'.node], net + e'.sent))
    decreases |acts|
  {
    hide CanAct, Act, Enabled, Next;
    if acts == [] {
      assert s.nodes[me := e'.node] == s.nodes;
    } else {
      OneLocalStep(s, me, acts[0]);
      var x := Act(s.nodes[me], |s.nodes|, me, acts[0]);
      var s1 := Next(s, acts[0]);
      assert s1.net == net + (sent + x.sent);
      LocalStepsAreSystemSteps(s1, me, sent + x.sent, net, acts[1..], e');
      assert s1.nodes[me := e'.node] == s.nodes[me := e'.node];
    }
  }

  lemma OneLocalStep(s: System, me: nat, a: Action)
    requires me < |s.nodes| && CanAct(s.nodes[me], |s.nodes|, me, a)
    ensures Enabled(s, a)
    ensures var x := Act(s.nodes[me], |s.nodes|, me, a);
      Next(s, a) == System(s.nodes[me := x.node], s.net + x.sent)
  {
    assert s.net + multiset{} == s.net;
  }

  /** The broadcast loop of `clusterBroadcastMessage`, skipping the peers without a link. */
  method BroadcastTo(n: Node, me: nat, size: nat, linked: set<nat>) returns (out: seq<Message>)
    requires forall j :: j in linked ==> j < size
    ensures multiset(out) == multiset(Broadcast(n, me, linked))
  {
    out := [];
    var j := 0;
    ghost var done: set<nat> := {};
    assert Broadcast(n, me, done) == {};
    while j < size
      invariant 0 <= j <= size
      invariant done == (set x | x in linked && x < j)
      invariant multiset(out) == multiset(Broadcast(n, me, done))
    {
      if j in linked {
        BroadcastOneMore(n, me, done, j);
        out := out + [VoteRequest(n, me, j)];
        done := done + {j};
      }
      j := j + 1;
    }
    assert done == linked;
  }

  lemma BroadcastOneMore(n: Node, me: nat, done: set<nat>, j: nat)
    requires j !in done
    ensures multiset(Broadcast(n, me, done + {j})) == multiset(Broadcast(n, me, done)) + multiset{VoteRequest(n, me, j)}
  {
    var m := VoteRequest(n, me, j);
    assert m !in Broadcast(n, me, done);
    assert Broadcast(n, me, done + {j}) == Broadcast(n, me, done) + {m};
  }

  /** The copying loop of `clusterSendAppendEntries`, one list node per turn. */
  method CopyEntries(log: Log, next: int) returns (es: seq<Entry>, lastSent: Option<int>)
    ensures es == Batch(log, next)
    ensures lastSent == if es == [] then None else Some(es[|es| - 1].index)
  {
    es, lastSent := [], None;
    if CurrentIndex(log) >= next {
      var ln := LogNode(log, next);
      if ln.Some? {
        var k := ln.value;
        while k < |log| && |es| < MAX_ENTRIES_PER_REQUEST
          invariant ln.value <= k <= |log| && es == log[ln.value..k]
          invariant |es| <= MAX_ENTRIES_PER_REQUEST
          invariant lastSent == if es == [] then None else Some(es[|es| - 1].index)
        {
          es := es + [log[k]];
          lastSent := Some(log[k].index);
          k := k + 1;
        }
        assert log[ln.value..k] == log[ln.value..][..|es|];
      }
    }
  }

  function MatchIndexes(peers: seq<Peer>): (r: seq<int>)
    ensures |r| == |peers|
    ensures forall j :: 0 <= j < |peers| ==> r[j] == peers[j].matchIndex
  {
    seq(|peers|, j requires 0 <= j < |peers| => peers[j].matchIndex)
  }

  method CollectIndexes(peers: seq<Peer>) returns (indexes: seq<int>)
    ensures indexes == MatchIndexes(peers)
  {
    indexes := [];
    var i := 0;
    while i < |peers|
      invariant 0 <= i <= |peers| && |indexes| == i
      invariant forall j :: 0 <= j < i ==> indexes[j] == peers[j].matchIndex
    {
      indexes := indexes + [peers[i].matchIndex];
      i := i + 1;
    }
  }

  /** The loop that resets a new leader's peers. */
  method ResetPeers(n: Node, me: nat) returns (peers: seq<Peer>)
    ensures peers == FreshPeers(n, me) && |peers| == |n.peers|
  {
    peers := n.peers;
    var j := 0;
    while j < |peers|
      invariant 0 <= j <= |peers| == |n.peers|
      invariant forall k :: 0 <= k < |peers| ==> peers[k] == if k < j then FreshPeers(n, me)[k] else n.peers[k]
    {
      if j != me {
        peers := peers[j := peers[j].(nextIndex := CurrentIndex(n.log) + 1, matchIndex := 0)];
      }
      j := j + 1;
    }
  }

  /** The heartbeats to the first n peers: one to each that is due, but not to the server itself. */
  ghost function Sends(me: nat, due: set<nat>, n: nat): seq<Action> {
    if n == 0 then []
    else Sends(me, due, n - 1) + if n - 1 != me && n - 1 in due then [SendAppend(me, n - 1)] else []
  }

  /** How many appends go to a peer. */
  ghost function AppendsTo(out: seq<Message>, j: nat): nat {
    if out == [] then 0
    else AppendsTo(out[..|out| - 1], j) + var m := out[|out| - 1]; if m.AppendEntries? && m.to == j then 1 else 0
  }

  lemma OneMoreTo(out: seq<Message>, m: Message, j: nat)
    ensures AppendsTo(out + [m], j) == AppendsTo(out, j) + if m.AppendEntries? && m.to == j then 1 else 0
  {
    assert (out + [m])[..|out|] == out;
  }

  lemma {:induction false} NoAppends(out: seq<Message>, j: nat)
    requires forall m :: m in out ==> !m.AppendEntries?
    ensures AppendsTo(out, j) == 0
  {
    if out != [] {
      NoAppends(out[..|out| - 1], j);
    }
  }

  lemma PerformsNothing(e: Effect, size: nat, me: nat)
    ensures Performs(e, size, me, [], e)
  {
  }

  // ---- the server -------------------------------------------------------------------------

  class Server {
    const me: nat
    const store: LogStore
    var role: Role
    var term: int
    var votedFor: Option<nat>
    var votes: int
    var leader: Option<nat>
    var commit: int
    var peers: seq<Peer>

    /** The server as the protocol sees it. */
    function State(): Node
      reads this, store
    {
      Node(role, term, votedFor, votes, leader, Entries(store.nodes), commit, peers)
    }

    ghost predicate Valid()
      reads this, store
    {
      store.Valid() && me < |peers|
    }

    /** `clusterInit` with an empty log file. */
    constructor (me: nat, peers: seq<Peer>)
      requires me < |peers|
      ensures Valid() && fresh(store) && this.me == me
      ensures State() == Node(Follower, 0, None, 0, None, [], 0, peers)
    {
      this.me := me;
      store := new LogStore();
      role, term, votedFor, votes, leader, commit := Follower, 0, None, 0, None, 0;
      this.peers := peers;
    }

    /** `clusterProcessRequestVote` and the reply it sends. */
    method ProcessRequestVote(m: Message) returns (reply: Message)
      requires Valid() && m.RequestVote? && m.to == me
      modifies this
      ensures Valid() && State() == OnRequestVote(old(State()), m)
      ensures reply == ReplyToVote(old(State()), m)
    {
      hide FileOf, InPlace;
      var log := Entries(store.nodes);
      if m.term < term {
        return VoteReply(me, m.from, term, false);
      }
      if m.term > term {
        role, term, leader, votedFor := Follower, m.term, None, None;
      } else if votedFor.Some? && votedFor != Some(m.from) {
        return VoteReply(me, m.from, term, false);
      }
      if CurrentIndex(log) > m.lastIndex || CurrentTerm(log) > m.lastTerm {
        return VoteReply(me, m.from, term, false);
      }
      votedFor := Some(m.from);
      reply := VoteReply(me, m.from, term, true);
    }

    /** `clusterProcessResponseVote`. */
    method ProcessResponseVote(term: int, granted: bool)
      requires Valid()
      modifies this
      ensures Valid() && State() == OnVoteReply(old(State()), term, granted)
    {
      hide FileOf, InPlace;
      if granted && term == this.term {
        votes := votes + 1;
        return;
      }
      if term > this.term {
        role, this.term, leader, votedFor := Follower, term, None, None;
      }
    }

    method ResponseAppendEntries(to: nat, ok: bool) returns (reply: Message)
      ensures reply == AppendReply(me, to, term, CurrentIndex(Entries(store.nodes)), commit, ok)
    {
      reply := AppendReply(me, to, term, CurrentIndex(Entries(store.nodes)), commit, ok);
    }

    /** `logCommitIndex`. */
    method LogCommitIndex(leaderCommit: int)
      modifies this`commit
      ensures commit == CommitUpTo(Entries(store.nodes), old(commit), leaderCommit)
    {
      if leaderCommit > commit {
        var last := CurrentIndex(Entries(store.nodes));
        commit := if leaderCommit < last then leaderCommit else last;
      }
    }

    /** `clusterProcessAppendEntries` and the reply it sends. */
    method ProcessAppendEntries(m: Message) returns (reply: Message)
      requires Valid() && m.AppendEntries? && m.to == me
      modifies this, store
      ensures Valid() && State() == OnAppendEntries(old(State()), m)
      ensures reply == ReplyToAppend(old(State()), m)
    {
      hide AppendAll, FileOf, InPlace;
      if m.term < term {
        reply := ResponseAppendEntries(m.from, false);
        return;
      }
      if m.term == term {
        if role == Candidate {
          role := Follower;
        }
        leader := Some(m.from);
      } else {
        role, term, leader, votedFor := Follower, m.term, Some(m.from), None;
      }
      if !VerifyAppend(Entries(store.nodes), m.prevIndex, m.prevTerm) {
        reply := ResponseAppendEntries(m.from, false);
        return;
      }
      store.AppendEntries(m.entries);
      LogCommitIndex(m.commit);
      reply := ResponseAppendEntries(m.from, true);
    }

    /** `clusterProcessResponseAppendEntries`. */
    method ProcessResponseAppendEntries(from: nat, term: int, ok: bool)
      requires Valid() && from < |peers|
      modifies this
      ensures Valid() && State() == OnAppendReply(old(State()), from, term, ok)
    {
      hide FileOf, InPlace;
      var p := peers[from];
      if ok {
        if p.lastSent.Some? {
          peers := peers[from := p.(nextIndex := p.lastSent.value + 1, matchIndex := p.lastSent.value)];
        }
      } else if term > this.term {
        role, this.term, leader, votedFor := Follower, term, None, None;
      } else {
        peers := peers[from := p.(nextIndex := p.nextIndex - 1)];
      }
    }

    /** `clusterSendRequestVote`: raises the term and broadcasts to the peers that have a link. */
    method SendRequestVote(linked: set<nat>) returns (out: seq<Message>)
      requires Valid() && me !in linked && forall j :: j in linked ==> j < |peers|
      modifies this`term
      ensures Valid() && term == old(term) + 1
      ensures multiset(out) == multiset(Broadcast(State(), me, linked))
    {
      hide FileOf, InPlace;
      term := term + 1;
      out := BroadcastTo(State(), me, |peers|, linked);
    }

    /** `clusterSendAppendEntries`: copies up to the limit of entries, one list node per turn. */
    method SendAppendEntries(to: nat) returns (m: Message)
      requires Valid() && to < |peers|
      modifies this`peers
      ensures Valid() && State() == AfterAppendRequest(old(State()), to) && |peers| == old(|peers|)
      ensures m == AppendRequest(old(State()), me, to)
    {
      hide FileOf, InPlace, Batch;
      var log := Entries(store.nodes);
      var next := peers[to].nextIndex;
      var es, lastSent := CopyEntries(log, next);
      m := AppendEntries(me, to, term, next - 1, GetTerm(log, next - 1), commit, es);
      peers := peers[to := peers[to].(lastSent := lastSent)];
    }

    /** `clusterProcessCommand`, called only on a leader. */
    method ProcessCommand(name: seq<byte>, command: seq<byte>)
      requires Valid() && role == Leader
      modifies this, store
      ensures Valid() && State() == OnCommand(old(State()), name, command)
    {
      hide RaftLog.WriteEntry, FileOf, InPlace;
      store.WriteEntry(Entry(CurrentIndex(Entries(store.nodes)) + 1, term, name, command));
      if |peers| == 1 {
        LogCommitIndex(CurrentIndex(Entries(store.nodes)));
      }
    }

    /** `clusterUpdateCommitIndex`. */
    method UpdateCommitIndex() returns (ghost c: int)
      requires Valid()
      modifies this`commit
      ensures Valid() && State() == OnQuorumIndex(old(State()), c)
      ensures Close(MatchIndexes(peers)) ==> QuorumIndex(MatchIndexes(peers), Quorum(|peers|), c)
    {
      hide FileOf, InPlace, Close, QuorumIndex;
      var indexes := CollectIndexes(peers);
      var picked := PickCommitIndex(indexes);
      c := picked;
      if picked > commit && term == GetTerm(Entries(store.nodes), picked) {
        commit := picked;
      }
    }

    /** The candidate branch of `clusterCron`. */
    method TakeTheLead()
      requires Valid() && role == Candidate
      modifies this
      ensures Valid() && State() == TakeOffice(old(State()), me) && |peers| == old(|peers|) && role == Leader
    {
      hide FileOf, InPlace, FreshPeers;
      peers := ResetPeers(State(), me);
      role, leader := Leader, Some(me);
    }

    /**
     * `clusterCron`: an election when the timer has run out, office once the quorum is reached,
     * and a leader's commit and heartbeats.  Whatever it does is a sequence of protocol actions.
     */
    method Cron(timedOut: bool, linked: set<nat>, due: set<nat>) returns (out: seq<Message>, ghost acts: seq<Action>, ghost c: int)
      requires Valid() && me !in linked && forall j :: j in linked ==> j < |peers|
      modifies this
      ensures Valid() && |peers| == old(|peers|)
      ensures Performs(Effect(old(State()), multiset{}), |peers|, me, acts, Effect(State(), multiset(out)))
      ensures acts == (if timedOut && old(role) != Leader then [Timeout(me, linked)] else [])
                    + (if old(role) != Leader && role == Leader then [Win(me)] else [])
                    + (if role == Leader then [UpdateCommit(me, c)] + Sends(me, due, |peers|) else [])
      ensures role == Candidate ==> votes < Quorum(|peers|)
      ensures role == Leader && Close(MatchIndexes(peers)) ==> QuorumIndex(MatchIndexes(peers), Quorum(|peers|), c)
      ensures commit == if role == Leader && c > old(commit) && term == GetTerm(State().log, c) then c else old(commit)
      ensures forall j: nat :: AppendsTo(out, j) == if role == Leader && j < |peers| && j != me && j in due then 1 else 0
      ensures forall m :: m in out && m.AppendEntries? ==> m.from == me && m.term == term && m.commit == commit
    {
      hide Act, CanAct, FileOf, InPlace, Broadcast, Campaign, TakeOffice, Performs, GetTerm, Close, QuorumIndex, MatchIndexes, Sends, AppendsTo;
      ghost var start, size := Effect(State(), multiset{}), |peers|;
      c := 0;
      out, acts := Stand(timedOut, linked);
      forall j: nat ensures AppendsTo(out, j) == 0 {
        NoAppends(out, j);
      }
      if role == Candidate && votes >= Quorum(|peers|) {
        WinActs(State(), size, me);
        PerformsThen(start, size, me, acts, Effect(State(), multiset(out)), Win(me));
        OfficeKeeps(State(), me);
        TakeTheLead();
        acts := acts + [Win(me)];
        assert multiset(out) + multiset{} == multiset(out);
      }
      if role == Leader {
        ghost var n, acts0 := State(), acts;
        c := UpdateCommitIndex();
        CommitActs(n, size, me, c);
        PerformsThen(start, size, me, acts, Effect(n, multiset(out)), UpdateCommit(me, c));
        acts := acts + [UpdateCommit(me, c)];
        assert multiset(out) + multiset{} == multiset(out);
        out, acts := Heartbeats(due, out, start, acts);
        assert acts == acts0 + ([UpdateCommit(me, c)] + Sends(me, due, |peers|));
      }
    }

    /** The election that a timer that has run out begins. */
    method Stand(timedOut: bool, linked: set<nat>) returns (out: seq<Message>, ghost acts: seq<Action>)
      requires Valid() && me !in linked && forall j :: j in linked ==> j < |peers|
      modifies this
      ensures Valid() && |peers| == old(|peers|) && commit == old(commit)
      ensures Performs(Effect(old(State()), multiset{}), |peers|, me, acts, Effect(State(), multiset(out)))
      ensures acts == if timedOut && old(role) != Leader then [Timeout(me, linked)] else []
      ensures old(role) == Leader <==> role == Leader
      ensures forall m :: m in out ==> !m.AppendEntries?
    {
      hide Act, CanAct, FileOf, InPlace, Performs, Broadcast, Campaign;
      ghost var start, size := Effect(State(), multiset{}), |peers|;
      out, acts := [], [];
      PerformsNothing(start, size, me);
      assert start == Effect(State(), multiset(out));
      if role != Leader && timedOut {
        CampaignKeeps(State(), me);
        out := Elect(linked);
        ElectActs(start.node, size, me, linked);
        PerformsThen(start, size, me, acts, start, Timeout(me, linked));
        acts := acts + [Timeout(me, linked)];
        assert start.sent + multiset(Broadcast(State(), me, linked)) == multiset(out);
        forall m | m in out ensures !m.AppendEntries? {
          assert m in multiset(out);
          AllAsk(State(), me, linked, m);
        }
      }
    }

    method Elect(linked: set<nat>) returns (out: seq<Message>)
      requires Valid() && me !in linked && forall j :: j in linked ==> j < |peers|
      modifies this
      ensures Valid() && State() == Campaign(old(State()), me) && |peers| == old(|peers|)
      ensures multiset(out) == multiset(Broadcast(State(), me, linked))
    {
      hide FileOf, InPlace, Broadcast;
      role, leader, votedFor, votes := Candidate, None, Some(me), 1;
      out := SendRequestVote(linked);
    }

    /** The heartbeat loop over the peers whose interval has passed. */
    method Heartbeats(due: set<nat>, sent: seq<Message>, ghost start: Effect, ghost acts0: seq<Action>)
      returns (out: seq<Message>, ghost acts: seq<Action>)
      requires Valid() && role == Leader
      requires Performs(start, |peers|, me, acts0, Effect(State(), multiset(sent)))
      modifies this
      ensures Valid() && |peers| == old(|peers|) && State() == old(State()).(peers := peers) && MatchIndexes(peers) == old(MatchIndexes(peers))
      ensures acts == acts0 + Sends(me, due, |peers|)
      ensures Performs(start, |peers|, me, acts, Effect(State(), multiset(out)))
      ensures sent <= out
      ensures forall m :: m in out[|sent|..] ==> m.AppendEntries? && m.to < |peers| && m == AppendRequest(old(State()), me, m.to)
      ensures forall j: nat :: AppendsTo(out, j) == AppendsTo(sent, j) + if j < |peers| && j != me && j in due then 1 else 0
    {
      hide Act, CanAct, Performs, FileOf, InPlace, AppendRequest, AfterAppendRequest, AppendsTo;
      out, acts := sent, acts0;
      ghost var n0 := State();
      var j := 0;
      assert out[|sent|..] == [];
      while j < |peers|
        invariant 0 <= j <= |peers| == old(|peers|) && Valid() && State() == n0.(peers := peers) && SameNext(peers, n0.peers)
        invariant acts == acts0 + Sends(me, due, j)
        invariant Performs(start, |peers|, me, acts, Effect(State(), multiset(out)))
        invariant sent <= out
        invariant forall m :: m in out[|sent|..] ==> m.AppendEntries? && m.to < |peers| && m == AppendRequest(n0, me, m.to)
        invariant forall k: nat :: AppendsTo(out, k) == AppendsTo(sent, k) + if k < j && k != me && k in due then 1 else 0
        decreases |peers| - j
      {
        if j != me && j in due {
          ghost var n := State();
          SendActs(n, |peers|, me, j);
          PerformsThen(start, |peers|, me, acts, Effect(n, multiset(out)), SendAppend(me, j));
          SameRequest(n, n0, me, j);
          var m := SendAppendEntries(j);
          forall k: nat ensures AppendsTo(out + [m], k) == AppendsTo(out, k) + if k == j then 1 else 0 {
            OneMoreTo(out, m, k);
          }
          acts := acts + [SendAppend(me, j)];
          assert (out + [m])[|sent|..] == out[|sent|..] + [m];
          out := out + [m];
        }
        j := j + 1;
      }
    }
  }

  /** The same but for the entries last sent. */
  ghost predicate SameNext(a: seq<Peer>, b: seq<Peer>) {
    |a| == |b| && forall j :: 0 <= j < |a| ==> a[j].nextIndex == b[j].nextIndex && a[j].matchIndex == b[j].matchIndex
  }

  lemma SameRequest(n: Node, n0: Node, me: nat, j: nat)
    requires n == n0.(peers := n.peers) && SameNext(n.peers, n0.peers) && j < |n.peers|
    ensures AppendRequest(n, me, j) == AppendRequest(n0, me, j)
    ensures AppendRequest(n, me, j).AppendEntries? && AppendRequest(n, me, j).to == j
    ensures AfterAppendRequest(n, j) == n.(peers := AfterAppendRequest(n, j).peers) && SameNext(AfterAppendRequest(n, j).peers, n0.peers)
  {
  }

  lemma CampaignKeeps(n: Node, me: nat)
    ensures Campaign(n, me).commit == n.commit && Campaign(n, me).role == Candidate
  {
  }

  lemma OfficeKeeps(n: Node, me: nat)
    ensures TakeOffice(n, me).commit == n.commit
  {
  }

  lemma AllAsk(n: Node, me: nat, linked: set<nat>, m: Message)
    requires m in multiset(Broadcast(n, me, linked))
    ensures !m.AppendEntries?
  {
  }

  lemma ElectActs(n: Node, size: nat, me: nat, linked: set<nat>)
    requires n.role != Leader && me !in linked && forall j :: j in linked ==> j < size
    ensures CanAct(n, size, me, Timeout(me, linked))
    ensures Act(n, size, me, Timeout(me, linked))
         == Effect(Campaign(n, me), multiset(Broadcast(Campaign(n, me), me, linked)))
  {
  }

  lemma WinActs(n: Node, size: nat, me: nat)
    requires n.role == Candidate && n.votes >= Quorum(size)
    ensures CanAct(n, size, me, Win(me)) && Act(n, size, me, Win(me)) == Effect(TakeOffice(n, me), multiset{})
  {
  }

  lemma CommitActs(n: Node, size: nat, me: nat, c: int)
    requires n.role == Leader
    ensures CanAct(n, size, me, UpdateCommit(me, c))
    ensures Act(n, size, me, UpdateCommit(me, c)) == Effect(OnQuorumIndex(n, c), multiset{})
  {
  }

  lemma SendActs(n: Node, size: nat, me: nat, j: nat)
    requires n.role == Leader && j < size && j != me && j < |n.peers|
    ensures CanAct(n, size, me, SendAppend(me, j))
    ensures Act(n, size, me, SendAppend(me, j)) == Effect(AfterAppendRequest(n, j), multiset{AppendRequest(n, me, j)})
  {
  }
}
