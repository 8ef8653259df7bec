/** A cluster: its servers, the packets in flight, and every step either can take. */
module RaftSystem {
  import opened Prelude
  import opened RaftNode

  datatype System = System(nodes: seq<Node>, net: multiset<Message>)

  /** One handler call, cron branch, lost packet, or corruption of a leader's bookkeeping. */
  datatype Action =
    | Deliver(m: Message)
    | Lose(m: Message)
    | Timeout(i: nat, linked: set<nat>)
    | Win(i: nat)
    | SendAppend(i: nat, j: nat)
    | Command(i: nat, name: seq<byte>, command: seq<byte>)
    | UpdateCommit(i: nat, c: int)
    | Scramble(i: nat, peers: seq<Peer>)

  /** A cluster whose servers all start with an empty log file. */
  ghost predicate Init(s: System) {
    && s.net == multiset{}
    && forall i :: 0 <= i < |s.nodes| ==>
         && s.nodes[i].role == Follower && s.nodes[i].term == 0 && s.nodes[i].votedFor == None
         && s.nodes[i].votes == 0 && s.nodes[i].log == [] && s.nodes[i].commit == 0
         && |s.nodes[i].peers| == |s.nodes|
  }

  ghost predicate Enabled(s: System, a: Action) {
    match a
    case Deliver(m) => m in s.net && m.to < |s.nodes|
                       && (m.AppendReply? ==> m.from < |s.nodes[m.to].peers|)
    case Lose(m) => m in s.net
    case Timeout(i, linked) => i < |s.nodes| && s.nodes[i].role != Leader
                               && i !in linked && forall j :: j in linked ==> j < |s.nodes|
    case Win(i) => i < |s.nodes| && s.nodes[i].role == Candidate
                   && s.nodes[i].votes >= Quorum(|s.nodes|)
    case SendAppend(i, j) => i < |s.nodes| && j < |s.nodes| && i != j && s.nodes[i].role == Leader
                             && j < |s.nodes[i].peers|
    case Command(i, _, _) => i < |s.nodes| && s.nodes[i].role == Leader
    case UpdateCommit(i, _) => i < |s.nodes| && s.nodes[i].role == Leader
    case Scramble(i, peers) => i < |s.nodes| && |peers| == |s.nodes[i].peers|
  }

  ghost function Receive(n: Node, m: Message): Node
    requires m.AppendReply? ==> m.from < |n.peers|
  {
    match m
    case RequestVote(_, _, _, _, _) => OnRequestVote(n, m)
    case VoteReply(_, _, term, granted) => OnVoteReply(n, term, granted)
    case AppendEntries(_, _, _, _, _, _, _) => OnAppendEntries(n, m)
    case AppendReply(from, _, term, _, _, ok) => OnAppendReply(n, from, term, ok)
  }

  ghost function Replies(n: Node, m: Message): multiset<Message> {
    match m
    case RequestVote(_, _, _, _, _) => multiset{ReplyToVote(n, m)}
    case AppendEntries(_, _, _, _, _, _, _) => multiset{ReplyToAppend(n, m)}
    case _ => multiset{}
  }

  /** The vote requests broadcast to the peers that have a link. */
  ghost function Broadcast(n: Node, me: nat, linked: set<nat>): set<Message> {
    set j | j in linked :: VoteRequest(n, me, j)
  }

  ghost function Next(s: System, a: Action): System
    requires Enabled(s, a)
  {
    match a
    case Deliver(m) =>
      var n := s.nodes[m.to];
      System(s.nodes[m.to := Receive(n, m)], s.net - multiset{m} + Replies(n, m))
    case Lose(m) => s.(net := s.net - multiset{m})
    case Timeout(i, linked) =>
      var n := Campaign(s.nodes[i], i);
      System(s.nodes[i := n], s.net + multiset(Broadcast(n, i, linked)))
    case Win(i) => s.(nodes := s.nodes[i := TakeOffice(s.nodes[i], i)])
    case SendAppend(i, j) =>
      System(s.nodes[i := AfterAppendRequest(s.nodes[i], j)],
             s.net + multiset{AppendRequest(s.nodes[i], i, j)})
    case Command(i, name, command) => s.(nodes := s.nodes[i := OnCommand(s.nodes[i], name, command)])
    case UpdateCommit(i, c) => s.(nodes := s.nodes[i := OnQuorumIndex(s.nodes[i], c)])
    case Scramble(i, peers) => s.(nodes := s.nodes[i := s.nodes[i].(peers := peers)])
  }

  /** A run from a fresh cluster, without restarts. */
  ghost predicate IsRun(run: seq<System>, acts: seq<Action>) {
    && |run| == |acts| + 1
    && Init(run[0])
    && forall k :: 0 <= k < |acts| ==> Enabled(run[k], acts[k]) && run[k + 1] == Next(run[k], acts[k])
  }
}
