/** One server of src/cluster.c: its state and what each handler and cron branch does to it. */
module RaftNode {
  import opened Prelude
  import opened RaftLog

  const MAX_ENTRIES_PER_REQUEST: nat := 50

  datatype Role = Follower | Candidate | Leader

  /** A leader's view of another server; `lastSent` is the index of `last_sent_entry`. */
  datatype Peer = Peer(nextIndex: int, matchIndex: int, lastSent: Option<int>)

  datatype Node = Node(
    role: Role, term: int, votedFor: Option<nat>, votes: int, leader: Option<nat>,
    log: Log, commit: int, peers: seq<Peer>)

  datatype Message =
    | RequestVote(from: nat, to: nat, term: int, lastIndex: int, lastTerm: int)
    | VoteReply(from: nat, to: nat, term: int, granted: bool)
    | AppendEntries(from: nat, to: nat, term: int, prevIndex: int, prevTerm: int,
                    commit: int, entries: seq<Entry>)
    | AppendReply(from: nat, to: nat, term: int, index: int, commit: int, ok: bool)

  function Quorum(size: nat): nat {
    size / 2 + 1
  }

  /** Every path that learns of a higher term does this. */
  function StepDown(n: Node, term: int): Node {
    n.(role := Follower, term := term, leader := None, votedFor := None)
  }

  /** `clusterProcessRequestVote`: whether the vote is given. */
  predicate Grants(n: Node, term: int, candidate: nat, lastIndex: int, lastTerm: int) {
    && n.term <= term
    && (n.term < term || n.votedFor.None? || n.votedFor == Some(candidate))
    && CurrentIndex(n.log) <= lastIndex
    && CurrentTerm(n.log) <= lastTerm
  }

  function OnRequestVote(n: Node, m: Message): Node
    requires m.RequestVote?
  {
    var n1 := if m.term > n.term then StepDown(n, m.term) else n;
    if Grants(n, m.term, m.from, m.lastIndex, m.lastTerm) then n1.(votedFor := Some(m.from)) else n1
  }

  function ReplyToVote(n: Node, m: Message): Message
    requires m.RequestVote?
  {
    VoteReply(m.to, m.from, OnRequestVote(n, m).term,
              Grants(n, m.term, m.from, m.lastIndex, m.lastTerm))
  }

  /** `clusterProcessResponseVote`: the tally is a bare counter, raised in any role. */
  function OnVoteReply(n: Node, term: int, granted: bool): Node {
    if granted && term == n.term then n.(votes := n.votes + 1)
    else if term > n.term then StepDown(n, term)
    else n
  }

  /** `logCommitIndex`. */
  function CommitUpTo(log: Log, commit: int, leaderCommit: int): int {
    if leaderCommit > commit then
      (if leaderCommit < CurrentIndex(log) then leaderCommit else CurrentIndex(log))
    else commit
  }

  /** The role and term part of `clusterProcessAppendEntries`, for a term that is not stale. */
  function Heed(n: Node, term: int, from: nat): Node
    requires term >= n.term
  {
    if term == n.term then
      n.(role := if n.role == Candidate then Follower else n.role, leader := Some(from))
    else
      n.(role := Follower, term := term, leader := Some(from), votedFor := None)
  }

  /** The batch reaches `logAppendEntries`. */
  predicate Accepts(n: Node, m: Message)
    requires m.AppendEntries?
  {
    m.term >= n.term && VerifyAppend(n.log, m.prevIndex, m.prevTerm)
  }

  function OnAppendEntries(n: Node, m: Message): Node
    requires m.AppendEntries?
  {
    if m.term < n.term then n
    else
      var n1 := Heed(n, m.term, m.from);
      if !VerifyAppend(n1.log, m.prevIndex, m.prevTerm) then n1
      else
        var log := AppendAll(n1.log, m.entries);
        n1.(log := log, commit := CommitUpTo(log, n1.commit, m.commit))
  }

  function ReplyToAppend(n: Node, m: Message): Message
    requires m.AppendEntries?
  {
    var n' := OnAppendEntries(n, m);
    AppendReply(m.to, m.from, n'.term, CurrentIndex(n'.log), n'.commit, Accepts(n, m))
  }

  /** `clusterProcessResponseAppendEntries`, matched to the last entry sent rather than to a request. */
  function OnAppendReply(n: Node, from: nat, term: int, ok: bool): Node
    requires from < |n.peers|
  {
    var p := n.peers[from];
    if ok then
      match p.lastSent
      case Some(i) => n.(peers := n.peers[from := p.(nextIndex := i + 1, matchIndex := i)])
      case None => n
    else if term > n.term then StepDown(n, term)
    else n.(peers := n.peers[from := p.(nextIndex := p.nextIndex - 1)])
  }

  /** The election branch of `clusterCron`, with the term raised by `clusterSendRequestVote`. */
  function Campaign(n: Node, me: nat): Node {
    n.(role := Candidate, leader := None, votedFor := Some(me), votes := 1, term := n.term + 1)
  }

  /** `clusterSendRequestVote`, sent by a node that has just begun to campaign. */
  function VoteRequest(n: Node, me: nat, to: nat): Message {
    RequestVote(me, to, n.term, CurrentIndex(n.log), CurrentTerm(n.log))
  }

  /** The peers of a new leader; its own slot is left as it is. */
  function FreshPeers(n: Node, me: nat): seq<Peer> {
    seq(|n.peers|, j requires 0 <= j < |n.peers| =>
      if j == me then n.peers[j]
      else n.peers[j].(nextIndex := CurrentIndex(n.log) + 1, matchIndex := 0))
  }

  /** The candidate branch of `clusterCron`, once the tally reaches the quorum. */
  function TakeOffice(n: Node, me: nat): Node {
    n.(role := Leader, leader := Some(me), peers := FreshPeers(n, me))
  }

  /** The entries `clusterSendAppendEntries` copies into a packet. */
  function Batch(log: Log, next: int): (es: seq<Entry>)
    ensures |es| <= MAX_ENTRIES_PER_REQUEST
  {
    var p := LogNode(log, next);
    if CurrentIndex(log) >= next && p.Some? then
      var rest := log[p.value..];
      if |rest| <= MAX_ENTRIES_PER_REQUEST then rest else rest[..MAX_ENTRIES_PER_REQUEST]
    else []
  }

  function AppendRequest(n: Node, me: nat, to: nat): Message
    requires to < |n.peers|
  {
    var next := n.peers[to].nextIndex;
    AppendEntries(me, to, n.term, next - 1, GetTerm(n.log, next - 1), n.commit, Batch(n.log, next))
  }

  function AfterAppendRequest(n: Node, to: nat): Node
    requires to < |n.peers|
  {
    var es := Batch(n.log, n.peers[to].nextIndex);
    n.(peers := n.peers[to := n.peers[to].(
      lastSent := if es == [] then None else Some(es[|es| - 1].index))])
  }

  /** `clusterProcessCommand`: a leader appends the client's command to its own log. */
  function OnCommand(n: Node, name: seq<byte>, command: seq<byte>): Node {
    var log := WriteEntry(n.log, Entry(CurrentIndex(n.log) + 1, n.term, name, command));
    n.(log := log,
       commit := if |n.peers| == 1 then CommitUpTo(log, n.commit, CurrentIndex(log)) else n.commit)
  }

  /** `clusterUpdateCommitIndex` once the quorum's index `c` is picked. */
  function OnQuorumIndex(n: Node, c: int): Node {
    if c > n.commit && n.term == GetTerm(n.log, c) then n.(commit := c) else n
  }
}
