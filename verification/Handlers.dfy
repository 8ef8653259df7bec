/** What the handlers of src/cluster.c do to a server's term, role, ballot and commit index, message by message and over runs. */
module Handlers {
  import opened Prelude
  import opened RaftLog
  import opened RaftNode
  import opened RaftSystem

  function Max(a: int, b: int): int {
    if a < b then b else a
  }

  // ---- terms and roles --------------------------------------------------------------------

  /** Every message but an append's success brings a server up to its term, and only that term. */
  lemma TermIsLearned(n: Node, m: Message)
    requires m.AppendReply? ==> m.from < |n.peers|
    ensures Receive(n, m).term == if m.AppendReply? && m.ok then n.term else Max(n.term, m.term)
  {
    hide AppendAll, VerifyAppend, CommitUpTo, CurrentIndex, CurrentTerm;
  }

  /** A newer term ends an office or a candidacy and the ballot of the old term; the sender's vote or lead is all that is kept. */
  lemma NewerTermDeposes(n: Node, m: Message)
    requires m.AppendReply? ==> m.from < |n.peers|
    requires m.term > n.term && !(m.AppendReply? && m.ok)
    ensures Receive(n, m).role == Follower
    ensures Receive(n, m).votedFor == (if m.RequestVote? && Grants(n, m.term, m.from, m.lastIndex, m.lastTerm) then Some(m.from) else None)
    ensures Receive(n, m).leader == (if m.AppendEntries? then Some(m.from) else None)
  {
    hide AppendAll, VerifyAppend, CommitUpTo, Grants;
  }

  /** Within a term, an append turns a candidate into a follower, a vote is only ever added, and nothing else changes a role. */
  lemma SameTermKeeps(n: Node, m: Message)
    requires m.AppendReply? ==> m.from < |n.peers|
    requires m.term <= n.term || (m.AppendReply? && m.ok)
    ensures Receive(n, m).role == if m.AppendEntries? && m.term == n.term && n.role == Candidate then Follower else n.role
    ensures Receive(n, m).leader == if m.AppendEntries? && m.term == n.term then Some(m.from) else n.leader
    ensures Receive(n, m).votedFor == n.votedFor || (m.RequestVote? && m.term == n.term && Receive(n, m).votedFor == Some(m.from))
    ensures m.term < n.term && !m.AppendReply? ==> Receive(n, m) == n
  {
    hide AppendAll, VerifyAppend, CommitUpTo, CurrentIndex, CurrentTerm;
  }

  /** After an append of a term not below its own, no server is a candidate, and the sender is its leader. */
  lemma AppendEndsCandidacy(n: Node, m: Message)
    requires m.AppendEntries? && m.term >= n.term
    ensures Receive(n, m).role != Candidate && Receive(n, m).leader == Some(m.from) && Receive(n, m).term == m.term
  {
    hide AppendAll, VerifyAppend, CommitUpTo;
  }

  /** A tally grows by one, and only for a vote given in the server's own term. */
  lemma VotesAreCounted(n: Node, m: Message)
    requires m.AppendReply? ==> m.from < |n.peers|
    ensures Receive(n, m).votes == n.votes + if m.VoteReply? && m.granted && m.term == n.term then 1 else 0
  {
    hide AppendAll, VerifyAppend, CommitUpTo, Grants;
  }

  /** A log changes only by an append that is accepted, and a leader's bookkeeping only by the answers to its appends. */
  lemma OnlyAppendsWrite(n: Node, m: Message)
    requires m.AppendReply? ==> m.from < |n.peers|
    ensures Receive(n, m).log == if m.AppendEntries? && Accepts(n, m) then AppendAll(n.log, m.entries) else n.log
    ensures |Receive(n, m).peers| == |n.peers|
    ensures forall j :: 0 <= j < |n.peers| && !(m.AppendReply? && m.from == j) ==> Receive(n, m).peers[j] == n.peers[j]
  {
    hide AppendAll, VerifyAppend, CommitUpTo, Grants;
  }

  /** A reply tells the server as the message has left it, and whether the vote or the batch was taken. */
  lemma RepliesTell(n: Node, m: Message)
    requires m.RequestVote? || m.AppendEntries?
    ensures var n' := Receive(n, m);
      Replies(n, m) == multiset{if m.RequestVote? then VoteReply(m.to, m.from, n'.term, Grants(n, m.term, m.from, m.lastIndex, m.lastTerm))
                                else AppendReply(m.to, m.from, n'.term, CurrentIndex(n'.log), n'.commit, Accepts(n, m))}
    ensures m.RequestVote? && Grants(n, m.term, m.from, m.lastIndex, m.lastTerm) ==>
              Receive(n, m).votedFor == Some(m.from) && Receive(n, m).term == m.term
  {
    hide AppendAll, VerifyAppend, CommitUpTo;
  }

  /** A candidacy is one vote of a new term, one's own, and asks by one's own last entry. */
  lemma CandidacyBegins(n: Node, me: nat, to: nat)
    ensures var c := Campaign(n, me);
      && c.role == Candidate && c.term == n.term + 1 && c.votes == 1 && c.votedFor == Some(me) && c.leader == None
      && c.log == n.log && c.commit == n.commit && c.peers == n.peers
      && VoteRequest(c, me, to) == RequestVote(me, to, n.term + 1, CurrentIndex(n.log), CurrentTerm(n.log))
  {
  }

  /** A new leader knows nothing of the others: its first append to each is empty, behind its own last entry. */
  lemma OfficeBegins(n: Node, me: nat, to: nat)
    requires Positioned(n.log) && to < |n.peers| && to != me
    ensures var l := TakeOffice(n, me);
      && l.role == Leader && l.leader == Some(me) && l == n.(role := Leader, leader := Some(me), peers := l.peers) && |l.peers| == |n.peers|
      && l.peers[to].matchIndex == 0
      && AppendRequest(l, me, to) == AppendEntries(me, to, n.term, |n.log|, CurrentTerm(n.log), n.commit, [])
    ensures me < |n.peers| ==> TakeOffice(n, me).peers[me] == n.peers[me]
  {
    LastIndex(n.log);
  }

  // ---- a leader's bookkeeping -------------------------------------------------------------

  /** The leader after an append to a peer has been sent, taken up and answered. */
  ghost function Exchanged(l: Node, f: Node, me: nat, to: nat): Node
    requires to < |l.peers|
  {
    var reply := ReplyToAppend(f, AppendRequest(l, me, to));
    OnAppendReply(AfterAppendRequest(l, to), to, reply.term, reply.ok)
  }

  /**
    One exchange with a peer of no newer term: where the peer agrees with the entry in front of the batch, the peer holds the
    batch and the next one begins right behind it; where it does not, the next one begins one entry earlier.
   */
  lemma ExchangeMoves(l: Node, f: Node, me: nat, to: nat)
    requires to < |l.peers| && Positioned(l.log) && f.term <= l.term && 1 <= l.peers[to].nextIndex <= |l.log|
    ensures var next, l' := l.peers[to].nextIndex, Exchanged(l, f, me, to);
      var batch := Batch(l.log, next);
      && l' == l.(peers := l'.peers) && |l'.peers| == |l.peers|
      && (forall j :: 0 <= j < |l.peers| && j != to ==> l'.peers[j] == l.peers[j])
      && batch == l.log[next - 1..next - 1 + |batch|] && |batch| == (if |l.log| - next + 1 < MAX_ENTRIES_PER_REQUEST then |l.log| - next + 1 else MAX_ENTRIES_PER_REQUEST)
      && if next == 1 || (next - 1 <= |f.log| && f.log[next - 2].term == l.log[next - 2].term)
         then l'.peers[to].nextIndex == next + |batch| && l'.peers[to].matchIndex == next + |batch| - 1
         else l'.peers[to].nextIndex == next - 1 && l'.peers[to].matchIndex == l.peers[to].matchIndex
  {
    hide AppendAll, CommitUpTo;
    var next := l.peers[to].nextIndex;
    var batch := Batch(l.log, next);
    LastIndex(l.log);
    assert batch == l.log[next - 1..next - 1 + |batch|];
    assert batch[|batch| - 1] == l.log[next - 2 + |batch|];
    assert Accepts(f, AppendRequest(l, me, to)) <==> next == 1 || (next - 1 <= |f.log| && f.log[next - 2].term == l.log[next - 2].term);
  }

  /** The last index up to `next` from which on a batch is accepted: behind an entry both logs have, or the first. */
  ghost function Agreement(mine: Log, theirs: Log, next: nat): (p: nat)
    requires 1 <= next <= |mine| + 1
    ensures 1 <= p <= next
  {
    if next == 1 || (next - 1 <= |theirs| && theirs[next - 2].term == mine[next - 2].term) then next
    else Agreement(mine, theirs, next - 1)
  }

  /** Both servers after k exchanges. */
  ghost function Talk(l: Node, f: Node, me: nat, to: nat, k: nat): (r: (Node, Node))
    requires to < |l.peers|
    decreases k
  {
    if k == 0 || |Exchanged(l, f, me, to).peers| <= to then (l, f)
    else Talk(Exchanged(l, f, me, to), OnAppendEntries(f, AppendRequest(l, me, to)), me, to, k - 1)
  }

  /** However far ahead a leader starts, its refused appends go back to exactly that index, and leave the other's log alone. */
  lemma {:induction false} FindsAgreement(l: Node, f: Node, me: nat, to: nat)
    requires to < |l.peers| && Positioned(l.log) && f.term <= l.term && 1 <= l.peers[to].nextIndex <= |l.log|
    ensures var next := l.peers[to].nextIndex;
      var p := Agreement(l.log, f.log, next);
      var t := Talk(l, f, me, to, next - p);
      t.0.log == l.log && to < |t.0.peers| && t.0.peers[to].nextIndex == p && t.1.log == f.log && Accepts(t.1, AppendRequest(t.0, me, to))
    decreases l.peers[to].nextIndex
  {
    hide AppendAll, CommitUpTo, Batch, Exchanged;
    var next := l.peers[to].nextIndex;
    ExchangeMoves(l, f, me, to);
    OnlyAppendsWrite(f, AppendRequest(l, me, to));
    TermIsLearned(f, AppendRequest(l, me, to));
    if Agreement(l.log, f.log, next) < next {
      FindsAgreement(Exchanged(l, f, me, to), OnAppendEntries(f, AppendRequest(l, me, to)), me, to);
    }
  }

  // ---- commit indexes ---------------------------------------------------------------------

  /** A follower commits what its leader has committed, as far as its log goes, and no further. */
  lemma CommitFollowsLeader(n: Node, m: Message)
    requires m.AppendEntries?
    ensures Receive(n, m).commit <= Max(n.commit, m.commit)
    ensures Accepts(n, m) && n.commit < m.commit <= CurrentIndex(Receive(n, m).log) ==> Receive(n, m).commit == m.commit
    ensures Accepts(n, m) && n.commit < m.commit && CurrentIndex(Receive(n, m).log) < m.commit ==>
              Receive(n, m).commit == CurrentIndex(Receive(n, m).log)
    ensures !Accepts(n, m) || m.commit <= n.commit ==> Receive(n, m).commit == n.commit
  {
    hide AppendAll, VerifyAppend;
  }

  /** No other message touches it. */
  lemma OnlyAppendsCommit(n: Node, m: Message)
    requires !m.AppendEntries? && (m.AppendReply? ==> m.from < |n.peers|)
    ensures Receive(n, m).commit == n.commit
  {
    hide Grants;
  }

  /** A command becomes the last entry of the leader's log; a server alone has it committed with everything before it. */
  lemma CommandIsLast(n: Node, name: seq<byte>, command: seq<byte>)
    requires Positioned(n.log)
    ensures var n' := OnCommand(n, name, command);
      && n'.log == n.log + [Entry(|n.log| + 1, n.term, name, command)]
      && n'.commit == (if |n.peers| == 1 then Max(n.commit, |n'.log|) else n.commit)
      && n' == n.(log := n'.log, commit := n'.commit)
  {
    LastIndex(n.log);
    assert OnCommand(n, name, command).log == n.log + [Entry(|n.log| + 1, n.term, name, command)];
  }

  lemma LastIndex(log: Log)
    requires Positioned(log)
    ensures CurrentIndex(log) == |log|
  {
  }

  /** Step j is a leader's own, and leaves its commit index at c or more. */
  ghost predicate LeaderSet(run: seq<System>, acts: seq<Action>, j: nat, c: int)
    requires j < |acts| && |run| == |acts| + 1
  {
    && (acts[j].UpdateCommit? || acts[j].Command?)
    && acts[j].i < |run[j].nodes| && run[j].nodes[acts[j].i].role == Leader
    && acts[j].i < |run[j + 1].nodes| && c <= run[j + 1].nodes[acts[j].i].commit
  }

  /** Nothing up to state k is committed beyond what some leader has set before. */
  ghost predicate Backed(run: seq<System>, acts: seq<Action>, k: nat, c: int)
    requires k <= |acts| && |run| == |acts| + 1
  {
    c <= 0 || exists j :: 0 <= j < k && LeaderSet(run, acts, j, c)
  }

  ghost predicate AllBacked(run: seq<System>, acts: seq<Action>, k: nat)
    requires k <= |acts| && |run| == |acts| + 1
  {
    && (forall i :: 0 <= i < |run[k].nodes| ==> Backed(run, acts, k, run[k].nodes[i].commit))
    && (forall m :: m in run[k].net && m.AppendEntries? ==> Backed(run, acts, k, m.commit))
  }

  lemma BackedGrows(run: seq<System>, acts: seq<Action>, k: nat, c: int, c': int)
    requires k < |acts| && |run| == |acts| + 1 && Backed(run, acts, k, c) && c' <= c
    ensures Backed(run, acts, k + 1, c')
  {
    if c' > 0 {
      var j :| 0 <= j < k && LeaderSet(run, acts, j, c);
      assert LeaderSet(run, acts, j, c');
    }
  }

  /** A step raises a commit index, or sends one, only as a leader's own step or to one that was there. */
  lemma StepBacked(s: System, a: Action, i: nat)
    requires Enabled(s, a) && i < |s.nodes|
    ensures |Next(s, a).nodes| == |s.nodes|
    ensures (a.UpdateCommit? || a.Command?) && a.i == i ==> s.nodes[i].role == Leader
    ensures !((a.UpdateCommit? || a.Command?) && a.i == i) ==>
              Next(s, a).nodes[i].commit <= s.nodes[i].commit
              || (a.Deliver? && a.m.AppendEntries? && a.m in s.net && Next(s, a).nodes[i].commit <= a.m.commit)
  {
    hide AppendAll, VerifyAppend, CommitUpTo, GetTerm, FreshPeers, WriteEntry, Batch, Grants, Receive, Replies, Broadcast, OnCommand;
    if a.Deliver? {
      if a.m.AppendEntries? {
        CommitFollowsLeader(s.nodes[a.m.to], a.m);
      } else {
        OnlyAppendsCommit(s.nodes[a.m.to], a.m);
      }
    }
  }

  lemma SameSize(s: System, a: Action)
    requires Enabled(s, a)
    ensures |Next(s, a).nodes| == |s.nodes|
  {
    hide Receive, Replies, OnCommand, FreshPeers, Broadcast;
  }

  lemma SentBacked(s: System, a: Action, m: Message)
    requires Enabled(s, a) && m in Next(s, a).net && m.AppendEntries? && m !in s.net
    ensures a.SendAppend? && m.commit == s.nodes[a.i].commit
  {
    hide AppendAll, VerifyAppend, CommitUpTo, GetTerm, FreshPeers, WriteEntry, Batch, Grants, Receive, OnCommand, OnRequestVote, OnAppendEntries;
  }

  /** In every run, no server's commit index, and none on its way, exceeds the largest one a leader has set by a step of its own. */
  lemma {:induction false} CommitsComeFromLeaders(run: seq<System>, acts: seq<Action>, k: nat)
    requires IsRun(run, acts) && k <= |acts|
    ensures AllBacked(run, acts, k)
    decreases k
  {
    hide Next, Enabled, Backed;
    if k == 0 {
      NoneBacked(run, acts);
    } else {
      CommitsComeFromLeaders(run, acts, k - 1);
      var s, a := run[k - 1], acts[k - 1];
      forall i | 0 <= i < |run[k].nodes| ensures Backed(run, acts, k, run[k].nodes[i].commit) {
        NodeBacked(run, acts, k - 1, i);
      }
      forall m | m in run[k].net && m.AppendEntries? ensures Backed(run, acts, k, m.commit) {
        if m in s.net {
          BackedGrows(run, acts, k - 1, m.commit, m.commit);
        } else {
          SentBacked(s, a, m);
          SenderThere(s, a);
          BackedGrows(run, acts, k - 1, s.nodes[a.i].commit, m.commit);
        }
      }
    }
  }

  lemma SenderThere(s: System, a: Action)
    requires Enabled(s, a) && a.SendAppend?
    ensures a.i < |s.nodes|
  {
  }

  lemma NoneBacked(run: seq<System>, acts: seq<Action>)
    requires IsRun(run, acts)
    ensures AllBacked(run, acts, 0)
  {
  }

  lemma NodeBacked(run: seq<System>, acts: seq<Action>, k: nat, i: nat)
    requires IsRun(run, acts) && k < |acts| && AllBacked(run, acts, k) && i < |run[k + 1].nodes|
    ensures Backed(run, acts, k + 1, run[k + 1].nodes[i].commit)
  {
    hide Next, Enabled, Init;
    var s, a := run[k], acts[k];
    SameSize(s, a);
    StepBacked(s, a, i);
    var c := run[k + 1].nodes[i].commit;
    if (a.UpdateCommit? || a.Command?) && a.i == i {
      assert LeaderSet(run, acts, k, c);
    } else if c <= s.nodes[i].commit {
      BackedGrows(run, acts, k, s.nodes[i].commit, c);
    } else {
      BackedGrows(run, acts, k, a.m.commit, c);
    }
  }
}
