/** A run of three servers in which Log Matching fails through the guard of `logTruncate`. */
module MisplacedEntry {
  import opened Prelude
  import opened RaftLog
  import opened RaftNode
  import opened RaftSystem
  import opened LogMatching

  const P := Peer(0, 0, None)
  const IDLE := Node(Follower, 0, None, 0, None, [], 0, [P, P, P])
  const OLD := Entry(1, 1, [], [])
  const NEW := Entry(1, 2, [], [])

  const CHIEF0 := Node(Leader, 1, Some(0), 2, Some(0), [], 0, [P, Peer(1, 0, None), Peer(1, 0, None)])
  const CHIEF1 := Node(Leader, 2, Some(1), 2, Some(1), [], 0, [Peer(1, 0, None), P, Peer(1, 0, None)])
  const VOTER1 := IDLE.(term := 1, votedFor := Some(0))
  const VOTER2 := IDLE.(term := 2, votedFor := Some(1))

  ghost predicate Step(s: System, a: Action, s': System) {
    Enabled(s, a) && Next(s, a) == s'
  }

  /** Server 0 wins term 1 with server 1's vote. */
  lemma FirstElection() returns (run: seq<System>, acts: seq<Action>)
    ensures IsRun(run, acts) && run[|acts|] == System([CHIEF0, VOTER1, IDLE], multiset{})
    ensures forall k :: 0 <= k < |acts| ==> !acts[k].Scramble? && !acts[k].UpdateCommit?
  {
    var candidate := IDLE.(role := Candidate, term := 1, votedFor := Some(0), votes := 1);
    var ask, grant := RequestVote(0, 1, 1, 0, 0), VoteReply(1, 0, 1, true);
    var s0 := System([IDLE, IDLE, IDLE], multiset{});
    var s1 := System([candidate, IDLE, IDLE], multiset{ask});
    var s2 := System([candidate, VOTER1, IDLE], multiset{grant});
    var s3 := System([candidate.(votes := 2), VOTER1, IDLE], multiset{});
    var s4 := System([CHIEF0, VOTER1, IDLE], multiset{});
    assert Step(s0, Timeout(0, {1}), s1) by {
      assert Broadcast(candidate, 0, {1}) == {ask};
    }
    assert Step(s1, Deliver(ask), s2);
    assert Step(s2, Deliver(grant), s3);
    assert Step(s3, Win(0), s4) by {
      assert FreshPeers(s3.nodes[0], 0) == CHIEF0.peers;
    }
    run := [s0, s1, s2, s3, s4];
    acts := [Timeout(0, {1}), Deliver(ask), Deliver(grant), Win(0)];
  }

  lemma FirstEntry(n: Node)
    requires n.log == [] && |n.peers| == 3
    ensures OnCommand(n, [], []) == n.(log := [Entry(1, n.term, [], [])])
  {
  }

  /** Server 0 appends an entry that nobody receives. */
  lemma OwnEntry(s: System, own: System)
    requires s == System([CHIEF0, VOTER1, IDLE], multiset{})
    requires own == System([CHIEF0.(log := [OLD]), VOTER1, IDLE], multiset{})
    ensures Step(s, Command(0, [], []), own)
  {
    FirstEntry(CHIEF0);
  }

  /** Server 1 wins term 2 with server 2's vote, whatever server 0 holds. */
  lemma SecondElection(s: System, stale: Node) returns (s4: System, acts: seq<Action>, mid: seq<System>)
    requires s == System([stale, VOTER1, IDLE], multiset{})
    ensures s4 == System([stale, CHIEF1, VOTER2], multiset{})
    ensures |acts| == |mid| == 4 && mid[3] == s4 && Step(s, acts[0], mid[0])
    ensures forall k :: 1 <= k < 4 ==> Step(mid[k - 1], acts[k], mid[k])
  {
    var candidate := VOTER1.(role := Candidate, term := 2, votedFor := Some(1), votes := 1);
    var ask, grant := RequestVote(1, 2, 2, 0, 0), VoteReply(2, 1, 2, true);
    var s1 := System([stale, candidate, IDLE], multiset{ask});
    var s2 := System([stale, candidate, VOTER2], multiset{grant});
    var s3 := System([stale, candidate.(votes := 2), VOTER2], multiset{});
    s4 := System([stale, CHIEF1, VOTER2], multiset{});
    assert Step(s, Timeout(1, {2}), s1) by {
      assert Broadcast(candidate, 1, {2}) == {ask};
    }
    assert Step(s1, Deliver(ask), s2);
    assert Step(s2, Deliver(grant), s3);
    assert Step(s3, Win(1), s4) by {
      assert FreshPeers(s3.nodes[1], 1) == CHIEF1.peers;
    }
    acts := [Timeout(1, {2}), Deliver(ask), Deliver(grant), Win(1)];
    mid := [s1, s2, s3, s4];
  }

  /** Server 1 appends its own first entry and sends it to server 0, which keeps both. */
  lemma Overwrite(s: System) returns (acts: seq<Action>, mid: seq<System>)
    requires s == System([CHIEF0.(log := [OLD]), CHIEF1, VOTER2], multiset{})
    ensures |acts| == |mid| == 3 && Step(s, acts[0], mid[0])
    ensures forall k :: 1 <= k < 3 ==> Step(mid[k - 1], acts[k], mid[k])
    ensures |mid[2].nodes| == 3 && mid[2].nodes[0].log == [OLD, NEW]
  {
    var stale, chief := CHIEF0.(log := [OLD]), CHIEF1.(log := [NEW]);
    var s1 := System([stale, chief, VOTER2], multiset{});
    FirstEntry(CHIEF1);
    assert Step(s, Command(1, [], []), s1);
    var batch := AppendEntries(1, 0, 2, 0, 0, 0, [NEW]);
    assert AppendRequest(chief, 1, 0) == batch;
    var s2 := System([stale, AfterAppendRequest(chief, 0), VOTER2], multiset{batch});
    assert Step(s1, SendAppend(1, 0), s2);
    assert WriteEntry([OLD], NEW) == [OLD, NEW];
    assert [NEW][1..] == [];
    assert AppendAll([OLD], [NEW]) == [OLD, NEW];
    var s3 := Next(s2, Deliver(batch));
    acts := [Command(1, [], []), SendAppend(1, 0), Deliver(batch)];
    mid := [s1, s2, s3];
  }

  lemma Extend(run: seq<System>, acts: seq<Action>, more: seq<Action>, mid: seq<System>)
    requires IsRun(run, acts) && |more| == |mid| > 0
    requires Step(run[|acts|], more[0], mid[0])
    requires forall k :: 1 <= k < |more| ==> Step(mid[k - 1], more[k], mid[k])
    ensures IsRun(run + mid, acts + more)
  {
    hide Next, Enabled, Init;
    forall k | 0 <= k < |acts + more|
      ensures Step((run + mid)[k], (acts + more)[k], (run + mid)[k + 1])
    {
      if k < |acts| {
        assert Enabled(run[k], acts[k]) && run[k + 1] == Next(run[k], acts[k]);
      }
    }
  }

  /**
   * Log Matching is not a property of every run: a follower whose only entry is in conflict keeps
   * it, and the leader's entry lands at position 2 with index 1.
   */
  lemma LogMatchingCanFail() returns (run: seq<System>, acts: seq<Action>)
    ensures IsRun(run, acts) && !LogsMatch(run[|acts|])
    ensures |run[|acts|].nodes| == 3 && run[|acts|].nodes[0].log == [OLD, NEW]
  {
    hide Next, Enabled, Init;
    run, acts := FirstElection();
    var own := System([CHIEF0.(log := [OLD]), VOTER1, IDLE], multiset{});
    OwnEntry(run[|acts|], own);
    Extend(run, acts, [Command(0, [], [])], [own]);
    run, acts := run + [own], acts + [Command(0, [], [])];
    var s, more, mid := SecondElection(own, CHIEF0.(log := [OLD]));
    Extend(run, acts, more, mid);
    run, acts := run + mid, acts + more;
    more, mid := Overwrite(s);
    Extend(run, acts, more, mid);
    run, acts := run + mid, acts + more;
    assert !Positioned(run[|acts|].nodes[0].log) by {
      assert [OLD, NEW][1].index == 1;
    }
  }
}
