/** `clusterUpdateCommitIndex`: the index a leader may commit, picked by sort, reverse and subscript. */
module CommitChoice {
  import opened RaftLog
  import opened RaftNode
  import opened Counting

  /** A 64-bit difference returned as an `int`. */
  function ToInt32(x: int): (r: int)
    ensures -0x8000_0000 <= r < 0x8000_0000
  {
    var m := x % 0x1_0000_0000;
    if m < 0x8000_0000 then m else m - 0x1_0000_0000
  }

  /** `compareIndices`. */
  function CompareIndices(a: int, b: int): int {
    ToInt32(a - b)
  }

  /** The comparison is the order of the integers exactly for differences that an `int` can hold, up to 2^32. */
  lemma CompareAgrees(a: int, b: int)
    requires -0x1_0000_0000 < a - b < 0x1_0000_0000
    ensures (CompareIndices(a, b) <= 0 <==> a <= b) <==> -0x8000_0000 <= a - b < 0x8000_0000
  {
  }

  /** For any two indexes, only the difference modulo 2^32 counts. */
  lemma CompareExactly(a: int, b: int)
    ensures var d := (a - b) % 0x1_0000_0000;
      (CompareIndices(a, b) <= 0 <==> a <= b) <==> (if a <= b then d == 0 || d >= 0x8000_0000 else 0 < d < 0x8000_0000)
  {
  }

  /** Two indexes 2^31 apart compare, and sort, the wrong way round. */
  lemma CompareCanInvert()
    ensures CompareIndices(0x8000_0000, 0) < 0 && QSort([0x8000_0000, 0]) == [0x8000_0000, 0]
  {
    assert [0x8000_0000, 0][..1] == [0x8000_0000] && [0x8000_0000][..0] == [];
  }

  /** No two recorded indexes are 2^31 or more apart. */
  predicate Close(s: seq<int>) {
    forall i, j :: 0 <= i < |s| && 0 <= j < |s| ==> -0x8000_0000 < s[i] - s[j] < 0x8000_0000
  }

  ghost predicate Ascending(s: seq<int>) {
    forall i, j :: 0 <= i < j < |s| ==> s[i] <= s[j]
  }

  ghost predicate Descending(s: seq<int>) {
    forall i, j :: 0 <= i < j < |s| ==> s[i] >= s[j]
  }

  /** How many of the indexes reach c. */
  ghost function Reaching(s: seq<int>, c: int): nat {
    Count(s, x => x >= c)
  }

  /** c is the largest index that at least q of the servers reach. */
  ghost predicate QuorumIndex(s: seq<int>, q: nat, c: int) {
    Reaching(s, c) >= q && forall d :: d > c ==> Reaching(s, d) < q
  }

  /** The element that q - 1 others precede in descending order is that index. */
  lemma PickReaches(s: seq<int>, q: nat)
    requires Descending(s) && 1 <= q <= |s|
    ensures QuorumIndex(s, q, s[q - 1])
  {
    hide Count;
    CountBounds(s, x => x >= s[q - 1], q);
    forall d | d > s[q - 1] ensures Reaching(s, d) < q {
      CountBounds(s, x => x >= d, q - 1);
    }
  }

  // ---- the standard library's sort, by insertion ------------------------------------------

  function Insert(x: int, s: seq<int>): (r: seq<int>)
    ensures multiset(r) == multiset(s) + multiset{x}
  {
    if s == [] then [x]
    else
      var n := |s| - 1;
      assert s == s[..n] + [s[n]];
      if CompareIndices(s[n], x) <= 0 then s + [x] else Insert(x, s[..n]) + [s[n]]
  }

  /** `qsort` with `compareIndices`. */
  function QSort(s: seq<int>): (r: seq<int>)
    ensures multiset(r) == multiset(s)
  {
    if s == [] then []
    else
      assert s == s[..|s| - 1] + [s[|s| - 1]];
      Insert(s[|s| - 1], QSort(s[..|s| - 1]))
  }

  /** x is less than 2^31 away from every element. */
  ghost predicate Near(x: int, s: seq<int>) {
    forall i :: 0 <= i < |s| ==> -0x8000_0000 < s[i] - x < 0x8000_0000
  }

  lemma {:induction false} InsertSorts(x: int, s: seq<int>)
    requires Ascending(s) && Near(x, s)
    ensures Ascending(Insert(x, s))
  {
    hide CompareIndices;
    if s != [] {
      var n := |s| - 1;
      CompareAgrees(s[n], x);
      if CompareIndices(s[n], x) > 0 {
        InsertSorts(x, s[..n]);
        InsertBelow(x, s[..n], s[n]);
        SnocSorted(Insert(x, s[..n]), s[n]);
      } else {
        SnocSorted(s, x);
      }
    }
  }

  lemma InsertBelow(x: int, s: seq<int>, y: int)
    requires x <= y && forall i :: 0 <= i < |s| ==> s[i] <= y
    ensures forall i :: 0 <= i < |Insert(x, s)| ==> Insert(x, s)[i] <= y
  {
    hide Insert;
    var r := Insert(x, s);
    forall i | 0 <= i < |r| ensures r[i] <= y {
      assert r[i] in multiset(r);
      assert r[i] in multiset(s) || r[i] == x;
    }
  }

  lemma SnocSorted(s: seq<int>, y: int)
    requires Ascending(s) && forall i :: 0 <= i < |s| ==> s[i] <= y
    ensures Ascending(s + [y])
  {
  }

  lemma NearPermutes(x: int, s: seq<int>, t: seq<int>)
    requires Near(x, s) && multiset(s) == multiset(t)
    ensures Near(x, t)
  {
    forall i | 0 <= i < |t| ensures -0x8000_0000 < t[i] - x < 0x8000_0000 {
      assert t[i] in multiset(s);
    }
  }

  lemma {:induction false} QSortSorts(s: seq<int>)
    requires Close(s)
    ensures Ascending(QSort(s))
  {
    if s != [] {
      var n := |s| - 1;
      QSortSorts(s[..n]);
      NearPermutes(s[n], s[..n], QSort(s[..n]));
      InsertSorts(s[n], QSort(s[..n]));
    }
  }

  function Reversed(s: seq<int>): (r: seq<int>)
    ensures |r| == |s|
    ensures forall i :: 0 <= i < |s| ==> r[i] == s[|s| - 1 - i]
  {
    seq(|s|, i requires 0 <= i < |s| => s[|s| - 1 - i])
  }

  lemma {:induction false} ReversedPermutes(s: seq<int>)
    ensures multiset(Reversed(s)) == multiset(s)
  {
    if s != [] {
      var n := |s| - 1;
      ReversedPermutes(s[..n]);
      assert Reversed(s) == [s[n]] + Reversed(s[..n]);
      assert s == s[..n] + [s[n]];
    }
  }

  lemma ReversedDescends(s: seq<int>)
    requires Ascending(s)
    ensures Descending(Reversed(s))
  {
  }

  /** `reverseIndices`. */
  method ReverseIndices(a: array<int>)
    modifies a
    ensures a[..] == Reversed(old(a[..]))
  {
    var n := a.Length;
    var i, j := 0, n - 1;
    while i < n / 2
      invariant 0 <= i <= n / 2 && j == n - 1 - i
      invariant forall k :: 0 <= k < n ==>
                  a[k] == if k < i || k > j then old(a[n - 1 - k]) else old(a[k])
    {
      a[i], a[j] := a[j], a[i];
      i, j := i + 1, j - 1;
    }
  }

  /** The indexes are collected, sorted and reversed, and the one at the quorum is taken. */
  method PickCommitIndex(match_: seq<int>) returns (c: int)
    requires match_ != []
    ensures Close(match_) ==> QuorumIndex(match_, Quorum(|match_|), c)
    ensures c in match_
  {
    hide QSort;
    var sorted := QSort(match_);
    assert |multiset(sorted)| == |multiset(match_)|;
    var a := new int[|match_|];
    var i := 0;
    while i < |match_|
      invariant 0 <= i <= |match_|
      invariant forall k :: 0 <= k < i ==> a[k] == sorted[k]
    {
      a[i] := sorted[i];
      i := i + 1;
    }
    assert a[..] == sorted;
    ReverseIndices(a);
    c := a[Quorum(|match_|) - 1];
    Picked(match_, a[..]);
    assert c == a[..][Quorum(|match_|) - 1];
  }

  lemma PermutedQuorum(s: seq<int>, r: seq<int>, q: nat, c: int)
    requires multiset(r) == multiset(s) && QuorumIndex(r, q, c)
    ensures QuorumIndex(s, q, c)
  {
    hide Count;
    forall d ensures Reaching(r, d) == Reaching(s, d) {
      CountPermutes(r, s, x => x >= d);
    }
  }

  lemma QuorumFits(n: nat)
    requires n > 0
    ensures 1 <= Quorum(n) <= n
  {
  }

  lemma Picked(s: seq<int>, r: seq<int>)
    requires s != [] && r == Reversed(QSort(s))
    ensures |r| == |s| && 1 <= Quorum(|s|) <= |s| && r[Quorum(|s|) - 1] in s
    ensures Close(s) ==> QuorumIndex(s, Quorum(|s|), r[Quorum(|s|) - 1])
  {
    hide QSort, QuorumIndex, Close, Ascending, Descending, Quorum, Reversed;
    QuorumFits(|s|);
    SameLength(QSort(s), s);
    ReversedPermutes(QSort(s));
    var c := r[Quorum(|s|) - 1];
    assert c in multiset(r);
    if Close(s) {
      QSortSorts(s);
      ReversedDescends(QSort(s));
      PickReaches(r, Quorum(|s|));
      PermutedQuorum(s, r, Quorum(|s|), c);
    }
  }

  lemma SameLength(s: seq<int>, t: seq<int>)
    requires multiset(s) == multiset(t)
    ensures |s| == |t|
  {
    assert |multiset(s)| == |multiset(t)|;
  }

  /**
   * The leader's commit index never moves down, and moves only to an index whose entry, when the
   * log is long enough to have one, is of the current term.
   */
  lemma CommitMovesUp(n: Node, c: int)
    ensures OnQuorumIndex(n, c).commit >= n.commit
    ensures OnQuorumIndex(n, c).commit != n.commit ==> OnQuorumIndex(n, c).commit == c
    ensures OnQuorumIndex(n, c).commit != n.commit && 1 <= c <= |n.log| ==> n.log[c - 1].term == n.term
  {
  }

  /** Past the end of the log the term is read from an entry near the head instead. */
  lemma CommitCanPassTheEnd(n: Node)
    requires n.log != [] && n.log[0].term == n.term && n.commit <= |n.log|
    ensures OnQuorumIndex(n, |n.log| + 1).commit == |n.log| + 1
  {
  }

  /** The term an index past the end is given: that of the entry a whole log's length before it, if any. */
  function WrappedTerm(n: Node, c: int): int
    requires |n.log| < c
  {
    if c <= 2 * |n.log| then n.log[c - 1 - |n.log|].term else 0
  }

  /**
   * A commit lands on an entry of the current term exactly when the index is within the log, not above the
   * commit index, or, past the end, wraps to an entry of another term.
   */
  lemma CommitLandsExactly(n: Node, c: int)
    requires 0 <= n.commit
    ensures (OnQuorumIndex(n, c).commit != n.commit ==> 1 <= c <= |n.log| && n.log[c - 1].term == n.term)
       <==> c <= n.commit || c <= |n.log| || WrappedTerm(n, c) != n.term
  {
  }

  /** A follower's commit index goes down exactly when it is past the log's end and below the leader's. */
  lemma FollowerCommitExactly(log: Log, commit: int, leaderCommit: int)
    ensures CommitUpTo(log, commit, leaderCommit) >= commit <==> leaderCommit <= commit || commit <= CurrentIndex(log)
  {
  }
}
