/** How many elements of a sequence satisfy a predicate. */
module Counting {

  function Count<T>(s: seq<T>, p: T -> bool): (k: nat)
    ensures k <= |s|
  {
    if s == [] then 0 else Count(s[..|s| - 1], p) + (if p(s[|s| - 1]) then 1 else 0)
  }

  lemma {:induction false} CountSplit<T>(s: seq<T>, t: seq<T>, p: T -> bool)
    ensures Count(s + t, p) == Count(s, p) + Count(t, p)
  {
    if t == [] {
      assert s + t == s;
    } else {
      CountSplit(s, t[..|t| - 1], p);
      assert (s + t)[..|s + t| - 1] == s + t[..|t| - 1];
    }
  }

  lemma {:induction false} CountPermutes<T>(s: seq<T>, t: seq<T>, p: T -> bool)
    requires multiset(s) == multiset(t)
    ensures Count(s, p) == Count(t, p)
  {
    if s == [] {
      assert |multiset(t)| == 0;
    } else {
      var n := |s| - 1;
      assert s[n] in multiset(t);
      var k :| 0 <= k < |t| && t[k] == s[n];
      var t' := t[..k] + t[k + 1..];
      assert t == t[..k] + [t[k]] + t[k + 1..];
      assert s == s[..n] + [s[n]];
      assert multiset(t') == multiset(t) - multiset{t[k]};
      assert multiset(s[..n]) == multiset(s) - multiset{s[n]};
      CountPermutes(s[..n], t', p);
      CountSplit(t[..k], [t[k]], p);
      CountSplit(t[..k] + [t[k]], t[k + 1..], p);
      CountSplit(t[..k], t[k + 1..], p);
      assert [t[k]][..0] == [];
      assert Count([t[k]], p) == if p(t[k]) then 1 else 0;
    }
  }

  lemma {:induction false} CountAll<T>(s: seq<T>, p: T -> bool, b: bool)
    requires forall i :: 0 <= i < |s| ==> p(s[i]) == b
    ensures Count(s, p) == if b then |s| else 0
  {
    if s != [] {
      CountAll(s[..|s| - 1], p, b);
    }
  }

  /** At least n elements satisfy p when the first n do; at most n when none from n on does. */
  lemma CountBounds<T>(s: seq<T>, p: T -> bool, n: nat)
    requires n <= |s|
    ensures (forall i :: 0 <= i < n ==> p(s[i])) ==> Count(s, p) >= n
    ensures (forall i :: n <= i < |s| ==> !p(s[i])) ==> Count(s, p) <= n
  {
    assert s == s[..n] + s[n..];
    CountSplit(s[..n], s[n..], p);
    if forall i :: 0 <= i < n ==> p(s[i]) {
      CountAll(s[..n], p, true);
    }
    if forall i :: n <= i < |s| ==> !p(s[i]) {
      CountAll(s[n..], p, false);
    }
  }
}
