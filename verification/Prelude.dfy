/** Types shared by every component of the model. */
module Prelude {

  /** One octet of a buffer, file or packet. */
  newtype byte = x: int | 0 <= x < 256

  datatype Option<+T> = None | Some(value: T)

  /** A buffer holds a string at a position. */
  ghost predicate At(buf: seq<byte>, p: nat, s: seq<byte>) {
    p + |s| <= |buf| && buf[p..p + |s|] == s
  }

  lemma AtIndex(buf: seq<byte>, p: nat, s: seq<byte>, i: nat)
    requires At(buf, p, s) && i < |s|
    ensures buf[p + i] == s[i]
  {
    assert buf[p..p + |s|][i] == s[i];
  }

  lemma AtParts(buf: seq<byte>, p: nat, a: seq<byte>, b: seq<byte>)
    requires At(buf, p, a + b)
    ensures At(buf, p, a) && At(buf, p + |a|, b)
  {
    var s := buf[p..p + |a + b|];
    assert s[..|a|] == a && s[|a|..] == b;
  }
}
