/** The framing shared by client requests and the log file: counted arrays of counted strings. */
module Resp {
  import opened Prelude
  import opened Decimal

  const STAR: byte := 42
  const DOLLAR: byte := 36
  const CRLF: seq<byte> := [13, 10]

  function Arg(s: seq<byte>): seq<byte> {
    [DOLLAR] + Digits(|s|) + CRLF + s + CRLF
  }

  function Args(argv: seq<seq<byte>>): seq<byte> {
    if argv == [] then [] else Args(argv[..|argv| - 1]) + Arg(argv[|argv| - 1])
  }

  function Frame(argv: seq<seq<byte>>): seq<byte> {
    [STAR] + Digits(|argv|) + CRLF + Args(argv)
  }

  /** The first argument in front of the others. */
  lemma {:induction false} ArgsFirst(argv: seq<seq<byte>>)
    requires argv != []
    ensures Args(argv) == Arg(argv[0]) + Args(argv[1..])
  {
    hide Arg;
    var n := |argv| - 1;
    if n == 0 {
      assert argv[..0] == [] && argv[1..] == [];
    } else {
      ArgsFirst(argv[..n]);
      var inner := Args(argv[1..][..n - 1]);
      assert argv[..n][1..] == argv[1..][..n - 1] && argv[..n][0] == argv[0];
      assert Args(argv) == Arg(argv[0]) + inner + Arg(argv[n]);
      assert Args(argv[1..]) == inner + Arg(argv[n]);
    }
  }
}
