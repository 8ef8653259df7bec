/** src/ziplist.c: the byte format of one entry, written and read back. */
module ZipCodec {
  import opened Prelude
  import opened Decimal

  const ZIP_END: byte := 255
  const ZIP_BIGLEN: nat := 254
  const UINT32_MAX: nat := 0xffff_ffff

  // ---- little-endian integers -------------------------------------------------------------

  function Pow256(n: nat): (p: nat)
    ensures p >= 1
  {
    if n == 0 then 1 else 256 * Pow256(n - 1)
  }

  function LE(x: nat, n: nat): (s: seq<byte>)
    ensures |s| == n
  {
    if n == 0 then [] else [(x % 256) as byte] + LE(x / 256, n - 1)
  }

  function FromLE(s: seq<byte>): (x: nat)
    ensures x < Pow256(|s|)
  {
    if s == [] then 0 else s[0] as nat + 256 * FromLE(s[1..])
  }

  lemma {:induction false} LERoundTrip(x: nat, n: nat)
    requires x < Pow256(n)
    ensures FromLE(LE(x, n)) == x
  {
    if n > 0 {
      assert x / 256 < Pow256(n - 1);
      LERoundTrip(x / 256, n - 1);
      assert LE(x, n)[1..] == LE(x / 256, n - 1);
    }
  }

  lemma Powers()
    ensures Pow256(1) == 0x100 && Pow256(2) == 0x1_0000 && Pow256(3) == 0x100_0000
    ensures Pow256(4) == 0x1_0000_0000 && Pow256(8) == 0x1_0000_0000_0000_0000
  {
    assert Pow256(1) == 0x100;
    assert Pow256(2) == 0x1_0000;
    assert Pow256(3) == 0x100_0000;
    assert Pow256(4) == 0x1_0000_0000;
    assert Pow256(5) == 0x100_0000_0000;
    assert Pow256(6) == 0x1_0000_0000_0000;
    assert Pow256(7) == 0x100_0000_0000_0000;
  }

  /** Two's complement in n bytes. */
  function SaveSigned(v: int, n: nat): (s: seq<byte>)
    requires 0 - Pow256(n) <= v
    ensures |s| == n
  {
    LE(if v < 0 then v + Pow256(n) else v, n)
  }

  function LoadSigned(s: seq<byte>): int {
    var x := FromLE(s);
    if 2 * x < Pow256(|s|) then x else x - Pow256(|s|)
  }

  lemma SignedRoundTrip(v: int, n: nat)
    requires 0 - Pow256(n) <= 2 * v < Pow256(n)
    ensures LoadSigned(SaveSigned(v, n)) == v
  {
    LERoundTrip(if v < 0 then v + Pow256(n) else v, n);
  }

  // ---- the previous entry's length --------------------------------------------------------

  /** `zipPrevEncodeLength` without a buffer. */
  function PrevSize(len: nat): nat {
    if len < ZIP_BIGLEN then 1 else 5
  }

  /** The field in its short form, or in its long form whatever the length. */
  function PrevField(len: nat, big: bool): (s: seq<byte>)
    requires len <= UINT32_MAX && (big || len < ZIP_BIGLEN)
    ensures |s| == if big then 5 else 1
  {
    if big then [ZIP_BIGLEN as byte] + LE(len, 4) else [len as byte]
  }

  // ---- the payload ------------------------------------------------------------------------

  /** What an entry holds: a string, or an integer in the smallest encoding that takes it. */
  datatype Item = Str(s: seq<byte>) | Int(v: int)

  /** The string an entry stands for. */
  function Text(item: Item): seq<byte> {
    match item
    case Str(s) => s
    case Int(v) => Print(v)
  }

  /** The encoding that `zipTryEncoding` picks for a value. */
  function IntEncoding(v: int): (e: byte)
    requires IsLongLong(v)
    ensures e >= 192 && e != 255
  {
    if 0 <= v <= 12 then (241 + v) as byte
    else if -128 <= v <= 127 then 254
    else if -32768 <= v <= 32767 then 192
    else if -8388608 <= v <= 8388607 then 240
    else if -2147483648 <= v <= 2147483647 then 208
    else 224
  }

  /** `zipIntSize`. */
  function IntSize(encoding: byte): nat {
    match encoding
    case 254 => 1
    case 192 => 2
    case 240 => 3
    case 208 => 4
    case 224 => 8
    case _ => 0
  }

  /** `zipEncodeLength` for a string. */
  function StrHeader(len: nat): (s: seq<byte>)
    requires len <= UINT32_MAX
    ensures |s| == if len <= 63 then 1 else if len <= 16383 then 2 else 5
  {
    if len <= 63 then [len as byte]
    else if len <= 16383 then [(64 + len / 256) as byte, (len % 256) as byte]
    else [128, (len / 0x100_0000) as byte, (len / 0x1_0000 % 256) as byte, (len / 0x100 % 256) as byte, (len % 256) as byte]
  }

  predicate ItemOk(item: Item) {
    match item
    case Str(s) => |s| <= UINT32_MAX
    case Int(v) => IsLongLong(v)
  }

  function IntBody(v: int): (s: seq<byte>)
    requires IsLongLong(v)
    ensures |s| == IntSize(IntEncoding(v))
  {
    Powers();
    SaveSigned(v, IntSize(IntEncoding(v)))
  }

  /** Header and content of an entry, after the field for the previous length. */
  function Body(item: Item): (s: seq<byte>)
    requires ItemOk(item)
    ensures |s| >= 1
  {
    match item
    case Str(s) => StrHeader(|s|) + s
    case Int(v) => [IntEncoding(v)] + IntBody(v)
  }

  /** `zipLoadInteger`. */
  function LoadInteger(p: seq<byte>, encoding: byte): int
    requires |p| == IntSize(encoding)
  {
    if 241 <= encoding <= 253 then encoding as int - 241 else LoadSigned(p)
  }

  /** What `zipSaveInteger` stores, `zipLoadInteger` reads back. */
  lemma IntegerRoundTrip(v: int)
    requires IsLongLong(v)
    ensures LoadInteger(IntBody(v), IntEncoding(v)) == v
  {
    Powers();
    if !(0 <= v <= 12) {
      SignedRoundTrip(v, IntSize(IntEncoding(v)));
    }
  }

  /** The payload that stands for a string. */
  ghost function ItemOf(s: seq<byte>): Item {
    if |s| < 32 && ParseLl(s).Some? then Int(ParseLl(s).value) else Str(s)
  }

  /** Every numeral of a 64-bit integer is stored as that integer. */
  lemma NumeralsAreIntegers(v: int)
    requires IsLongLong(v)
    ensures ItemOf(Print(v)) == Int(v)
  {
    hide Digits, ParseLl;
    ParseInvertsPrint(v);
    NumeralLength(v);
  }

  lemma NumeralLength(v: int)
    requires IsLongLong(v)
    ensures |Print(v)| == Digits10(if v < 0 then -v else v) + if v < 0 then 1 else 0
    ensures |Print(v)| < 32
  {
    hide Digits;
    Digits10Counts(if v < 0 then -v else v);
  }

  /** No shorter integer form can take the value. */
  lemma SmallestInteger(v: int, s: seq<byte>)
    requires IsLongLong(v) && |s| < IntSize(IntEncoding(v)) && |s| in {1, 2, 3, 4}
    ensures LoadSigned(s) != v
  {
    hide FromLE;
    Powers();
    assert FromLE(s) < Pow256(|s|);
  }

  lemma ImmediatesOnly(v: int, e: byte)
    requires IsLongLong(v) && 241 <= e <= 253
    ensures LoadInteger([], e) == v <==> IntEncoding(v) == e
  {
  }

  /** The payload chosen for a string takes no more bytes than any other that stands for it. */
  lemma SmallestItem(item: Item)
    requires ItemOk(item) && ItemOk(ItemOf(Text(item)))
    ensures |Body(ItemOf(Text(item)))| <= |Body(item)|
  {
    hide Digits, ParseLl, IntBody, Print;
    match item {
      case Str(s) =>
        if ItemOf(s).Int? {
          var v := ParseLl(s).value;
          NumeralLength(v);
          IntegerIsShorter(v);
        }
      case Int(v) =>
        NumeralsAreIntegers(v);
    }
  }

  lemma IntegerIsShorter(v: int)
    requires IsLongLong(v)
    ensures IntSize(IntEncoding(v)) <= |Print(v)|
  {
    hide Digits;
    NumeralLength(v);
  }

  /** `zipTryEncoding`: an integer when the string is the numeral of one. */
  method TryEncoding(s: seq<byte>) returns (item: Item)
    requires |s| <= UINT32_MAX
    ensures item == ItemOf(s) && ItemOk(item) && Text(item) == s
  {
    hide Print, ParseLl;
    if |s| >= 32 || |s| == 0 {
      NoNumeral();
      return Str(s);
    }
    var v := StringToLl(s);
    if v.Some? {
      return Int(v.value);
    }
    item := Str(s);
  }

  lemma NoNumeral()
    ensures ParseLl([]).None?
  {
  }

  // ---- reading ----------------------------------------------------------------------------

  /** `struct zlentry`, without the pointer. */
  datatype ZlEntry = ZlEntry(prevrawlensize: nat, prevrawlen: nat, lensize: nat, len: nat, encoding: byte)
  {
    function HeaderSize(): nat {
      prevrawlensize + lensize
    }

    function Raw(): nat {
      prevrawlensize + lensize + len
    }
  }

  /** ZIP_DECODE_PREVLENSIZE. */
  function DecodePrevSize(data: seq<byte>, p: nat): nat
    requires p < |data|
  {
    if data[p] as nat < ZIP_BIGLEN then 1 else 5
  }

  /** ZIP_DECODE_LENGTH: the encoding, the size of the length field, and the length. */
  function DecodeLength(data: seq<byte>, p: nat): Option<(byte, nat, nat)>
    requires p < |data|
  {
    var b := data[p];
    if b < 64 then Some((0, 1, b as nat))
    else if b < 128 then
      if p + 1 < |data| then Some((64, 2, (b as nat - 64) * 256 + data[p + 1] as nat)) else None
    else if b < 192 then
      if p + 4 < |data|
      then Some((128, 5, ((data[p + 1] as nat * 256 + data[p + 2] as nat) * 256 + data[p + 3] as nat) * 256 + data[p + 4] as nat))
      else None
    else Some((b, 1, IntSize(b)))
  }

  /** `zipEntry`; None where the reads would leave the buffer. */
  function ZipEntry(data: seq<byte>, p: nat): Option<ZlEntry>
    requires p < |data|
  {
    var size := DecodePrevSize(data, p);
    if p + size >= |data| then None
    else
      var prev := if size == 1 then data[p] as nat else FromLE(data[p + 1..p + 5]);
      match DecodeLength(data, p + size)
      case None => None
      case Some((encoding, lensize, len)) => Some(ZlEntry(size, prev, lensize, len, encoding))
  }

  /** An entry: the recorded length of the previous one, the form of that field, and the payload. */
  datatype Node = Node(prev: nat, big: bool, item: Item)

  predicate NodeOk(n: Node) {
    n.prev <= UINT32_MAX && (n.big || n.prev < ZIP_BIGLEN) && ItemOk(n.item)
  }

  function Enc(n: Node): (s: seq<byte>)
    requires NodeOk(n)
    ensures |s| >= 2 && s[0] != ZIP_END
  {
    PrevField(n.prev, n.big) + Body(n.item)
  }

  function Raw(n: Node): (r: nat)
    requires ItemOk(n.item)
    ensures NodeOk(n) ==> r == |Enc(n)|
  {
    (if n.big then 5 else 1) + |Body(n.item)|
  }

  function LenSize(item: Item): nat
    requires ItemOk(item)
  {
    match item
    case Str(s) => |StrHeader(|s|)|
    case Int(_) => 1
  }

  function Encoding(item: Item): byte
    requires ItemOk(item)
  {
    match item
    case Str(s) => if |s| <= 63 then 0 else if |s| <= 16383 then 64 else 128
    case Int(v) => IntEncoding(v)
  }

  function Decoded(n: Node): ZlEntry
    requires ItemOk(n.item)
  {
    ZlEntry(if n.big then 5 else 1, n.prev, LenSize(n.item), |Body(n.item)| - LenSize(n.item), Encoding(n.item))
  }

  /** The length of an entry's payload reads back. */
  lemma LengthReads(data: seq<byte>, p: nat, item: Item)
    requires ItemOk(item) && At(data, p, Body(item))
    ensures p < |data|
    ensures DecodeLength(data, p) == Some((Encoding(item), LenSize(item), |Body(item)| - LenSize(item)))
  {
    hide LE;
    var body := Body(item);
    AtIndex(data, p, body, 0);
    match item
    case Str(s) =>
      var h := StrHeader(|s|);
      AtParts(data, p, h, s);
      if |s| > 63 {
        AtIndex(data, p, h, 1);
      }
      if |s| > 16383 {
        AtIndex(data, p, h, 2);
        AtIndex(data, p, h, 3);
        AtIndex(data, p, h, 4);
        BigEndianReads(|s|);
      }
    case Int(v) =>
  }

  lemma BigEndianReads(x: nat)
    requires x <= UINT32_MAX
    ensures ((x / 0x100_0000 * 256 + x / 0x1_0000 % 256) * 256 + x / 0x100 % 256) * 256 + x % 256 == x
  {
    var a := x / 0x100;
    var b := a / 0x100;
    assert x == a * 256 + x % 256 && a == b * 256 + a % 256 && b == b / 256 * 256 + b % 256;
    assert b == x / 0x1_0000 && b / 256 == x / 0x100_0000;
  }

  /** An entry reads back, and its bytes never begin with the end mark. */
  lemma EntryReads(data: seq<byte>, p: nat, n: Node)
    requires NodeOk(n) && At(data, p, Enc(n))
    ensures p < |data| && data[p] != ZIP_END
    ensures ZipEntry(data, p) == Some(Decoded(n))
    ensures Decoded(n).Raw() == Raw(n)
  {
    hide LE, FromLE, DecodeLength, Body;
    var field, body := PrevField(n.prev, n.big), Body(n.item);
    AtParts(data, p, field, body);
    AtIndex(data, p, field, 0);
    LengthReads(data, p + |field|, n.item);
    LenSizeSmall(n.item);
    if n.big {
      Powers();
      LERoundTrip(n.prev, 4);
      AtParts(data, p, [ZIP_BIGLEN as byte], LE(n.prev, 4));
    }
  }

  lemma LenSizeSmall(item: Item)
    requires ItemOk(item)
    ensures 1 <= LenSize(item) <= |Body(item)|
  {
  }
}
