/**
 * The byte image of a trivially copyable value, as `put<T>` and `get<T>`
 * see it through `reinterpret_cast`: an unsigned integer of `width` bytes.
 * `reinterpret_cast` takes whatever layout the platform has; this model
 * fixes one, least significant byte first.
 */
module Encoding {
  import opened Streams

  /** 256 to the power `width`: the number of values a `width`-byte image holds. */
  function Pow256(width: nat): (r: nat)
    ensures 0 < r
  {
    if width == 0 then 1 else 256 * Pow256(width - 1)
  }

  /** The `width`-byte image of `value`; bytes above the width are dropped. */
  function LittleEndian(value: nat, width: nat): (r: seq<byte>)
    ensures |r| == width
  {
    if width == 0 then [] else [(value % 256) as byte] + LittleEndian(value / 256, width - 1)
  }

  /** The value a byte image stands for. */
  function FromLittleEndian(bytes: seq<byte>): (r: nat)
    ensures r < Pow256(|bytes|)
  {
    if bytes == [] then 0 else bytes[0] as nat + 256 * FromLittleEndian(bytes[1..])
  }

  lemma DigitSplit(digit: nat, rest: nat)
    requires digit < 256
    ensures (digit + 256 * rest) % 256 == digit && (digit + 256 * rest) / 256 == rest
  {
  }

  lemma QuotientBound(value: nat, bound: nat)
    requires value < 256 * bound
    ensures value / 256 < bound
  {
  }

  /** Every value that fits the width is read back from its image. */
  lemma {:induction false} DecodeEncode(value: nat, width: nat)
    requires value < Pow256(width)
    ensures FromLittleEndian(LittleEndian(value, width)) == value
  {
    if width > 0 {
      var q, r := value / 256, value % 256;
      var bytes := LittleEndian(value, width);
      assert bytes[0] as nat == r && bytes[1..] == LittleEndian(q, width - 1);
      assert value == 256 * q + r;
      QuotientBound(value, Pow256(width - 1));
      DecodeEncode(q, width - 1);
    }
  }

  /** Every byte image is the image of the value it stands for. */
  lemma {:induction false} EncodeDecode(bytes: seq<byte>)
    ensures LittleEndian(FromLittleEndian(bytes), |bytes|) == bytes
  {
    if bytes != [] {
      var rest := FromLittleEndian(bytes[1..]);
      var value := bytes[0] as nat + 256 * rest;
      DigitSplit(bytes[0] as nat, rest);
      EncodeDecode(bytes[1..]);
      assert LittleEndian(value, |bytes|) == [bytes[0]] + bytes[1..];
    }
  }

  /** Values that fit the width have distinct images. */
  lemma LittleEndianInjective(a: nat, b: nat, width: nat)
    requires a < Pow256(width) && b < Pow256(width)
    requires LittleEndian(a, width) == LittleEndian(b, width)
    ensures a == b
  {
    DecodeEncode(a, width);
    DecodeEncode(b, width);
  }
}
