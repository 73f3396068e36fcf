/** `hex::encode`: two lowercase hexadecimal digits per byte, high nibble first. */
module Hex {

  import opened Wrappers
  import opened Text

  predicate IsLowerHexDigit(c: byte) {
    (48 <= c <= 57) || (97 <= c <= 102)
  }

  function HexDigit(v: int): (c: byte)
    requires 0 <= v < 16
    ensures IsLowerHexDigit(c)
  {
    if v < 10 then 48 + v else 97 + (v - 10)
  }

  function HexValue(c: byte): (v: int)
    requires IsLowerHexDigit(c)
    ensures 0 <= v < 16
  {
    if c <= 57 then c - 48 else c - 97 + 10
  }

  function Encode(bs: seq<byte>): (r: seq<byte>)
    ensures |r| == 2 * |bs|
    ensures forall i :: 0 <= i < |r| ==> IsLowerHexDigit(r[i])
  {
    if bs == [] then [] else [HexDigit(bs[0] / 16), HexDigit(bs[0] % 16)] + Encode(bs[1..])
  }

  /** The inverse of `Encode`: pairs of lowercase hexadecimal digits back to bytes. */
  function Decode(s: seq<byte>): Option<seq<byte>>
  {
    if s == [] then Some([])
    else if |s| < 2 || !IsLowerHexDigit(s[0]) || !IsLowerHexDigit(s[1]) then None
    else match Decode(s[2..])
      case None => None
      case Some(rest) => Some([HexValue(s[0]) * 16 + HexValue(s[1])] + rest)
  }

  lemma {:induction false} DecodeEncode(bs: seq<byte>)
    ensures Decode(Encode(bs)) == Some(bs)
    decreases |bs|
  {
    if bs != [] {
      var e := Encode(bs);
      assert e[2..] == Encode(bs[1..]);
      DecodeEncode(bs[1..]);
      assert HexValue(HexDigit(bs[0] / 16)) * 16 + HexValue(HexDigit(bs[0] % 16)) == bs[0];
      assert bs == [bs[0]] + bs[1..];
    }
  }
}
