/** The `uncaesar!` macro: the source keeps its three protocol constants shifted three
    letters forward and shifts them back, at compile time, before use. */
module Caesar {

  import opened Text

  const SHIFT: nat := 3

  predicate IsLower(c: byte) { 97 <= c <= 122 }

  predicate IsUpper(c: byte) { 65 <= c <= 90 }

  /** One byte shifted back by SHIFT within its own case; non-letters unchanged. */
  function Unshift(c: byte): (r: byte)
  {
    if IsLower(c) || IsUpper(c) then
      var base := if IsLower(c) then 97 else 65;
      base + (c - base + 26 - SHIFT) % 26
    else c
  }

  /** The obfuscating direction: one byte shifted forward by SHIFT. */
  function Shift(c: byte): (r: byte)
  {
    if IsLower(c) || IsUpper(c) then
      var base := if IsLower(c) then 97 else 65;
      base + (c - base + SHIFT) % 26
    else c
  }

  /** Unshift keeps the case of a letter, moves it back by SHIFT positions round the
      alphabet and leaves every other byte alone. */
  lemma {:induction false} UnshiftProperties(c: byte)
    ensures IsLower(c) <==> IsLower(Unshift(c))
    ensures IsUpper(c) <==> IsUpper(Unshift(c))
    ensures IsLower(c) ==> Unshift(c) - 97 == (c - 97 + 23) % 26
    ensures IsUpper(c) ==> Unshift(c) - 65 == (c - 65 + 23) % 26
    ensures !IsLower(c) && !IsUpper(c) ==> Unshift(c) == c
  {
  }

  /** Within one alphabet, moving back and then forward by SHIFT is a round trip. */
  lemma {:induction false} OffsetRoundTrip(o: int)
    requires 0 <= o < 26
    ensures ((o + 26 - SHIFT) % 26 + SHIFT) % 26 == o
    ensures ((o + SHIFT) % 26 + 26 - SHIFT) % 26 == o
  {
    if o < 3 {
      assert (o + 26 - SHIFT) % 26 == o + 23;
    } else {
      assert (o + 26 - SHIFT) % 26 == o - 3;
    }
    if o < 23 {
      assert (o + SHIFT) % 26 == o + 3;
    } else {
      assert (o + SHIFT) % 26 == o - 23;
    }
  }

  /** Shift and Unshift are inverse permutations of the bytes. */
  lemma {:induction false} ShiftUnshift(c: byte)
    ensures Shift(Unshift(c)) == c && Unshift(Shift(c)) == c
  {
    if IsLower(c) {
      OffsetRoundTrip(c - 97);
    } else if IsUpper(c) {
      OffsetRoundTrip(c - 65);
    }
  }

  /** The text the macro produces: each byte of the input through Unshift. */
  function Decoded(s: seq<byte>): (r: seq<byte>)
    ensures |r| == |s|
  {
    seq(|s|, i requires 0 <= i < |s| => Unshift(s[i]))
  }

  /** The macro's inner `uncaesar`: a `while` loop filling a fixed-size output array
      one byte at a time. */
  method Uncaesar(input: seq<byte>) returns (output: seq<byte>)
    ensures |output| == |input|
    ensures forall i :: 0 <= i < |input| ==> output[i] == Unshift(input[i])
  {
    var out := new byte[|input|];
    var i := 0;
    while i < |input|
      invariant 0 <= i <= |input|
      invariant forall j :: 0 <= j < i ==> out[j] == Unshift(input[j])
    {
      var c := input[i];
      out[i] := if IsLower(c) || IsUpper(c) then
        var base := if IsLower(c) then 97 else 65;
        base + (c - base + 26 - SHIFT) % 26
      else c;
      i := i + 1;
    }
    output := out[..];
  }

  lemma {:induction false} UncaesarIsDecoded(input: seq<byte>, output: seq<byte>)
    requires |output| == |input|
    requires forall i :: 0 <= i < |input| ==> output[i] == Unshift(input[i])
    ensures output == Decoded(input)
  {
  }
}
