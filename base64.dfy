/** Standard base64 (section 4 of RFC 4648) as the `base64` crate's `BASE64_STANDARD`
    engine does it: the `A-Z a-z 0-9 + /` alphabet, `=` padding on encoding, and
    on decoding canonical padding required and non-zero trailing bits rejected.

    The codec is layered: bytes are packed into 6-bit values (pure bit arithmetic),
    each value is written as one alphabet symbol, and the text is padded with `=` to a
    multiple of four symbols. Decoding undoes the three layers in reverse order. */
module Base64 {

  import opened Wrappers
  import opened Text

  const PAD: byte := 61

  // The alphabet.

  predicate IsSymbol(c: byte) {
    (65 <= c <= 90) || (97 <= c <= 122) || (48 <= c <= 57) || c == 43 || c == 47
  }

  predicate IsSextet(v: int) {
    0 <= v < 64
  }

  /** The alphabet symbol of a 6-bit value. */
  function Symbol(v: int): (c: byte)
    requires IsSextet(v)
    ensures IsSymbol(c)
  {
    if v < 26 then 65 + v
    else if v < 52 then 97 + (v - 26)
    else if v < 62 then 48 + (v - 52)
    else if v == 62 then 43
    else 47
  }

  /** The 6-bit value of an alphabet symbol. */
  function SymbolValue(c: byte): (v: int)
    requires IsSymbol(c)
    ensures IsSextet(v)
  {
    if 65 <= c <= 90 then c - 65
    else if 97 <= c <= 122 then c - 97 + 26
    else if 48 <= c <= 57 then c - 48 + 52
    else if c == 43 then 62
    else 63
  }

  lemma {:induction false} SymbolInjective(v: int)
    requires IsSextet(v)
    ensures SymbolValue(Symbol(v)) == v
  {
  }

  lemma {:induction false} SymbolOfValue(c: byte)
    requires IsSymbol(c)
    ensures Symbol(SymbolValue(c)) == c
  {
  }

  predicate AllSymbols(s: seq<byte>) {
    forall i :: 0 <= i < |s| ==> IsSymbol(s[i])
  }

  predicate AllSextets(vs: seq<int>) {
    forall i :: 0 <= i < |vs| ==> IsSextet(vs[i])
  }

  function Symbols(vs: seq<int>): (r: seq<byte>)
    requires AllSextets(vs)
    ensures |r| == |vs| && AllSymbols(r)
  {
    seq(|vs|, i requires 0 <= i < |vs| => Symbol(vs[i]))
  }

  function Values(s: seq<byte>): (r: seq<int>)
    requires AllSymbols(s)
    ensures |r| == |s| && AllSextets(r)
  {
    seq(|s|, i requires 0 <= i < |s| => SymbolValue(s[i]))
  }

  lemma {:induction false} ValuesOfSymbols(vs: seq<int>)
    requires AllSextets(vs)
    ensures Values(Symbols(vs)) == vs
  {
    var s := Symbols(vs);
    forall i | 0 <= i < |vs|
      ensures Values(s)[i] == vs[i]
    {
      SymbolInjective(vs[i]);
    }
  }

  lemma {:induction false} SymbolsOfValues(s: seq<byte>)
    requires AllSymbols(s)
    ensures Symbols(Values(s)) == s
  {
    var vs := Values(s);
    forall i | 0 <= i < |s|
      ensures Symbols(vs)[i] == s[i]
    {
      SymbolOfValue(s[i]);
    }
  }

  // The bit arithmetic of one group: three bytes are 24 bits, read as four 6-bit values.

  function Split0(b0: byte): (v: int)
    ensures IsSextet(v)
  {
    b0 / 4
  }

  function Split1(b0: byte, b1: byte): (v: int)
    ensures IsSextet(v)
  {
    (b0 % 4) * 16 + b1 / 16
  }

  function Split2(b1: byte, b2: byte): (v: int)
    ensures IsSextet(v)
  {
    (b1 % 16) * 4 + b2 / 64
  }

  function Split3(b2: byte): (v: int)
    ensures IsSextet(v)
  {
    b2 % 64
  }

  function Join0(v0: int, v1: int): byte
    requires IsSextet(v0) && IsSextet(v1)
  {
    v0 * 4 + v1 / 16
  }

  function Join1(v1: int, v2: int): byte
    requires IsSextet(v1) && IsSextet(v2)
  {
    (v1 % 16) * 16 + v2 / 4
  }

  function Join2(v2: int, v3: int): byte
    requires IsSextet(v2) && IsSextet(v3)
  {
    (v2 % 4) * 64 + v3
  }

  /** Splitting three bytes into four 6-bit values and joining them again gives the
      bytes back ... */
  lemma {:induction false} SplitJoin(b0: byte, b1: byte, b2: byte)
    ensures Join0(Split0(b0), Split1(b0, b1)) == b0
    ensures Join1(Split1(b0, b1), Split2(b1, b2)) == b1
    ensures Join2(Split2(b1, b2), Split3(b2)) == b2
  {
  }

  /** ... and so it does for a final group of two bytes or of one, whose values leave
      their lowest bits zero. */
  lemma {:induction false} SplitJoinTwo(b0: byte, b1: byte)
    ensures Join0(Split0(b0), Split1(b0, b1)) == b0
    ensures Join1(Split1(b0, b1), Split2(b1, 0)) == b1
    ensures Split2(b1, 0) % 4 == 0
  {
  }

  lemma {:induction false} SplitJoinOne(b0: byte)
    ensures Join0(Split0(b0), Split1(b0, 0)) == b0
    ensures Split1(b0, 0) % 16 == 0
  {
  }

  /** Joining four 6-bit values and splitting them again gives the values back. */
  lemma {:induction false} JoinSplit(v0: int, v1: int, v2: int, v3: int)
    requires IsSextet(v0) && IsSextet(v1) && IsSextet(v2) && IsSextet(v3)
    ensures Split0(Join0(v0, v1)) == v0
    ensures Split1(Join0(v0, v1), Join1(v1, v2)) == v1
    ensures Split2(Join1(v1, v2), Join2(v2, v3)) == v2
    ensures Split3(Join2(v2, v3)) == v3
  {
  }

  /** Three or two values whose unused low bits are zero come back from the two bytes
      or the one byte they join to. */
  lemma {:induction false} JoinSplitThree(v0: int, v1: int, v2: int)
    requires IsSextet(v0) && IsSextet(v1) && IsSextet(v2) && v2 % 4 == 0
    ensures Split0(Join0(v0, v1)) == v0
    ensures Split1(Join0(v0, v1), Join1(v1, v2)) == v1
    ensures Split2(Join1(v1, v2), 0) == v2
  {
  }

  lemma {:induction false} JoinSplitTwo(v0: int, v1: int)
    requires IsSextet(v0) && IsSextet(v1) && v1 % 16 == 0
    ensures Split0(Join0(v0, v1)) == v0
    ensures Split1(Join0(v0, v1), 0) == v1
  {
  }

  // Bytes and 6-bit values.

  /** The 6-bit values of the bytes, four per group of three; a final group of one or
      two bytes gives two or three values whose missing bits are zero. */
  function Sextets(bs: seq<byte>): (r: seq<int>)
    ensures AllSextets(r)
    ensures |r| == (4 * |bs| + 2) / 3
  {
    if |bs| >= 3 then
      var g := [Split0(bs[0]), Split1(bs[0], bs[1]), Split2(bs[1], bs[2]), Split3(bs[2])];
      var rest := Sextets(bs[3..]);
      g + rest
    else if |bs| == 2 then [Split0(bs[0]), Split1(bs[0], bs[1]), Split2(bs[1], 0)]
    else if |bs| == 1 then [Split0(bs[0]), Split1(bs[0], 0)]
    else []
  }

  /** The bytes a sequence of 6-bit values packs, or `None` when they cannot be the
      values of whole bytes: a single leftover value, or non-zero unused bits. */
  function Bytes(vs: seq<int>): Option<seq<byte>>
    requires AllSextets(vs)
  {
    if |vs| >= 4 then
      match Bytes(vs[4..])
      case None => None
      case Some(rest) => Some([Join0(vs[0], vs[1]), Join1(vs[1], vs[2]), Join2(vs[2], vs[3])] + rest)
    else if |vs| == 3 then
      if vs[2] % 4 != 0 then None else Some([Join0(vs[0], vs[1]), Join1(vs[1], vs[2])])
    else if |vs| == 2 then
      if vs[1] % 16 != 0 then None else Some([Join0(vs[0], vs[1])])
    else if |vs| == 1 then None
    else Some([])
  }

  lemma {:induction false} BytesOfSextets(bs: seq<byte>)
    ensures Bytes(Sextets(bs)) == Some(bs)
    decreases |bs|
  {
    if |bs| >= 3 {
      BytesOfSextets(bs[3..]);
      BytesOfSextetsGroup(bs);
    } else if |bs| == 2 {
      assert bs == [bs[0], bs[1]];
      BytesOfSextetsTwo(bs[0], bs[1]);
    } else if |bs| == 1 {
      assert bs == [bs[0]];
      BytesOfSextetsOne(bs[0]);
    }
  }

  lemma {:induction false} BytesOfSextetsTwo(b0: byte, b1: byte)
    ensures Bytes(Sextets([b0, b1])) == Some([b0, b1])
  {
    SplitJoinTwo(b0, b1);
  }

  lemma {:induction false} BytesOfSextetsOne(b0: byte)
    ensures Bytes(Sextets([b0])) == Some([b0])
  {
    SplitJoinOne(b0);
  }

  lemma {:induction false} BytesOfSextetsGroup(bs: seq<byte>)
    requires |bs| >= 3 && Bytes(Sextets(bs[3..])) == Some(bs[3..])
    ensures Bytes(Sextets(bs)) == Some(bs)
  {
    var vs := Sextets(bs);
    var b0, b1, b2 := bs[0], bs[1], bs[2];
    assert vs[4..] == Sextets(bs[3..]);
    assert vs[0] == Split0(b0) && vs[1] == Split1(b0, b1) && vs[2] == Split2(b1, b2) && vs[3] == Split3(b2);
    assert [Join0(vs[0], vs[1]), Join1(vs[1], vs[2]), Join2(vs[2], vs[3])] == [b0, b1, b2] by {
      SplitJoin(b0, b1, b2);
    }
    assert bs == [b0, b1, b2] + bs[3..];
  }

  lemma {:induction false} SextetsOfBytes(vs: seq<int>)
    requires AllSextets(vs) && Bytes(vs).Some?
    ensures Sextets(Bytes(vs).value) == vs
    decreases |vs|
  {
    var bs := Bytes(vs).value;
    if |vs| >= 4 {
      SextetsOfBytes(vs[4..]);
      JoinSplit(vs[0], vs[1], vs[2], vs[3]);
      var rest := Bytes(vs[4..]).value;
      assert bs[3..] == rest;
      assert vs == vs[..4] + vs[4..];
    } else if |vs| == 3 {
      JoinSplitThree(vs[0], vs[1], vs[2]);
      assert vs == [vs[0], vs[1], vs[2]];
    } else if |vs| == 2 {
      JoinSplitTwo(vs[0], vs[1]);
      assert vs == [vs[0], vs[1]];
    }
  }

  // Padding.

  function Pads(n: nat): (r: seq<byte>)
    ensures |r| == n
  {
    seq(n, _ => PAD)
  }

  /** How many `=` the encoding of `n` bytes ends with. */
  function PadCount(n: nat): (p: nat)
    ensures p <= 2
  {
    (3 - n % 3) % 3
  }

  /** How many `=` (at most two) a text ends with. */
  function TrailingPads(s: seq<byte>): (p: nat)
    ensures p <= 2 && p <= |s|
    ensures forall i :: |s| - p <= i < |s| ==> s[i] == PAD
    ensures p < 2 && p < |s| ==> s[|s| - 1 - p] != PAD
  {
    if |s| >= 1 && s[|s| - 1] == PAD then (if |s| >= 2 && s[|s| - 2] == PAD then 2 else 1) else 0
  }

  /** The lengths of text, values and bytes agree exactly when the padding is the one
      encoding would add. */
  lemma {:induction false} PadCountOfLength(n: nat, len: nat, p: nat)
    requires len % 4 == 0 && p <= 2 && p <= len && (4 * n + 2) / 3 == len - p
    ensures PadCount(n) == p
  {
    var k := n / 3;
    assert n == 3 * k + n % 3;
  }

  lemma {:induction false} EncodedLength(n: nat)
    ensures (4 * n + 2) / 3 + PadCount(n) == 4 * ((n + 2) / 3)
    ensures n > 0 && PadCount(n) < 2 ==> (4 * n + 2) / 3 > PadCount(n)
  {
    var k := n / 3;
    assert n == 3 * k + n % 3;
  }

  // The codec.

  function Encode(bs: seq<byte>): (r: seq<byte>)
    ensures |r| == 4 * ((|bs| + 2) / 3)
  {
    EncodedLength(|bs|);
    Symbols(Sextets(bs)) + Pads(PadCount(|bs|))
  }

  function Decode(s: seq<byte>): (r: Option<seq<byte>>)
    ensures r.Some? ==> |s| % 4 == 0
  {
    if |s| % 4 != 0 then None
    else
      var body := s[..|s| - TrailingPads(s)];
      if !AllSymbols(body) then None else Bytes(Values(body))
  }

  /** Decoding inverts encoding. */
  lemma {:induction false} DecodeEncode(bs: seq<byte>)
    ensures Decode(Encode(bs)) == Some(bs)
  {
    EncodedLength(|bs|);
    DecodePadded(Sextets(bs), PadCount(|bs|));
    BytesOfSextets(bs);
  }

  /** Symbols followed by the padding that makes a whole number of quads decode to the
      bytes the values pack. */
  lemma {:induction false} DecodePadded(vs: seq<int>, k: nat)
    requires AllSextets(vs) && k <= 2 && (|vs| + k) % 4 == 0
    requires 0 < k < 2 ==> |vs| > k
    ensures Decode(Symbols(vs) + Pads(k)) == Bytes(vs)
  {
    var e := Symbols(vs) + Pads(k);
    assert TrailingPads(e) == k by {
      if k < 2 && |vs| > 0 {
        assert e[|e| - 1 - k] == Symbols(vs)[|vs| - 1];
      }
    }
    assert e[..|e| - k] == Symbols(vs);
    ValuesOfSymbols(vs);
  }

  /** Decoding accepts only the canonical encoding: whatever it accepts is exactly
      what encoding its result gives back. */
  lemma {:induction false} EncodeDecode(s: seq<byte>)
    requires Decode(s).Some?
    ensures Encode(Decode(s).value) == s
  {
    var p := TrailingPads(s);
    var body := s[..|s| - p];
    var bs := Decode(s).value;
    assert AllSymbols(body) && Bytes(Values(body)) == Some(bs);
    assert Sextets(bs) == Values(body) && |Values(body)| == |s| - p by {
      SextetsOfBytes(Values(body));
    }
    assert PadCount(|bs|) == p by {
      PadCountOfLength(|bs|, |s|, p);
    }
    assert Encode(bs) == body + Pads(p) by {
      SymbolsOfValues(body);
    }
    PaddedBody(s);
  }

  /** A text is its body followed by its trailing padding. */
  lemma {:induction false} PaddedBody(s: seq<byte>)
    ensures s == s[..|s| - TrailingPads(s)] + Pads(TrailingPads(s))
  {
    var p := TrailingPads(s);
    assert s[|s| - p..] == Pads(p);
    assert s == s[..|s| - p] + s[|s| - p..];
  }
}
