/** Text as the Rust code sees it: a `&str` is a sequence of UTF-8 bytes, sliced by
    byte offset, and integers are rendered and parsed in decimal. */
module Text {

  import opened Wrappers

  type byte = b: int | 0 <= b < 256

  const COLON: byte := 58
  const SPACE: byte := 32
  const MINUS: byte := 45
  const PLUS: byte := 43

  predicate IsAscii(s: string) {
    forall i :: 0 <= i < |s| ==> s[i] as int < 128
  }

  /** The bytes of an ASCII string literal. */
  function Ascii(s: string): (r: seq<byte>)
    requires IsAscii(s)
    ensures |r| == |s|
    ensures forall i :: 0 <= i < |s| ==> r[i] == s[i] as int
  {
    seq(|s|, i requires 0 <= i < |s| => s[i] as int)
  }

  lemma {:induction false} AsciiAppend(a: string, b: string)
    requires IsAscii(a) && IsAscii(b)
    ensures IsAscii(a + b) && Ascii(a + b) == Ascii(a) + Ascii(b)
  {
    assert forall i :: 0 <= i < |a + b| ==> (a + b)[i] == if i < |a| then a[i] else b[i - |a|];
  }

  predicate IsDigit(b: byte) {
    48 <= b <= 57
  }

  predicate AllDigits(s: seq<byte>) {
    forall i :: 0 <= i < |s| ==> IsDigit(s[i])
  }

  /** `str::is_char_boundary`: `&s[i..j]` panics unless both ends are boundaries;
      a boundary is the start, the end, or a byte that is not a continuation byte. */
  predicate IsCharBoundary(s: seq<byte>, i: nat) {
    i == 0 || i == |s| || (i < |s| && !(128 <= s[i] < 192))
  }

  /** The Rust slice `&s[i..j]` does not panic. */
  predicate CanSlice(s: seq<byte>, i: nat, j: nat) {
    i <= j <= |s| && IsCharBoundary(s, i) && IsCharBoundary(s, j)
  }

  /** Decimal digits of a natural number, most significant first, no leading zeros. */
  function Digits(n: nat): (r: seq<byte>)
    ensures |r| >= 1
    ensures forall i :: 0 <= i < |r| ==> IsDigit(r[i])
    decreases n
  {
    if n < 10 then [48 + n] else Digits(n / 10) + [48 + n % 10]
  }

  /** The value of a string of decimal digits. */
  function DigitValue(s: seq<byte>): nat
    requires AllDigits(s)
  {
    if s == [] then 0
    else
      assert IsDigit(s[|s| - 1]);
      DigitValue(s[..|s| - 1]) * 10 + (s[|s| - 1] as int - 48)
  }

  lemma {:induction false} DigitsValue(n: nat)
    ensures DigitValue(Digits(n)) == n
    decreases n
  {
    if n >= 10 {
      var d := Digits(n / 10) + [48 + n % 10];
      assert d[..|d| - 1] == Digits(n / 10);
      DigitsValue(n / 10);
    }
  }

  function Pow10(n: nat): (r: nat)
    ensures r >= 1
  {
    if n == 0 then 1 else 10 * Pow10(n - 1)
  }

  lemma {:induction false} Pow10Monotone(m: nat, n: nat)
    ensures m <= n ==> Pow10(m) <= Pow10(n)
    decreases n
  {
    if m < n {
      Pow10Monotone(m, n - 1);
    }
  }

  /** k digits denote a number below 10^k. */
  lemma {:induction false} DigitValueBound(s: seq<byte>)
    requires AllDigits(s)
    ensures DigitValue(s) < Pow10(|s|)
  {
    if s != [] {
      DigitValueBound(s[..|s| - 1]);
    }
  }

  /** `i64::to_string` / `format!("{}", n)` for an integer. */
  function DecimalText(n: int): (r: seq<byte>)
    ensures |r| >= 1
    ensures n >= 0 ==> forall i :: 0 <= i < |r| ==> IsDigit(r[i])
    ensures n < 0 ==> r[0] == MINUS
    ensures forall i :: 1 <= i < |r| ==> IsDigit(r[i])
  {
    if n < 0 then [MINUS] + Digits(-n) else Digits(n)
  }

  const I32_MIN: int := -0x8000_0000
  const I32_MAX: int := 0x7FFF_FFFF

  /** What follows an optional leading sign. */
  function Magnitude(s: seq<byte>): (r: seq<byte>)
    requires s != []
    ensures |s| - 1 <= |r| <= |s| && r == s[|s| - |r|..]
  {
    if s[0] == MINUS || s[0] == PLUS then s[1..] else s
  }

  /** `str::parse::<i32>`: an optional sign followed by at least one decimal digit
      and nothing else, with a value in range. */
  function ParseI32(s: seq<byte>): (r: Option<int>)
    ensures r.Some? ==> I32_MIN <= r.value <= I32_MAX
  {
    if s == [] then None
    else
      var negative := s[0] == MINUS;
      var digits := Magnitude(s);
      if digits == [] || !AllDigits(digits) then None
      else
        var v: int := if negative then -(DigitValue(digits) as int) else DigitValue(digits);
        if I32_MIN <= v <= I32_MAX then Some(v) else None
  }

  /** A value parsed from k bytes has fewer than k digits' worth of magnitude. */
  lemma {:induction false} ParseBound(s: seq<byte>)
    ensures ParseI32(s).Some? ==> -(Pow10(|s|) as int) < ParseI32(s).value < Pow10(|s|)
  {
    if ParseI32(s).Some? {
      var digits := Magnitude(s);
      DigitValueBound(digits);
      Pow10Monotone(|digits|, |s|);
    }
  }

  /** A short run of decimal digits always parses, to its value. */
  lemma {:induction false} ParseDigits(s: seq<byte>)
    requires 1 <= |s| <= 9 && AllDigits(s)
    ensures ParseI32(s) == Some(DigitValue(s))
  {
    DigitValueBound(s);
    Pow10Monotone(|s|, 9);
    assert Pow10(9) == 1000000000;
  }

  lemma {:induction false} ParseDecimal(n: int)
    requires I32_MIN <= n <= I32_MAX
    ensures ParseI32(DecimalText(n)) == Some(n)
  {
    DigitsValue(if n < 0 then -n else n);
    if n < 0 {
      assert DecimalText(n)[1..] == Digits(-n);
    }
  }

  /** The regular-expression rewrite `Regex::new(": ").replace_all(s, " : ")`: the
      leftmost occurrence first, then the rest of the text after it. */
  function SpaceColons(s: seq<byte>): (r: seq<byte>)
  {
    if |s| >= 2 && s[0] == COLON && s[1] == SPACE then [SPACE, COLON, SPACE] + SpaceColons(s[2..])
    else if s == [] then []
    else [s[0]] + SpaceColons(s[1..])
  }

  /** Reference definition, byte by byte: every colon that is immediately followed by
      a space gains a space in front of it; every other byte is copied. */
  function Expand(s: seq<byte>): seq<byte>
  {
    if s == [] then []
    else (if |s| >= 2 && s[0] == COLON && s[1] == SPACE then [SPACE, COLON] else [s[0]]) + Expand(s[1..])
  }

  /** The number of occurrences of ": " in s. */
  function ColonSpaces(s: seq<byte>): nat
  {
    if |s| < 2 then 0 else (if s[0] == COLON && s[1] == SPACE then 1 else 0) + ColonSpaces(s[1..])
  }

  lemma {:induction false} SpaceColonsIsExpand(s: seq<byte>)
    ensures SpaceColons(s) == Expand(s)
    ensures |SpaceColons(s)| == |s| + ColonSpaces(s)
    decreases |s|
  {
    if |s| >= 2 && s[0] == COLON && s[1] == SPACE {
      SpaceColonsIsExpand(s[2..]);
      assert s[1..][1..] == s[2..];
      assert Expand(s[1..]) == [SPACE] + Expand(s[2..]);
      assert ColonSpaces(s[1..]) == ColonSpaces(s[2..]);
    } else if s != [] {
      SpaceColonsIsExpand(s[1..]);
    }
  }

  /** Text without ": " is left as it is. */
  lemma {:induction false} SpaceColonsIdentity(s: seq<byte>)
    requires ColonSpaces(s) == 0
    ensures SpaceColons(s) == s
    decreases |s|
  {
    if s != [] {
      assert |s| >= 2 ==> ColonSpaces(s[1..]) == 0;
      SpaceColonsIdentity(s[1..]);
    }
  }
}
