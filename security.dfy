/** The request-signing primitives: the salted SHA-1 digest, the AES-128-ECB envelope
    keyed by a session key or by a key derived from a timestamp, and the in-place
    signing of a run record. */
module Security {

  import opened Wrappers
  import opened Text
  import opened Numeric
  import Hex
  import Base64
  import Caesar
  import Cipher
  import opened Walk

  const SALT: seq<byte> := Caesar.Decoded(Ascii("lwdxYiqhaKlUljC6"))
  const RN_FIXED: seq<byte> := Caesar.Decoded(Ascii("3h0783g6891d4d3h9521gfe6ee341560"))
  const DYNAMIC_FIXED: seq<byte> := Caesar.Decoded(Ascii("402881hd7f39f5g5017f39g143d8062e"))

  /** The three constants as the program uses them. */
  lemma {:induction false} SaltDecoded()
    ensures SALT == Ascii("itauVfnexHiRigZ6")
  {
    var e, s := Ascii("itauVfnexHiRigZ6"), Ascii("lwdxYiqhaKlUljC6");
    forall i | 0 <= i < 16
      ensures SALT[i] == e[i]
    {
      assert SALT[i] == Caesar.Unshift(s[i]);
    }
  }

  /** The part of the session-key suffix that reaches AES. */
  lemma {:induction false} RnFixedPrefix()
    ensures |RN_FIXED| == 32 && RN_FIXED[..7] == Ascii("3e0783d")
  {
    var e, s := Ascii("3e0783d"), Ascii("3h0783g6891d4d3h9521gfe6ee341560");
    forall i | 0 <= i < 7
      ensures RN_FIXED[i] == e[i]
    {
      assert RN_FIXED[i] == Caesar.Unshift(s[i]);
    }
  }

  /** The part of the timestamp-key suffix that reaches AES after a one-digit number. */
  lemma {:induction false} DynamicFixedPrefix()
    ensures |DYNAMIC_FIXED| == 32 && DYNAMIC_FIXED[..15] == Ascii("402881ea7c39c5d")
  {
    var e, s := Ascii("402881ea7c39c5d"), Ascii("402881hd7f39f5g5017f39g143d8062e");
    forall i | 0 <= i < 15
      ensures DYNAMIC_FIXED[i] == e[i]
    {
      assert DYNAMIC_FIXED[i] == Caesar.Unshift(s[i]);
    }
  }

  // The salted digest.

  type Digest = d: seq<byte> | |d| == 20 witness seq(20, _ => 0)

  /** `hs`: lowercase hex of the SHA-1 digest of the text followed by the salt. */
  function Hs(sha1: seq<byte> -> Digest, text: seq<byte>): (r: seq<byte>)
    ensures |r| == 40
    ensures forall i :: 0 <= i < |r| ==> Hex.IsLowerHexDigit(r[i])
    ensures Hex.Decode(r) == Some(sha1(text + SALT))
  {
    var digest := sha1(text + SALT);
    Hex.DecodeEncode(digest);
    Hex.Encode(digest)
  }

  // The session key.

  /** `get_rn_key` slices both session strings; either slice panics unless in range and
      on character boundaries. */
  predicate RnKeyDefined(a1: seq<byte>, a2: seq<byte>) {
    CanSlice(a1, 3, 6) && CanSlice(a2, 4, 7) && CanSlice(a1, 9, 12)
  }

  /** `get_rn_key`: three 3-byte pieces of the session strings, then the fixed suffix. */
  function RnKey(a1: seq<byte>, a2: seq<byte>): (r: seq<byte>)
    requires RnKeyDefined(a1, a2)
    ensures |r| == 41
  {
    a1[3..6] + a2[4..7] + a1[9..12] + RN_FIXED
  }

  /** Only the first 16 bytes reach AES: the nine session bytes and the first seven of
      the fixed suffix. */
  lemma {:induction false} RnSecretKey(a1: seq<byte>, a2: seq<byte>)
    requires RnKeyDefined(a1, a2)
    ensures Cipher.SecretKey(RnKey(a1, a2)) == a1[3..6] + a2[4..7] + a1[9..12] + Ascii("3e0783d")
  {
    RnFixedPrefix();
    var k := RnKey(a1, a2);
    var e := a1[3..6] + a2[4..7] + a1[9..12] + Ascii("3e0783d");
    forall i | 0 <= i < 16
      ensures Cipher.SecretKey(k)[i] == e[i]
    {
    }
  }

  /** Two session pairs give the same key exactly when the sliced pieces agree. */
  lemma {:induction false} RnKeyInjective(a1: seq<byte>, a2: seq<byte>, b1: seq<byte>, b2: seq<byte>)
    requires RnKeyDefined(a1, a2) && RnKeyDefined(b1, b2)
    ensures RnKey(a1, a2) == RnKey(b1, b2) <==>
      a1[3..6] == b1[3..6] && a2[4..7] == b2[4..7] && a1[9..12] == b1[9..12]
  {
    if RnKey(a1, a2) == RnKey(b1, b2) {
      assert RnKey(a1, a2)[..3] == a1[3..6] && RnKey(b1, b2)[..3] == b1[3..6];
      assert RnKey(a1, a2)[3..6] == a2[4..7] && RnKey(b1, b2)[3..6] == b2[4..7];
      assert RnKey(a1, a2)[6..9] == a1[9..12] && RnKey(b1, b2)[6..9] == b1[9..12];
    }
  }

  // The timestamp key.

  datatype KeyError = ParseIntError | InvalidDigit

  /** `get_dynamic_key` slices `[2..5]` and `[4..8]`, which panic unless in range and on
      character boundaries. */
  predicate DynamicKeyDefined(s: seq<byte>) {
    CanSlice(s, 2, 5) && CanSlice(s, 4, 8)
  }

  /** `i32 << d` for a shift below 32: the low 32 bits of the product, read back as a
      signed number. */
  function ShlI32(v: int, d: nat): (r: int)
    requires I32_MIN <= v <= I32_MAX && d < 32
    ensures I32_MIN <= r <= I32_MAX
    ensures 0 <= v * Pow2(d) <= I32_MAX ==> r == v * Pow2(d)
  {
    var u := (v * Pow2(d)) % 0x1_0000_0000;
    if u > I32_MAX then u - 0x1_0000_0000 else u
  }

  function Abs(v: int): nat {
    if v < 0 then -v else v
  }

  /** `get_dynamic_key`: the absolute difference of the numbers at `[2..5]` and `[4..8]`,
      shifted left by the last digit, in decimal, then the fixed suffix. The slices are
      parsed first and the last digit checked after. */
  function DynamicKey(s: seq<byte>): (r: Result<seq<byte>, KeyError>)
    requires DynamicKeyDefined(s)
    ensures r.Ok? <==> ParseI32(s[2..5]).Some? && ParseI32(s[4..8]).Some? && IsDigit(s[|s| - 1])
    ensures ParseI32(s[2..5]).None? || ParseI32(s[4..8]).None? ==> r == Err(ParseIntError)
  {
    var last := s[|s| - 1];
    var v1, n := ParseI32(s[2..5]), ParseI32(s[4..8]);
    if v1.None? || n.None? then Err(ParseIntError)
    else if !IsDigit(last) then Err(InvalidDigit)
    else
      OperandBounds(s);
      Ok(DecimalText(ShiftedDifference(v1.value, n.value, last - 48)) + DYNAMIC_FIXED)
  }

  /** The key `get_dynamic_key` builds: the decimal text of `|v1 - n| << d` followed by the
      fixed suffix, where `v1` is read from bytes 2..5, `n` from bytes 4..8 and `d` is the
      last byte's digit. */
  lemma {:induction false} DynamicKeyValue(s: seq<byte>)
    requires DynamicKeyDefined(s) && DynamicKey(s).Ok?
    ensures IsDigit(s[|s| - 1]) && ParseI32(s[2..5]).Some? && ParseI32(s[4..8]).Some?
    ensures DynamicKey(s).value ==
      DecimalText(Abs(ParseI32(s[2..5]).value - ParseI32(s[4..8]).value) * Pow2(s[|s| - 1] - 48)) + DYNAMIC_FIXED
  {
  }

  /** The operands of `get_dynamic_key` have three and four bytes. */
  lemma {:induction false} OperandBounds(s: seq<byte>)
    requires DynamicKeyDefined(s)
    ensures ParseI32(s[2..5]).Some? ==> -1000 < ParseI32(s[2..5]).value < 1000
    ensures ParseI32(s[4..8]).Some? ==> -10000 < ParseI32(s[4..8]).value < 10000
  {
    ParseBound(s[2..5]);
    ParseBound(s[4..8]);
    assert Pow10(3) == 1000 && Pow10(4) == 10000;
  }

  /** `(v1 - n).abs() << d` on i32 for the operands `get_dynamic_key` can meet: a 3-byte
      and a 4-byte number and a single digit. Neither the subtraction nor the shift
      wraps. */
  function ShiftedDifference(v1: int, n: int, d: nat): (r: int)
    requires -1000 < v1 < 1000 && -10000 < n < 10000 && d <= 9
    ensures r == Abs(v1 - n) * Pow2(d)
  {
    var v4 := Abs(v1 - n);
    ShiftBound(v4, d);
    ShlI32(v4, d)
  }

  lemma {:induction false} ShiftBound(v: nat, d: nat)
    requires v < 11000 && d <= 9
    ensures v * Pow2(d) <= 11000 * 512
  {
    Pow2Monotone(d, 9);
    assert Pow2(9) == 512;
    MulMonotone(v, Pow2(d), 11000, 512);
  }

  lemma {:induction false} MulMonotone(a: nat, b: nat, x: nat, y: nat)
    requires a <= x && b <= y
    ensures a * b <= x * y
  {
    assert a * b <= x * b;
    assert x * b <= x * y;
  }

  lemma {:induction false} Pow2Monotone(m: nat, n: nat)
    ensures m <= n ==> Pow2(m) <= Pow2(n)
    decreases n
  {
    if m < n {
      Pow2Monotone(m, n - 1);
    }
  }

  /** The decimal text of a timestamp with at least eight characters always yields a
      key: the sliced bytes and the last byte are digits. */
  lemma {:induction false} DecimalKeyDefined(t: int)
    requires |DecimalText(t)| >= 8
    ensures DynamicKeyDefined(DecimalText(t))
  {
  }

  lemma {:induction false} DecimalKeyOk(t: int)
    requires |DecimalText(t)| >= 8
    ensures DynamicKeyDefined(DecimalText(t)) && DynamicKey(DecimalText(t)).Ok?
  {
    DigitKeyOk(DecimalText(t));
  }

  /** Digits after the first byte make every step of `get_dynamic_key` succeed. */
  lemma {:induction false} DigitKeyOk(s: seq<byte>)
    requires |s| >= 8 && forall i :: 1 <= i < |s| ==> IsDigit(s[i])
    ensures DynamicKeyDefined(s) && DynamicKey(s).Ok?
  {
    assert ParseI32(s[2..5]).Some? by {
      assert AllDigits(s[2..5]);
      ParseDigits(s[2..5]);
    }
    assert ParseI32(s[4..8]).Some? by {
      assert AllDigits(s[4..8]);
      ParseDigits(s[4..8]);
    }
    assert IsDigit(s[|s| - 1]);
  }

  lemma {:induction false} ZerosValue(s: seq<byte>)
    requires forall i :: 0 <= i < |s| ==> s[i] == 48
    ensures AllDigits(s) && DigitValue(s) == 0
  {
    if s != [] {
      ZerosValue(s[..|s| - 1]);
    }
  }

  /** The key for the millisecond timestamp whose text is "1000000000000". */
  lemma {:induction false} DynamicKeyExample()
    ensures DynamicKeyDefined(Ascii("1000000000000"))
    ensures DynamicKey(Ascii("1000000000000")) == Ok(Ascii("0") + DYNAMIC_FIXED)
  {
    var s := Ascii("1000000000000");
    assert s[1] == 48 && s[|s| - 1] == 48;
    ZeroKey(s);
    assert Ascii("0") == [48];
  }

  /** Zeros at the sliced positions and at the end give the key "0" + suffix. */
  lemma {:induction false} ZeroKey(s: seq<byte>)
    requires |s| >= 8 && (forall i :: 1 <= i < |s| ==> IsDigit(s[i]))
    requires (forall i :: 2 <= i < 8 ==> s[i] == 48) && s[|s| - 1] == 48
    ensures DynamicKeyDefined(s)
    ensures DynamicKey(s) == Ok([48] + DYNAMIC_FIXED)
  {
    assert ParseI32(s[2..5]) == Some(0) by {
      ParseDigits(s[2..5]);
      ZerosValue(s[2..5]);
    }
    assert ParseI32(s[4..8]) == Some(0) by {
      ParseDigits(s[4..8]);
      ZerosValue(s[4..8]);
    }
    assert IsDigit(s[|s| - 1]);
    assert DynamicKey(s).value == DecimalText(Abs(0 - 0) * Pow2(0)) + DYNAMIC_FIXED by {
      DynamicKeyValue(s);
    }
    assert DecimalText(Abs(0 - 0) * Pow2(0)) == [48];
  }

  /** The AES key that timestamp yields. */
  lemma {:induction false} DynamicSecretKeyExample()
    ensures Cipher.SecretKey(Ascii("0") + DYNAMIC_FIXED) == Ascii("0402881ea7c39c5d")
  {
    var k := Ascii("0") + DYNAMIC_FIXED;
    assert k[..16] == Ascii("0") + DYNAMIC_FIXED[..15];
    assert DYNAMIC_FIXED[..15] == Ascii("402881ea7c39c5d") by {
      DynamicFixedPrefix();
    }
    AsciiAppend("0", "402881ea7c39c5d");
    assert "0" + "402881ea7c39c5d" == "0402881ea7c39c5d";
  }

  // The timestamp envelope.

  datatype NsError = KeyFailure(key: KeyError) | CipherFailure(cipher: Cipher.CipherError)

  /** The text `encode_ns` returns. */
  function NsEncoded(aes: Cipher.BlockCipher, text: seq<byte>, t: int): (r: Result<seq<byte>, NsError>)
    requires |DecimalText(t)| >= 8
  {
    DecimalKeyDefined(t);
    match DynamicKey(DecimalText(t))
    case Err(e) => Err(KeyFailure(e))
    case Ok(key) => Ok(Cipher.Ciphertext(aes, text, key))
  }

  /** `encode_ns`: encrypt under the key derived from the timestamp's decimal text. */
  method EncodeNs(aes: Cipher.BlockCipher, text: seq<byte>, t: int) returns (r: Result<seq<byte>, NsError>)
    requires I64_MIN <= t <= I64_MAX && |DecimalText(t)| >= 8
    ensures r == NsEncoded(aes, text, t)
  {
    DecimalKeyDefined(t);
    var key := DynamicKey(DecimalText(t));
    if key.Err? {
      return Err(KeyFailure(key.error));
    }
    var encrypted := Cipher.Encrypt(aes, text, key.value);
    return Ok(encrypted);
  }

  /** `decode_ns`: decrypt under the key derived from the timestamp's decimal text. */
  function DecodeNs(aes: Cipher.BlockCipher, text: seq<byte>, t: int): (r: Result<seq<byte>, NsError>)
    requires |DecimalText(t)| >= 8
    ensures DynamicKey(DecimalText(t)).Ok? ==>
      (r == Err(CipherFailure(Cipher.InvalidBase64)) <==> Base64.Decode(text).None?)
  {
    DecimalKeyDefined(t);
    match DynamicKey(DecimalText(t))
    case Err(e) => Err(KeyFailure(e))
    case Ok(key) =>
      match Cipher.Decrypt(aes, text, key)
      case Err(e) => Err(CipherFailure(e))
      case Ok(plain) => Ok(plain)
  }

  /** What `encode_ns` produces for a timestamp, `decode_ns` turns back into the text. */
  lemma {:induction false} NsRoundTrip(aes: Cipher.BlockCipher, text: seq<byte>, t: int)
    requires Cipher.IsPermutation(aes) && |DecimalText(t)| >= 8
    ensures NsEncoded(aes, text, t).Ok?
    ensures DecodeNs(aes, NsEncoded(aes, text, t).value, t) == Ok(text)
  {
    DecimalKeyOk(t);
    Cipher.DecryptEncrypt(aes, text, DynamicKey(DecimalText(t)).value);
  }

  /** And every text `decode_ns` accepts is what `encode_ns` makes of its result. */
  lemma {:induction false} NsCanonical(aes: Cipher.BlockCipher, text: seq<byte>, t: int)
    requires Cipher.IsPermutation(aes) && |DecimalText(t)| >= 8
    requires DecodeNs(aes, text, t).Ok?
    ensures NsEncoded(aes, DecodeNs(aes, text, t).value, t) == Ok(text)
  {
    DecimalKeyOk(t);
    Cipher.EncryptDecrypt(aes, text, DynamicKey(DecimalText(t)).value);
  }

  // Signing a run record.

  /** The record the server receives, abbreviated field by field. */
  datatype Oct = Oct(
    tp: int, ep: int, kt: int, em: real, rt: seq<byte>, uer: seq<byte>, xq: seq<byte>,
    dt: seq<byte>, bf: real, bs: int, zlc: real, jf: int, et: seq<byte>, lid: seq<byte>,
    kll: int, app: seq<byte>, ap: int, lcs: real, st: seq<byte>, sv: seq<byte>)

  /** The upload record, which `sign_run_data` completes in place. */
  class UploadRunningInfo {
    var gpsMileage: real
    var effectivePart: int
    var signTime: seq<byte>
    var keepTime: int
    var deviceType: seq<byte>
    var avePace: int
    var appVersion: seq<byte>
    var oct: seq<byte>
    var signPoint: seq<LGPoint>
    var endTime: seq<byte>
    var limitationsGoalsSexInfoId: seq<byte>
    var semesterId: seq<byte>
    var uneffectiveReason: seq<byte>
    var runType: seq<byte>
    var paceNumber: int
    var routineLine: seq<LGPoint>
    var signDigital: seq<byte>
    var totalMileage: real
    var totalPart: int
    var calorie: int
    var effectiveMileage: real
    var systemVersion: seq<byte>
    var paceRange: real
    var scoringType: int
    var startTime: seq<byte>

    /** The builder as `upload_running` uses it: every field set except the sign time,
        the encrypted record and the ineffectiveness reason, which keep their empty
        defaults. */
    constructor (gpsMileage: real, effectivePart: int, keepTime: int, deviceType: seq<byte>,
                 avePace: int, appVersion: seq<byte>, signPoint: seq<LGPoint>, endTime: seq<byte>,
                 limitationsGoalsSexInfoId: seq<byte>, semesterId: seq<byte>, runType: seq<byte>,
                 paceNumber: int, routineLine: seq<LGPoint>, signDigital: seq<byte>,
                 totalMileage: real, totalPart: int, calorie: int, effectiveMileage: real,
                 systemVersion: seq<byte>, paceRange: real, scoringType: int, startTime: seq<byte>)
      ensures this.gpsMileage == gpsMileage && this.effectivePart == effectivePart
      ensures this.keepTime == keepTime && this.deviceType == deviceType
      ensures this.avePace == avePace && this.appVersion == appVersion
      ensures this.signPoint == signPoint && this.endTime == endTime
      ensures this.limitationsGoalsSexInfoId == limitationsGoalsSexInfoId
      ensures this.semesterId == semesterId && this.runType == runType
      ensures this.paceNumber == paceNumber && this.routineLine == routineLine
      ensures this.signDigital == signDigital && this.totalMileage == totalMileage
      ensures this.totalPart == totalPart && this.calorie == calorie
      ensures this.effectiveMileage == effectiveMileage && this.systemVersion == systemVersion
      ensures this.paceRange == paceRange && this.scoringType == scoringType
      ensures this.startTime == startTime
      ensures this.signTime == [] && this.oct == [] && this.uneffectiveReason == []
    {
      this.gpsMileage := gpsMileage;
      this.effectivePart := effectivePart;
      this.signTime := [];
      this.keepTime := keepTime;
      this.deviceType := deviceType;
      this.avePace := avePace;
      this.appVersion := appVersion;
      this.oct := [];
      this.signPoint := signPoint;
      this.endTime := endTime;
      this.limitationsGoalsSexInfoId := limitationsGoalsSexInfoId;
      this.semesterId := semesterId;
      this.uneffectiveReason := [];
      this.runType := runType;
      this.paceNumber := paceNumber;
      this.routineLine := routineLine;
      this.signDigital := signDigital;
      this.totalMileage := totalMileage;
      this.totalPart := totalPart;
      this.calorie := calorie;
      this.effectiveMileage := effectiveMileage;
      this.systemVersion := systemVersion;
      this.paceRange := paceRange;
      this.scoringType := scoringType;
      this.startTime := startTime;
    }

    /** The abbreviated record `sign_run_data` serialises: twenty of the fields, neither
        the sign time nor the encrypted record among them. */
    function Abbreviated(): (r: Oct)
      reads this
      ensures r.kt == keepTime && r.et == endTime && r.st == startTime
    {
      Oct(totalPart, effectivePart, keepTime, effectiveMileage, runType, uneffectiveReason,
          semesterId, deviceType, paceRange, paceNumber, totalMileage, scoringType, endTime,
          limitationsGoalsSexInfoId, calorie, appVersion, avePace, gpsMileage, startTime,
          systemVersion)
    }
  }

  /** The local time zone: `NaiveDateTime::parse_from_str(_, "%Y-%m-%d %H:%M:%S")` followed
      by `Local.from_local_datetime(_).single()` as seconds since the epoch, and
      `Local.timestamp_opt(_, 0).single()` followed by formatting in the same pattern.
      Either is None where the text is malformed or the local time is missing or
      ambiguous. */
  datatype LocalClock = LocalClock(seconds: seq<byte> -> Option<int>, text: int -> Option<seq<byte>>)

  datatype SignError = InvalidEndTime | InvalidSignTime

  /** The sign time: the end time moved by the keep time's truncated remainder mod 11. */
  /** The sign time lies within ten seconds of the end time, after it for a
      non-negative keep time and before it for a negative one. */
  function SignSeconds(endSeconds: int, keepTime: int): (r: int)
    ensures endSeconds - 10 <= r <= endSeconds + 10
    ensures keepTime >= 0 ==> r >= endSeconds
    ensures keepTime <= 0 ==> r <= endSeconds
  {
    endSeconds + TruncRem(keepTime, 11)
  }

  /** For a non-negative keep time only its remainder modulo 11 matters, and a
      negated keep time puts the sign time as far before the end as after it. */
  lemma {:induction false} SignSecondsPeriodic(endSeconds: int, keepTime: int)
    ensures keepTime >= 0 ==> SignSeconds(endSeconds, keepTime + 11) == SignSeconds(endSeconds, keepTime)
    ensures SignSeconds(endSeconds, -keepTime) - endSeconds == endSeconds - SignSeconds(endSeconds, keepTime)
  {
    if keepTime >= 0 {
      assert (keepTime + 11) % 11 == keepTime % 11;
    }
    TruncRemOdd(keepTime, 11);
  }

  /** The sign time text, or why there is none. */
  function SignTimeText(clock: LocalClock, endTime: seq<byte>, keepTime: int): (r: Result<seq<byte>, SignError>)
    ensures r.Err? <==> clock.seconds(endTime).None? || clock.text(SignSeconds(clock.seconds(endTime).value, keepTime)).None?
    ensures r == Err(InvalidEndTime) <==> clock.seconds(endTime).None?
  {
    match clock.seconds(endTime)
    case None => Err(InvalidEndTime)
    case Some(e) =>
      match clock.text(SignSeconds(e, keepTime))
      case None => Err(InvalidSignTime)
      case Some(t) => Ok(t)
  }

  /** The encrypted record: the pretty JSON of the abbreviated record with every ": "
      widened to " : ", under the session key. */
  function SignedOct(aes: Cipher.BlockCipher, toJson: Oct -> seq<byte>, oct: Oct, a1: seq<byte>, a2: seq<byte>): seq<byte>
    requires RnKeyDefined(a1, a2)
  {
    Cipher.Ciphertext(aes, SpaceColons(toJson(oct)), RnKey(a1, a2))
  }

  /** Whoever holds the session strings recovers the formatted record. */
  lemma {:induction false} SignedOctRecoverable(aes: Cipher.BlockCipher, toJson: Oct -> seq<byte>, oct: Oct, a1: seq<byte>, a2: seq<byte>)
    requires Cipher.IsPermutation(aes) && RnKeyDefined(a1, a2)
    ensures Cipher.Decrypt(aes, SignedOct(aes, toJson, oct, a1, a2), RnKey(a1, a2)) == Ok(SpaceColons(toJson(oct)))
  {
    Cipher.DecryptEncrypt(aes, SpaceColons(toJson(oct)), RnKey(a1, a2));
  }

  /** `sign_run_data`: sets the sign time and the encrypted record and nothing else;
      when the end time or the sign time cannot be expressed in local time it fails
      and changes nothing. */
  method SignRunData(data: UploadRunningInfo, a1: seq<byte>, a2: seq<byte>, aes: Cipher.BlockCipher,
                     toJson: Oct -> seq<byte>, clock: LocalClock) returns (r: Result<(), SignError>)
    requires RnKeyDefined(a1, a2)
    modifies data`signTime, data`oct
    ensures var signed := SignTimeText(clock, old(data.endTime), old(data.keepTime));
      && (r.Ok? <==> signed.Ok?)
      && (r.Err? ==> r.error == signed.error && data.signTime == old(data.signTime) && data.oct == old(data.oct))
      && (r.Ok? ==> data.signTime == signed.value)
    ensures r.Ok? ==> data.oct == SignedOct(aes, toJson, old(data.Abbreviated()), a1, a2)
  {
    var oct := data.Abbreviated();
    var formatted := SpaceColons(toJson(oct));
    var dyKey := RnKey(a1, a2);
    var endSeconds := clock.seconds(data.endTime);
    if endSeconds.None? {
      return Err(InvalidEndTime);
    }
    var signSeconds := endSeconds.value + TruncRem(data.keepTime, 11);
    var signTime := clock.text(signSeconds);
    if signTime.None? {
      return Err(InvalidSignTime);
    }
    data.signTime := signTime.value;
    var encrypted := Cipher.Encrypt(aes, formatted, dyKey);
    data.oct := encrypted;
    return Ok(());
  }
}
