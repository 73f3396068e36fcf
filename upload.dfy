/** The account client of the library: the login digest, the running limits an
    account stores, and the figures, digest and record `upload_running` builds
    before it posts a run. */
module Upload {

  import opened Wrappers
  import opened Text
  import opened Numeric
  import Hex
  import Cipher
  import Walk
  import Routine
  import Security

  // Formatting request bodies.

  /** `format_json`: the pretty JSON of a value (`pretty` is serde's
      `to_string_pretty`, None when serialisation fails) with every ": " widened
      to " : ". */
  function FormatJson<T>(pretty: T -> Option<seq<byte>>, value: T): (r: Option<seq<byte>>)
    ensures r.Some? <==> pretty(value).Some?
    ensures r.Some? ==> r.value == Expand(pretty(value).value)
    ensures r.Some? ==> |r.value| == |pretty(value).value| + ColonSpaces(pretty(value).value)
    ensures r.Some? && ColonSpaces(pretty(value).value) == 0 ==> r.value == pretty(value).value
  {
    match pretty(value)
    case None => None
    case Some(json) =>
      SpaceColonsIsExpand(json);
      if ColonSpaces(json) == 0 then SpaceColonsIdentity(json); Some(SpaceColons(json))
      else Some(SpaceColons(json))
  }

  // Logging in.

  /** The text `set_token` signs: the user name, the password and the digit 1. */
  function LoginDigestInput(username: seq<byte>, password: seq<byte>): (r: seq<byte>)
    ensures |r| == |username| + |password| + 1 && r[|r| - 1] == 49
    ensures r[..|username|] == username
    ensures r[|username|..|username| + |password|] == password
  {
    username + password + [49]
  }

  /** The `signDigital` of the login request. */
  function LoginDigest(sha1: seq<byte> -> Security.Digest, username: seq<byte>, password: seq<byte>): (r: seq<byte>)
    ensures |r| == 40
    ensures Hex.Decode(r) == Some(sha1(LoginDigestInput(username, password) + Security.SALT))
  {
    Security.Hs(sha1, LoginDigestInput(username, password))
  }

  /** Nothing separates the user name from the password in the signed text: moving
      bytes from one to the other keeps the digest. */
  lemma {:induction false} LoginDigestUnseparated(sha1: seq<byte> -> Security.Digest, u1: seq<byte>, p1: seq<byte>, u2: seq<byte>, p2: seq<byte>)
    requires u1 + p1 == u2 + p2
    ensures LoginDigest(sha1, u1, p1) == LoginDigest(sha1, u2, p2)
  {
    assert LoginDigestInput(u1, p1) == (u1 + p1) + [49];
    assert LoginDigestInput(u2, p2) == (u2 + p2) + [49];
  }

  // Errors of the account operations.

  datatype UploadError =
    | SemesterNotStarted              // "Semester not started yet."
    | ParseFloatError                 // a mileage total is not a number
    | MileageTooLow                   // "Effective mileage too low"
    | InvalidDuration                 // "Invalid duration"
    | RoutineFailure(routine: Routine.RoutineError)
    | SignFailure(sign: Security.SignError)

  /** The `data` object of the running-limits response; each field may be missing. */
  datatype RunningLimitsData = RunningLimitsData(
    dailyMileage: Option<real>,
    effectiveMileageEnd: Option<real>,
    effectiveMileageStart: Option<real>,
    limitationsGoalsSexInfoId: Option<seq<byte>>,
    scoringType: Option<byte>,
    totalDayMileage: Option<seq<byte>>,
    totalWeekMileage: Option<seq<byte>>,
    weeklyMileage: Option<real>)

  predicate AllPresent(data: RunningLimitsData) {
    && data.dailyMileage.Some? && data.effectiveMileageEnd.Some?
    && data.effectiveMileageStart.Some? && data.limitationsGoalsSexInfoId.Some?
    && data.scoringType.Some? && data.totalDayMileage.Some?
    && data.totalWeekMileage.Some? && data.weeklyMileage.Some?
  }

  // The figures of an uploaded run.

  const PACE: real := 360.0
  const CALORIE_PER_MILEAGE: real := 58.3
  const PACE_RANGE: real := 0.59999999999999998

  /** The largest number of whole seconds `Duration::try_seconds` accepts either way:
      a duration holds at most `i64::MAX` milliseconds. */
  const MAX_DURATION_SECONDS: int := I64_MAX / 1000

  /** The two random draws of `upload_running`: `gen_range(-0.02..-0.001)` added to the
      mileage and `gen_range(-15..15)` added to the keep time. */
  datatype RunNoise = RunNoise(dMileage: real, dKeep: int)

  predicate NoiseWithin(noise: RunNoise) {
    -0.02 <= noise.dMileage < -0.001 && -15 <= noise.dKeep < 15
  }

  /** The effective mileage: the request, capped by what is left of the daily and the
      weekly allowance and by the effective maximum. */
  function Clamp(requested: real, daily: real, day: real, weekly: real, week: real, end: real): (r: real)
    ensures r <= requested && r <= daily - day && r <= weekly - week && r <= end
    ensures r == requested || r == daily - day || r == weekly - week || r == end
  {
    Min(Min(Min(requested, daily - day), weekly - week), end)
  }

  datatype Figures = Figures(mileage: real, keepTime: int, startSeconds: int, calorie: int, avePace: int, paceNumber: int)

  /** `(mileage * PACE) as i64 + noise`. */
  function KeepTime(mileage: real, dKeep: int): (r: int)
    ensures I64_MIN <= r <= I64_MAX
    ensures -15 <= dKeep < 15 && I64_MIN + 15 <= CastI64(mileage * PACE) <= I64_MAX - 15 ==>
      CastI64(mileage * PACE) - 15 <= r < CastI64(mileage * PACE) + 15
  {
    WrapI64(CastI64(mileage * PACE) + dKeep)
  }

  /** The figures `upload_running` computes from the account's limits, the requested
      mileage, the end time in seconds and the draws: the effective mileage must reach
      the effective minimum, and the run starts the keep time plus eight seconds before
      it ends, a span `Duration::try_seconds` must accept. */
  function RunFigures(requested: real, daily: real, day: real, weekly: real, week: real, end: real, start: real,
                      endSeconds: int, noise: RunNoise): (r: Result<Figures, UploadError>)
    ensures r == Err(MileageTooLow) <==> Clamp(requested, daily, day, weekly, week, end) < start
    ensures r.Ok? ==> r.value.mileage - noise.dMileage == Clamp(requested, daily, day, weekly, week, end) >= start
    ensures r.Ok? ==> -MAX_DURATION_SECONDS <= endSeconds - r.value.startSeconds <= MAX_DURATION_SECONDS
    ensures r.Ok? ==> endSeconds - r.value.startSeconds == WrapI64(r.value.keepTime + 8)
    ensures r.Err? ==> r == Err(MileageTooLow) || r == Err(InvalidDuration)
    ensures r == Err(InvalidDuration) <==>
      && Clamp(requested, daily, day, weekly, week, end) >= start
      && !(-MAX_DURATION_SECONDS
           <= WrapI64(KeepTime(Clamp(requested, daily, day, weekly, week, end) + noise.dMileage, noise.dKeep) + 8)
           <= MAX_DURATION_SECONDS)
    ensures r.Ok? ==> r.value.keepTime == KeepTime(r.value.mileage, noise.dKeep)
  {
    var clamped := Clamp(requested, daily, day, weekly, week, end);
    if clamped < start then Err(MileageTooLow)
    else
      var m := clamped + noise.dMileage;
      var keep := KeepTime(m, noise.dKeep);
      var span := WrapI64(keep + 8);
      if !(-MAX_DURATION_SECONDS <= span <= MAX_DURATION_SECONDS) then Err(InvalidDuration)
      else
        var calorie := CastI64(CALORIE_PER_MILEAGE * m);
        var avePace := WrapI64(CastQuotient(keep, m) * 1000);
        var paceNumber := CastI64(m * 1000.0 / PACE_RANGE / 2.0);
        Ok(Figures(m, keep, endSeconds - span, calorie, avePace, paceNumber))
  }

  /** With draws in their ranges the uploaded mileage lies between 0.02 and 0.001 below
      the effective mileage; away from the ends of the i64 range the keep time lies
      within 15 seconds of six minutes per kilometre and the run starts before it ends
      unless the keep time is below -8. */
  lemma {:induction false} FiguresWithinNoise(requested: real, daily: real, day: real, weekly: real, week: real, end: real, start: real,
                                              endSeconds: int, noise: RunNoise)
    requires NoiseWithin(noise)
    ensures var r := RunFigures(requested, daily, day, weekly, week, end, start, endSeconds, noise);
      r.Ok? ==>
        && Clamp(requested, daily, day, weekly, week, end) - 0.02 <= r.value.mileage < Clamp(requested, daily, day, weekly, week, end) - 0.001
        && (I64_MIN + 15 <= CastI64(r.value.mileage * PACE) <= I64_MAX - 15 ==>
              CastI64(r.value.mileage * PACE) - 15 <= r.value.keepTime < CastI64(r.value.mileage * PACE) + 15)
        && (-7 <= r.value.keepTime ==> r.value.startSeconds < endSeconds)
  {
    var r := RunFigures(requested, daily, day, weekly, week, end, start, endSeconds, noise);
    if r.Ok? {
      var m := r.value.mileage;
      assert r.value.keepTime == KeepTime(m, noise.dKeep);
      if -7 <= r.value.keepTime {
        assert WrapI64(r.value.keepTime + 8) == r.value.keepTime + 8;
      }
    }
  }

  /** The text `upload_running` signs: the mileage, the digit 1, the start time, the
      calorie, the average pace, the keep time, the pace number, the mileage again
      and the digit 1 again. */
  function UploadDigestInput(showF64: real -> seq<byte>, startText: seq<byte>, f: Figures): (r: seq<byte>)
    ensures var n := |showF64(f.mileage)|;
      && |r| == 2 * (n + 1) + |startText| + |DecimalText(f.calorie)| + |DecimalText(f.avePace)|
           + |DecimalText(f.keepTime)| + |DecimalText(f.paceNumber)|
      && r[..n] == showF64(f.mileage) && r[n] == 49
      && r[n + 1..n + 1 + |startText|] == startText
      && r[n + 1 + |startText|..|r| - n - 1]
           == DecimalText(f.calorie) + DecimalText(f.avePace) + DecimalText(f.keepTime) + DecimalText(f.paceNumber)
      && r[|r| - n - 1..|r| - 1] == showF64(f.mileage) && r[|r| - 1] == 49
  {
    Framed(showF64(f.mileage), startText,
      DecimalText(f.calorie) + DecimalText(f.avePace) + DecimalText(f.keepTime) + DecimalText(f.paceNumber))
  }

  /** A text between two copies of a frame ending in the digit 1. */
  function Framed(m: seq<byte>, st: seq<byte>, ints: seq<byte>): (r: seq<byte>)
    ensures |r| == 2 * (|m| + 1) + |st| + |ints|
    ensures r[..|m|] == m && r[|m|] == 49
    ensures r[|m| + 1..|m| + 1 + |st|] == st
    ensures r[|m| + 1 + |st|..|r| - |m| - 1] == ints
    ensures r[|r| - |m| - 1..|r| - 1] == m && r[|r| - 1] == 49
  {
    var frame := m + [49];
    var r := frame + st + ints + frame;
    assert r[..|m|] == m by { assert r[..|m|] == frame[..|m|]; }
    assert r[|m| + 1..|m| + 1 + |st|] == st;
    assert r[|m| + 1 + |st|..|r| - |m| - 1] == ints;
    assert r[|r| - |m| - 1..|r| - 1] == m by { assert r[|r| - |m| - 1..] == frame; }
    r
  }

  /** The `signDigital` of the run record. */
  function UploadDigest(sha1: seq<byte> -> Security.Digest, showF64: real -> seq<byte>, startText: seq<byte>, f: Figures): (r: seq<byte>)
    ensures |r| == 40
    ensures Hex.Decode(r) == Some(sha1(UploadDigestInput(showF64, startText, f) + Security.SALT))
  {
    Security.Hs(sha1, UploadDigestInput(showF64, startText, f))
  }

  /** What `upload_running` relies on that is not computed here: SHA-1 and Display for
      f64, the local clock (`format` renders a time, which never fails for a time that
      exists), AES, serde's JSON for the signed record, and the route generator's
      GCJ-02 offset, geodesic distance and jitter. */
  datatype Services = Services(
    sha1: seq<byte> -> Security.Digest,
    showF64: real -> seq<byte>,
    format: int -> seq<byte>,
    clock: Security.LocalClock,
    aes: Cipher.BlockCipher,
    toJson: Security.Oct -> seq<byte>,
    offset: Routine.Offset,
    dist: Walk.Distance,
    jitter: nat -> Walk.Jitter)

  /** An account after logging in: the running limits and the identifiers used to sign. */
  class Account {
    var daily: real
    var day: real
    var end: real
    var id: seq<byte>
    var schoolId: seq<byte>
    var limitation: seq<byte>
    var scoring: byte
    var semester: seq<byte>
    var start: real
    var token: seq<byte>
    var version: seq<byte>
    var week: real
    var weekly: real

    /** `Account::new`: every field at its default. */
    constructor ()
      ensures daily == 0.0 && day == 0.0 && end == 0.0 && start == 0.0 && week == 0.0 && weekly == 0.0
      ensures id == [] && schoolId == [] && limitation == [] && semester == [] && token == [] && version == []
      ensures scoring == 0
    {
      daily, day, end, start, week, weekly := 0.0, 0.0, 0.0, 0.0, 0.0, 0.0;
      id, schoolId, limitation, semester, token, version := [], [], [], [], [], [];
      scoring := 0;
    }

    /** The body of `set_running_limit` after the response is parsed (`parseF64` is
        `str::parse::<f64>`): nothing is stored unless all eight fields are present;
        then the fields are assigned in the source's order, so a day total that does
        not parse leaves only the daily mileage stored, and a week total that does not
        parse leaves the week totals unchanged. */
    method SetRunningLimit(data: RunningLimitsData, parseF64: seq<byte> -> Option<real>) returns (r: Result<(), UploadError>)
      modifies this
      ensures !AllPresent(data) ==> r == Err(SemesterNotStarted) && unchanged(this)
      ensures AllPresent(data) && parseF64(data.totalDayMileage.value).None? ==>
        r == Err(ParseFloatError) && daily == data.dailyMileage.value
        && day == old(day) && end == old(end) && limitation == old(limitation) && scoring == old(scoring)
        && start == old(start) && week == old(week) && weekly == old(weekly)
      ensures AllPresent(data) && parseF64(data.totalDayMileage.value).Some? && parseF64(data.totalWeekMileage.value).None? ==>
        r == Err(ParseFloatError) && daily == data.dailyMileage.value && day == parseF64(data.totalDayMileage.value).value
        && end == data.effectiveMileageEnd.value && limitation == data.limitationsGoalsSexInfoId.value
        && scoring == data.scoringType.value && start == data.effectiveMileageStart.value
        && week == old(week) && weekly == old(weekly)
      ensures r.Ok? <==> AllPresent(data) && parseF64(data.totalDayMileage.value).Some? && parseF64(data.totalWeekMileage.value).Some?
      ensures r.Ok? ==>
        && daily == data.dailyMileage.value && day == parseF64(data.totalDayMileage.value).value
        && end == data.effectiveMileageEnd.value && limitation == data.limitationsGoalsSexInfoId.value
        && scoring == data.scoringType.value && start == data.effectiveMileageStart.value
        && week == parseF64(data.totalWeekMileage.value).value && weekly == data.weeklyMileage.value
      ensures id == old(id) && schoolId == old(schoolId) && semester == old(semester)
      ensures token == old(token) && version == old(version)
    {
      if !AllPresent(data) {
        return Err(SemesterNotStarted);
      }
      daily := data.dailyMileage.value;
      var dayTotal := parseF64(data.totalDayMileage.value);
      if dayTotal.None? {
        return Err(ParseFloatError);
      }
      day := dayTotal.value;
      end := data.effectiveMileageEnd.value;
      limitation := data.limitationsGoalsSexInfoId.value;
      scoring := data.scoringType.value;
      start := data.effectiveMileageStart.value;
      var weekTotal := parseF64(data.totalWeekMileage.value);
      if weekTotal.None? {
        return Err(ParseFloatError);
      }
      week := weekTotal.value;
      weekly := data.weeklyMileage.value;
      return Ok(());
    }

    /** The figures of a run under this account's limits. */
    function Figures(requested: real, endSeconds: int, noise: RunNoise): Result<Figures, UploadError>
      reads this
    {
      RunFigures(requested, daily, day, weekly, week, end, start, endSeconds, noise)
    }

    /** `upload_running` up to the request: the figures, the digest, the route for the
        jittered mileage, the record and its signature. The record is returned instead
        of being posted. The session strings must be long enough for the session key,
        and the route must be able to end. */
    method UploadRunning(parsed: Option<Routine.GeoJson>, requested: real, endSeconds: int, noise: RunNoise, env: Services)
      returns (r: Result<Security.UploadRunningInfo, UploadError>)
      requires Walk.IsDistance(env.dist) && Walk.JitterWithin(env.jitter, 0.000005, 0.000005)
      requires Security.RnKeyDefined(id, schoolId)
      requires Figures(requested, endSeconds, noise).Ok? && Routine.IsWalkable(parsed) ==>
        Walk.Terminates(Routine.Vertices(Routine.Coordinates(parsed).value, env.offset), env.dist, Figures(requested, endSeconds, noise).value.mileage)
      ensures Figures(requested, endSeconds, noise).Err? ==> r == Err(Figures(requested, endSeconds, noise).error)
      ensures Figures(requested, endSeconds, noise).Ok? && !Routine.IsWalkable(parsed) ==>
        r == Err(RoutineFailure(Routine.Coordinates(parsed).error))
      ensures Figures(requested, endSeconds, noise).Ok? && Routine.IsWalkable(parsed) ==>
        var signed := Security.SignTimeText(env.clock, env.format(endSeconds), Figures(requested, endSeconds, noise).value.keepTime);
        && (r.Ok? <==> signed.Ok?)
        && (r.Err? ==> signed.Err? && r == Err(SignFailure(signed.error)))
      ensures r.Ok? ==> fresh(r.value) && Figures(requested, endSeconds, noise).Ok? && Routine.IsWalkable(parsed)
      ensures r.Ok? ==> var f := Figures(requested, endSeconds, noise).value;
        && r.value.keepTime == f.keepTime && r.value.calorie == f.calorie && r.value.avePace == f.avePace
        && r.value.paceNumber == f.paceNumber && r.value.effectiveMileage == f.mileage
        && r.value.gpsMileage == f.mileage && r.value.totalMileage == f.mileage
        && r.value.startTime == env.format(f.startSeconds) && r.value.endTime == env.format(endSeconds)
        && r.value.signDigital == UploadDigest(env.sha1, env.showF64, env.format(f.startSeconds), f)
        && r.value.semesterId == semester && r.value.limitationsGoalsSexInfoId == limitation
        && r.value.scoringType == scoring && r.value.appVersion == version
        && Walk.IsRoute(r.value.routineLine, Routine.Vertices(Routine.Coordinates(parsed).value, env.offset), env.dist, env.jitter, f.mileage)
        && Security.SignTimeText(env.clock, env.format(endSeconds), f.keepTime) == Ok(r.value.signTime)
        && r.value.oct == Security.SignedOct(env.aes, env.toJson, r.value.Abbreviated(), id, schoolId)
    {
      var figures := Figures(requested, endSeconds, noise);
      if figures.Err? {
        return Err(figures.error);
      }
      var f := figures.value;
      var startText := env.format(f.startSeconds);
      var signDigital := UploadDigest(env.sha1, env.showF64, startText, f);
      var routine := Routine.GetRoutine(f.mileage, parsed, env.offset, env.dist, env.jitter);
      if routine.Err? {
        return Err(RoutineFailure(routine.error));
      }
      r := SignedRecord(f, startText, env.format(endSeconds), routine.value, signDigital, env);
    }

    /** The record `UploadRunningInfoBuilder` builds from the figures, signed by
        `sign_run_data` with the session strings. */
    method SignedRecord(f: Figures, startText: seq<byte>, endText: seq<byte>, routeLine: seq<Walk.LGPoint>,
                        signDigital: seq<byte>, env: Services) returns (r: Result<Security.UploadRunningInfo, UploadError>)
      requires Security.RnKeyDefined(id, schoolId)
      ensures r.Ok? <==> Security.SignTimeText(env.clock, endText, f.keepTime).Ok?
      ensures r.Err? ==> r == Err(SignFailure(Security.SignTimeText(env.clock, endText, f.keepTime).error))
      ensures r.Ok? ==> fresh(r.value)
      ensures r.Ok? ==>
        && r.value.keepTime == f.keepTime && r.value.calorie == f.calorie && r.value.avePace == f.avePace
        && r.value.paceNumber == f.paceNumber && r.value.effectiveMileage == f.mileage
        && r.value.gpsMileage == f.mileage && r.value.totalMileage == f.mileage
        && r.value.startTime == startText && r.value.endTime == endText
        && r.value.signDigital == signDigital && r.value.routineLine == routeLine
        && r.value.semesterId == semester && r.value.limitationsGoalsSexInfoId == limitation
        && r.value.scoringType == scoring && r.value.appVersion == version
        && r.value.effectivePart == 1 && r.value.totalPart == 1 && r.value.signPoint == []
        && r.value.deviceType == DEVICE_TYPE && r.value.systemVersion == SYSTEM_VERSION
        && r.value.runType == RUN_TYPE && r.value.paceRange == PACE_RANGE && r.value.uneffectiveReason == []
        && Security.SignTimeText(env.clock, endText, f.keepTime) == Ok(r.value.signTime)
        && r.value.oct == Security.SignedOct(env.aes, env.toJson, r.value.Abbreviated(), id, schoolId)
    {
      var json := new Security.UploadRunningInfo(f.mileage, 1, f.keepTime, DEVICE_TYPE, f.avePace,
        version, [], endText, limitation, semester, RUN_TYPE, f.paceNumber, routeLine,
        signDigital, f.mileage, 1, f.calorie, f.mileage, SYSTEM_VERSION, PACE_RANGE, scoring, startText);
      var signed := Security.SignRunData(json, id, schoolId, env.aes, env.toJson, env.clock);
      if signed.Err? {
        return Err(SignFailure(signed.error));
      }
      return Ok(json);
    }
  }

  const DEVICE_TYPE: seq<byte> := Ascii("iPhone 13 Pro")
  const SYSTEM_VERSION: seq<byte> := Ascii("16.0.2")

  /** "自由跑" (free run) in UTF-8. */
  const RUN_TYPE: seq<byte> := [232, 135, 170, 231, 148, 177, 232, 183, 145]
}
