# pretty-der6y client core in Dafny

pretty-der6y is a client that uploads a "free run" to a campus running service. This
project models the client's deterministic core and proves properties of it:

- **Request signing** (`lib/src/security.rs`):
  - the Caesar-shifted constants;
  - the salted SHA-1 hex digest;
  - the session key and the timestamp key, both cut out of strings;
  - AES-128 in ECB mode (section 6.1 of NIST SP 800-38A) with PKCS#7 padding
    (section 6.3 of RFC 5652) and standard base64 (section 4 of RFC 4648);
  - the timestamp-keyed envelope `encode_ns`/`decode_ns`;
  - `sign_run_data`, which fills the `sign_time` and `oct` fields of an upload record in
    place.
- **Route synthesis**: two versions of `get_routine`.
  - The newer one (`lib/src/routine.rs`) reads a GeoJSON line and shifts each vertex
    inside the China box by the GCJ-02 offset.
  - The older one (`src/account/routine.rs`) reads WKT points from CSV rows.
  - Both walk the vertex list cyclically and subtract the step distances from the
    mileage. They emit a jittered point per vertex and stop once the mileage is used up.
- **Upload rules** (`lib/src/lib.rs`):
  - the `" : "` JSON rewrite;
  - the login digest;
  - `set_running_limit`;
  - the arithmetic of `upload_running`: the mileage clamp, the "too low" rejection, the
    keep time, the start time and the derived figures;
  - the order of the digest input;
  - the record it builds and signs.
- **Terminal UI** (`src/pretty_tui.rs`): `select`, `handle_normal` and `handle_editing`,
  as a `Tui` class over the widget fields.
- **File picker** (`tauri-app/src/components/Uploader.tsx`): the accept-list matcher
  `validateFileType`, and the `onChange`/`onDrop`/drag handlers as a class over the two
  signals.

How the model is built:

- Text in the Rust modules is UTF-8 bytes (`seq<byte>`). The TUI and the file picker
  work on characters.
- The external parts are function-typed parameters: SHA-1, the AES block permutation,
  serde, chrono, the f64 `Display`, geodesic distance, the GCJ-02 offset and the random
  draws. Where a property needs something of them, that something is a precondition:
  the distance is non-negative and zero from a point to itself, decryption inverts
  encryption, and each draw lies in its stated range.
- f64 arithmetic is exact `real` arithmetic.
- Rust's `as i64` is a saturating cast (`CastI64`). Truncating `%` is `TruncRem`.
- i64 `+` and `*` wrap around, as in a release build (`WrapI64`).
- The u16 cursor of the TUI wraps with it (`AsU16`, `IncU16`).

Modules:

- `Wrappers`: `Option` and `Result`.
- `Text`: bytes, decimal text, `parse::<i32>`, the `": "` rewrite.
- `Numeric`: Rust casts and remainders.
- `Caesar`: the `uncaesar` loop.
- `Hex` and `Base64`: hex and base64 encoding.
- `Cipher`: the key resize, padding, ECB and encrypt/decrypt.
- `Security`: `security.rs`.
- `Walk`: the cyclic walk shared by both `get_routine`s.
- `Routine` and `LegacyRoutine`: the two `get_routine`s.
- `Upload`: `lib.rs`.
- `Tui`: `pretty_tui.rs`.
- `Uploader`: `Uploader.tsx`.

## Model

| member | source | states |
|---|---|---|
| Caesar.Uncaesar | lib/src/security.rs:38-56 | the loop writes, at each index, the byte shifted back by 3 within its case; the output has the input's length |
| Caesar.UncaesarIsDecoded | lib/src/security.rs:38-56 | what the loop writes is the byte-wise decoding `Decoded` of the input |
| Caesar.UnshiftProperties | lib/src/security.rs:44-50 | a letter stays in its case and maps to `base + (c - base + 23) mod 26`; every other byte is unchanged |
| Caesar.ShiftUnshift | lib/src/security.rs:44-50 | shifting forward by 3 undoes the decoding of every byte, and the decoding undoes the shift |
| Security.SaltDecoded | lib/src/security.rs:63 | the salt decodes to "itauVfnexHiRigZ6" |
| Security.RnFixedPrefix | lib/src/security.rs:201 | the session-key suffix decodes to 32 bytes starting "3e0783d" |
| Security.DynamicFixedPrefix | lib/src/security.rs:211 | the timestamp-key suffix decodes to 32 bytes starting "402881ea7c39c5d" |
| Hex.Encode | lib/src/security.rs:101 | two lower-case hex digits per byte |
| Hex.DecodeEncode | lib/src/security.rs:101 | hex encoding is undone by hex decoding, so no information is lost |
| Security.Hs | lib/src/security.rs:97-102 | 40 lower-case hex digits whose decoding is the SHA-1 digest of the text followed by the salt |
| Cipher.SecretKey | lib/src/security.rs:118-122 | exactly 16 bytes: the key's bytes up to 16, then zeros |
| Cipher.SecretKeyPrefix | lib/src/security.rs:118-122 | keys that agree in their first 16 bytes give the same AES key |
| Cipher.SecretKeyIdempotent | lib/src/security.rs:118-122 | resizing an already resized key changes nothing |
| Cipher.Pad | lib/src/security.rs:108-113 | PKCS#7: a multiple of 16, strictly longer than the plaintext and at most 16 longer; the plaintext is a prefix; every added byte is the number of added bytes |
| Cipher.Unpad | lib/src/security.rs:240-243 | a successful unpad removes between 1 and 16 bytes from the end |
| Cipher.UnpadPad | lib/src/security.rs:240-243 | unpadding a padded text gives the text back |
| Cipher.PadUnpad | lib/src/security.rs:240-243 | every block-aligned text that unpads is the padding of its unpadded text, so bad padding is rejected |
| Cipher.Ecb | lib/src/security.rs:111-113 | ECB keeps the length |
| Cipher.EcbAppend | lib/src/security.rs:111-113 | ECB works block by block: it distributes over concatenation of block-aligned parts |
| Cipher.EcbInverse | lib/src/security.rs:240-243 | for a block permutation, ECB decryption undoes ECB encryption and the other way round |
| Cipher.PadInPlace | lib/src/security.rs:108-113 | copying the plaintext into the `len + 16` buffer and padding in place leaves the padded plaintext in the buffer's prefix |
| Cipher.EncryptBlockAt | lib/src/security.rs:111-113 | one block is replaced by its encryption and the rest of the buffer is unchanged |
| Cipher.EncryptBlocksInPlace | lib/src/security.rs:111-113 | after the loop the buffer's prefix is the ECB encryption of its old contents |
| Cipher.EcbBlock | lib/src/security.rs:111-113 | ECB of one more block appends the encryption of that block |
| Cipher.Encrypt | lib/src/security.rs:104-116 | the result is the base64 of the ECB encryption of the padded plaintext under the resized key |
| Cipher.Decrypt | lib/src/security.rs:233-246 | fails with a base64 error exactly when the text is not base64 |
| Cipher.DecryptEncrypt | lib/src/security.rs:104-246 | decrypting an encryption under the same key gives the plaintext back |
| Cipher.EncryptDecrypt | lib/src/security.rs:104-246 | re-encrypting what a text decrypts to gives that text back |
| Base64.Encode | lib/src/security.rs:115 | 4 symbols for every started group of 3 bytes |
| Base64.Decode | lib/src/security.rs:237 | only texts whose length is a multiple of 4 decode |
| Base64.DecodeEncode | lib/src/security.rs:233-246 | decoding an encoding gives the bytes back |
| Base64.EncodeDecode | lib/src/security.rs:233-246 | a text that decodes is the encoding of what it decodes to, so decoding is strict |
| Security.RnKey | lib/src/security.rs:203-209 | the session key: `a1[3..6] + a2[4..7] + a1[9..12]` and the fixed suffix, 41 bytes |
| Security.RnSecretKey | lib/src/security.rs:203-209 | the AES key taken from the session key is the nine sliced bytes followed by "3e0783d" |
| Security.RnKeyInjective | lib/src/security.rs:203-209 | two session keys are equal exactly when the three slices are equal |
| Text.DecimalText | lib/src/security.rs:229 | `i64::to_string`: digits, with a leading minus sign exactly for negative numbers |
| Text.ParseI32 | lib/src/security.rs:218-219 | `parse::<i32>` gives a value in the i32 range or fails |
| Text.ParseDecimal | lib/src/security.rs:218-219 | parsing the decimal text of an i32 gives the number back |
| Text.ParseDigits | lib/src/security.rs:218-219 | a run of 1 to 9 digits parses to its decimal value |
| Security.ShlI32 | lib/src/security.rs:221 | `i32 << d` stays in the i32 range and equals `v * 2^d` when that fits |
| Security.DynamicKey | lib/src/security.rs:213-226 | the timestamp key is defined exactly when both slices parse and the last byte is a digit; a slice that does not parse gives the parse error |
| Security.DynamicKeyValue | lib/src/security.rs:213-226 | the key is the decimal text of `abs(s[2..5] - s[4..8]) << last digit`, followed by the fixed suffix |
| Security.OperandBounds | lib/src/security.rs:218-219 | the parsed 3-byte slice is below 1000 and the 4-byte slice below 10000 in absolute value, so the shift cannot overflow |
| Security.ShiftedDifference | lib/src/security.rs:219-221 | with those bounds, the i32 subtraction, `abs` and shift equal the exact `abs(v1 - v2) * 2^d` |
| Security.DecimalKeyOk | lib/src/security.rs:229 | the key of every timestamp with at least 8 characters is defined |
| Security.DigitKeyOk | lib/src/security.rs:213-226 | a text of at least 8 bytes whose bytes after the first are digits has a key |
| Security.DynamicKeyExample | lib/src/security.rs:274-279 | the timestamp 1000000000000 of the tests gives the key "0" followed by the fixed suffix |
| Security.ZeroKey | lib/src/security.rs:213-226 | zeros at positions 2 to 7 and a final 0 give the key "0" followed by the suffix |
| Security.DynamicSecretKeyExample | lib/src/security.rs:211 | that key yields the AES key "0402881ea7c39c5d" |
| Security.EncodeNs | lib/src/security.rs:228-231 | encrypts under the key of the timestamp's decimal text |
| Security.DecodeNs | lib/src/security.rs:248-251 | when the timestamp has a key, fails with a base64 error exactly when the text is not base64 |
| Security.NsRoundTrip | lib/src/security.rs:228-251 | `decode_ns(encode_ns(x, t), t) == x`, as the encrypt/decrypt tests check on one text, and `encode_ns` succeeds |
| Security.NsCanonical | lib/src/security.rs:228-251 | a text that `decode_ns` accepts is the `encode_ns` of its decoding |
| Security.UploadRunningInfo.constructor | lib/src/security.rs:65-95 | the builder's fields hold the given values; `sign_time`, `oct` and `uneffective_reason` start empty |
| Security.UploadRunningInfo.Abbreviated | lib/src/security.rs:124-174 | the `Oct` record carries the record's keep time, end time and start time |
| Text.SpaceColonsIsExpand | lib/src/security.rs:178-179 | the left-to-right rewrite of `": "` into `" : "` is the replacement of every occurrence and adds one byte per occurrence |
| Security.SignSeconds | lib/src/security.rs:189 | the sign time `end + keep_time % 11` is within 10 seconds of the end time, on the side of the keep time's sign |
| Security.SignSecondsPeriodic | lib/src/security.rs:189 | for a non-negative keep time only its remainder modulo 11 matters; negating the keep time mirrors the sign time around the end time |
| Numeric.TruncRem | lib/src/security.rs:189 | Rust's `%`: the remainder has the dividend's sign, is less than the divisor in absolute value, and differs from the dividend by a multiple of the divisor, which pins it |
| Numeric.TruncRemOdd | lib/src/security.rs:189 | Rust's `%` is odd in the dividend |
| Security.SignTimeText | lib/src/security.rs:183-195 | fails exactly when the end time does not parse or the sign time has no local time; an end time that does not parse gives its own error |
| Security.SignedOctRecoverable | lib/src/security.rs:176-196 | decrypting `oct` under the session key gives the pretty JSON of the `Oct` record with `": "` rewritten |
| Security.SignRunData | lib/src/security.rs:148-199 | succeeds exactly when the sign time can be computed; on success `sign_time` is its text and `oct` the encryption of the rewritten JSON under the session key; on failure neither field changes; nothing else is modified |
| Routine.Coordinates | lib/src/routine.rs:81-96 | succeeds exactly for a FeatureCollection whose first feature has a LineString geometry with at least one coordinate, and yields those coordinates; a parse failure and a non-collection each give their own error |
| Routine.CollectionChecks | lib/src/routine.rs:87-96 | in a collection, each of no feature, no geometry, a non-LineString geometry and an empty LineString gives its own error, and only it |
| Routine.FirstFeatureOnly | lib/src/routine.rs:87 | features after the first are ignored |
| Routine.OutOfChinaBox | lib/src/routine.rs:46-54 | a point is inside exactly when the longitude is in [72.004, 137.8347] and the latitude in [0.8293, 55.8271] |
| Routine.BoxCorners | lib/src/routine.rs:46-54 | the box boundaries are inclusive |
| Routine.OutOfChina | lib/src/routine.rs:46-54 | a point is out of China exactly when its longitude or its latitude lies outside the box |
| Routine.Wgs84ToGcj02 | lib/src/routine.rs:56-69 | the identity out of China; inside, the latitude and longitude move by exactly the offset |
| Routine.ConversionGate | lib/src/routine.rs:56-69 | the conversion is the identity outside the box and adds the offset inside it |
| Routine.Vertices | lib/src/routine.rs:100-101 | one converted vertex per coordinate, in order, with `(lat, lon)` swapped back into `(x, y)` |
| Routine.VertexOutside | lib/src/routine.rs:56-58 | a coordinate outside the box is its own vertex |
| Walk.WalkRoute | lib/src/routine.rs:98-119 | the loop returns the unique route `IsRoute` describes: point k is vertex `k mod n` plus draw k; at least one point; the walked distance reaches the mileage at the last point and at no earlier one |
| Walk.EmissionStep | lib/src/routine.rs:101-110 | emission `q*n + i` comes from vertex i; the first step pairs vertex 0 with itself and every later step pairs the vertex with the previous one |
| Walk.StepAt | lib/src/routine.rs:98-111 | emission `q*n + i` uses vertex i and is measured from the previous vertex in cyclic order |
| Walk.StepInLap | lib/src/routine.rs:98-111 | after the first emission, step `1 + q*n + i` is the distance from vertex i to the next one |
| Walk.StepNonNegative | lib/src/routine.rs:101-110 | every step subtracts a non-negative amount, and the first subtracts zero |
| Walk.WalkedMonotone | src/account/routine.rs:54 | the walked distance never decreases, so the remaining mileage never grows |
| Walk.WalkedInLap | lib/src/routine.rs:98-111 | within a lap the walked distance grows by the partial length of the polyline |
| Walk.WalkedLaps | lib/src/routine.rs:98-111 | every full lap adds the length of the closed cycle |
| Walk.Crossing | lib/src/routine.rs:98-119 | under the termination condition, some emission reaches the mileage |
| Walk.PartialMonotone | lib/src/routine.rs:98-111 | the partial lengths of the polyline are non-negative and grow along it |
| Walk.NothingWalked | lib/src/routine.rs:98-119 | a cycle of length zero walks nothing however long the walk |
| Walk.NoRouteWithoutTermination | lib/src/routine.rs:98-119 | without the termination condition no finite route exists: the source loop would not stop |
| Walk.RouteUnique | lib/src/routine.rs:98-119 | the inputs determine the route |
| Walk.LengthIndependentOfJitter | lib/src/routine.rs:110-111 | distances are taken between pre-jitter vertices, so routes for any two draws have the same length |
| Walk.RouteReplays | lib/src/routine.rs:98-119 | a mileage longer than the open polyline makes the walk go past the last vertex and start over from the first |
| Walk.RouteNearVertices | lib/src/routine.rs:106-109 | every emitted coordinate lies in the half-open jitter box around its vertex |
| Routine.GetRoutine | lib/src/routine.rs:77-120 | fails exactly when the GeoJSON is not walkable, with the first failing check's error; otherwise returns the route over the converted vertices, each point within 5e-6 of its vertex on both axes |
| LegacyRoutine.RowPoint | src/account/routine.rs:39-40 | a row gives its point, its CSV error, or the WKT error when it holds no point |
| LegacyRoutine.PointsInFileOrder | src/account/routine.rs:36-42 | the points are collected exactly when every row gives a point, one per row in file order |
| LegacyRoutine.FirstBadRow | src/account/routine.rs:38-42 | the first bad row's error is the result |
| LegacyRoutine.CollectPoints | src/account/routine.rs:36-42 | the loop computes the collected points or the first row error |
| LegacyRoutine.AbortsOnBadRow | src/account/routine.rs:38-42 | after good rows, a bad row decides the result |
| LegacyRoutine.GetRoutine | src/account/routine.rs:16-63 | a read error or a row error is passed on; otherwise returns the route over the file's points, each within 2e-5 in longitude and 1e-5 in latitude of its point |
| Upload.FormatJson | lib/src/lib.rs:66-71 | fails exactly when serialisation fails; otherwise yields the pretty JSON with every `": "` replaced by `" : "`, one byte longer per occurrence, and unchanged when there is none |
| Upload.LoginDigestInput | lib/src/lib.rs:116 | the digest input is the username, then the password, then "1" |
| Upload.LoginDigest | lib/src/lib.rs:116 | 40 hex digits that decode to the SHA-1 of that input followed by the salt |
| Upload.LoginDigestUnseparated | lib/src/lib.rs:116 | username and password are not separated: the same concatenation gives the same digest |
| Upload.Account.constructor | lib/src/lib.rs:93-104 | every limit starts at zero and every text empty |
| Upload.Account.SetRunningLimit | lib/src/lib.rs:298-327 | succeeds exactly when all eight fields are present and both totals parse; a missing field gives "Semester not started yet." with nothing changed; a total that does not parse gives a parse error after the assignments before it; identity fields are never touched |
| Upload.Clamp | lib/src/lib.rs:368-371 | the effective mileage is the least of the request, the daily and weekly allowances left, and the effective maximum |
| Upload.KeepTime | lib/src/lib.rs:381 | the keep time is an i64, and with the draw in range it lies within 15 seconds of `(mileage * 360) as i64` away from the ends of the i64 range |
| Upload.RunFigures | lib/src/lib.rs:368-390 | "too low" exactly when the clamped mileage is below the minimum; "invalid duration" exactly when it is not and the wrapped `keep_time + 8` of the clamp plus the draw lies outside the span `Duration::try_seconds` accepts; otherwise the mileage is the clamp plus the draw, the keep time is `KeepTime` of it, and the run starts `keep_time + 8` seconds before its end |
| Upload.FiguresWithinNoise | lib/src/lib.rs:377-382 | with draws in range, the mileage is 0.001 to 0.02 below the clamp and the keep time within 15 s of `mileage * 360` |
| Numeric.CastI64 | lib/src/lib.rs:381 | `as i64` gives `i64::MAX` at or above it and `i64::MIN` at or below it, and truncates toward zero in between |
| Numeric.WrapI64 | lib/src/lib.rs:381 | i64 wrap-around: the value in range congruent to the exact one |
| Upload.UploadDigestInput | lib/src/lib.rs:392-403 | by position: the mileage text and the byte "1" open the input; the start text follows at offset length-of-mileage + 1; then calorie, average pace, keep time and pace number; the mileage text and "1" close it |
| Upload.UploadDigest | lib/src/lib.rs:392-403 | 40 hex digits decoding to the SHA-1 of that input followed by the salt |
| Upload.Account.SignedRecord | lib/src/lib.rs:405-432 | the built record holds the computed figures, the account's semester, limitation, scoring and version, and the fixed device, system and run type; it is signed exactly when the sign time exists |
| Upload.Account.UploadRunning | lib/src/lib.rs:337-432 | a figure error or a GeoJSON error comes first; after them the upload succeeds exactly when the sign time exists, and fails otherwise with that signing error; a returned record carries the figures, the formatted times, the digest, a route of the uploaded mileage (the clamp plus the draw), the sign time and the `oct` of its abbreviation under the session key |
| Tui.AsU16 | src/pretty_tui.rs:221-228 | `len() as u16` is below 2^16 and exact for short texts |
| Tui.IncU16 | src/pretty_tui.rs:306-316 | `cursorpos += 1` on a u16 stays below 2^16 and is exact below the top |
| Tui.Rank | src/pretty_tui.rs:57-64 | widgets are numbered 0 to 3 in the order Account, Password, Mileage, Time |
| Tui.RankInjective | src/pretty_tui.rs:57-64 | distinct widgets have distinct numbers |
| Tui.MovedIsLinear | src/pretty_tui.rs:377-411 | Down goes one place forward and Up one back, saturating at Time and Account; other keys keep the selection |
| Tui.MovedRoundTrip | src/pretty_tui.rs:377-411 | Down then Up returns except from Time; Up then Down returns except from Account |
| Tui.NormalStep | src/pretty_tui.rs:201-231 | the `handle_normal` transition: normal mode never changes the texts or the gauge, and can only switch the mode to editing |
| Tui.EnterEditing | src/pretty_tui.rs:221-228 | editing mode, cursor at the account's or password's length for those widgets and 0 otherwise, all else unchanged |
| Tui.NormalQuitKeys | src/pretty_tui.rs:201-212 | the loop ends exactly on Esc or 'q', which change nothing |
| Tui.NormalConsistent | src/pretty_tui.rs:201-231 | normal-mode keys keep the cursor in u16 range, the percentage in [0, 100] and, on entering editing, the cursor inside the edited text |
| Tui.EditingConsistent | src/pretty_tui.rs:235-374 | editing keys keep those invariants: the cursor never passes the text's length |
| Tui.EditingStep | src/pretty_tui.rs:235-374 | the `handle_editing` transition: Esc, and Enter on the time widget, return to normal mode and every other key keeps the mode; a key edits only the selected text, and only the gauge widget changes the percentage |
| Tui.SubmitOnTime | src/pretty_tui.rs:241-265 | a submission is returned exactly on Enter on the time widget; it holds account, password, percentage and time, and the mode returns to Normal |
| Tui.GaugeSaturates | src/pretty_tui.rs:317-357 | on the mileage gauge, 'h' and Left decrease and 'l' and Right increase the percentage, saturating at 0 and 100; other keys keep it |
| Tui.TypedAtCursor | src/pretty_tui.rs:306-337 | on the account, password or time, a typed character is inserted at the cursor of the selected text and the cursor advances; the other texts, the mode, the selection and the gauge are unchanged |
| Tui.BackspaceDeletes | src/pretty_tui.rs:282-305 | Backspace removes the character before the cursor in the account and the time, but the last character of the password; on a text widget the cursor moves back by one |
| Tui.BackspaceIgnoresPasswordCursor | src/pretty_tui.rs:290-296 | with password "ab" and the cursor after "a", Backspace leaves "a" |
| Tui.UnmatchedKeysInert | src/pretty_tui.rs:230-373 | keys without an arm change nothing: in normal mode Tab, Backspace, Left, Right and every character but q, j, k, i and a; in editing mode Up and Down, and on the gauge Tab, Backspace and characters other than h and l |
| Tui.Tui.constructor | src/pretty_tui.rs:91-107 | empty texts, cursor 0, Normal mode, 100 %, the current time text, Account selected |
| Tui.Tui.Select | src/pretty_tui.rs:377-411 | only the selection changes, by the linear order |
| Tui.Tui.HandleNormal | src/pretty_tui.rs:201-231 | the new fields and the quit flag are the normal-mode step |
| Tui.Tui.StartEditing | src/pretty_tui.rs:221-228 | the new fields enter editing as `EnterEditing` states |
| Tui.Tui.HandleEditing | src/pretty_tui.rs:235-374 | the new fields and the submission are the editing step |
| Uploader.Split | tauri-app/src/components/Uploader.tsx:42 | `split(",")`: at least one piece, none holding the separator |
| Uploader.SplitJoin | tauri-app/src/components/Uploader.tsx:42 | joining the pieces with the separator gives the text back |
| Uploader.SplitWithoutSeparator | tauri-app/src/components/Uploader.tsx:42 | text without a comma is a single piece |
| Uploader.TrimStart | tauri-app/src/components/Uploader.tsx:42 | removes exactly the leading JavaScript white space |
| Uploader.TrimEnd | tauri-app/src/components/Uploader.tsx:42 | removes exactly the trailing JavaScript white space |
| Uploader.TrimmedAlready | tauri-app/src/components/Uploader.tsx:42 | trimming text without white space at either end changes nothing |
| Uploader.RemoveFirstStar | tauri-app/src/components/Uploader.tsx:48 | `replace("*", "")` removes one star if there is one and otherwise changes nothing |
| Uploader.RemoveStarAt | tauri-app/src/components/Uploader.tsx:48 | the star removed is the first one |
| Uploader.EntryMatches | tauri-app/src/components/Uploader.tsx:44-49 | the match of one trimmed entry: the empty entry matches every file; an entry without a leading dot or a star matches exactly the MIME types it prefixes |
| Uploader.SomeIsExists | tauri-app/src/components/Uploader.tsx:43 | `some` is true exactly when some piece matches |
| Uploader.ValidateFileType | tauri-app/src/components/Uploader.tsx:40-54 | without an accept list, or with an empty one, every file is valid |
| Uploader.ValidIffSomeEntry | tauri-app/src/components/Uploader.tsx:42-51 | with a non-empty list, a file is valid exactly when some trimmed comma-separated entry matches it |
| Uploader.SingleEntry | tauri-app/src/components/Uploader.tsx:42-51 | a list of one trimmed entry accepts exactly what the entry matches |
| Uploader.LastPieceAfterComma | tauri-app/src/components/Uploader.tsx:42 | the piece after a final comma is empty |
| Uploader.EmptyEntryAcceptsAll | tauri-app/src/components/Uploader.tsx:42-49 | a list ending in a comma accepts every file, since the empty entry prefixes every MIME type |
| Uploader.StarPatterns | tauri-app/src/components/Uploader.tsx:47-49 | "image/*" matches "image/png", but "*/*" loses only its first star and does not match "application/geo+json" |
| Uploader.ExtensionCaseSensitive | tauri-app/src/components/Uploader.tsx:44-46 | ".geojson" matches "map.geojson" but not "map.GEOJSON" |
| Uploader.UploaderState.constructor | tauri-app/src/components/Uploader.tsx:33-38 | no file, not dragging, nothing logged |
| Uploader.UploaderState.OnChange | tauri-app/src/components/Uploader.tsx:56-61 | the first selected file is stored without validation; an empty list keeps the old file |
| Uploader.UploaderState.OnDrop | tauri-app/src/components/Uploader.tsx:63-74 | dragging ends; a valid first file is stored; an invalid one keeps the old file and logs "Invalid file type!" when there is a logger |
| Uploader.UploaderState.OnDragOver | tauri-app/src/components/Uploader.tsx:76-79 | dragging starts |
| Uploader.UploaderState.HandleDragLeave | tauri-app/src/components/Uploader.tsx:81-83 | dragging ends |
| Uploader.DropStoresOnlyValid | tauri-app/src/components/Uploader.tsx:63-74 | a drop changes the stored file only to a file that passes validation |

## Left out

- SHA-1 and the AES-128 block function are parameters. `Security.Hs` therefore cannot
  state the digest of "usernamepassword1" from the tests. Likewise `Cipher.Encrypt`
  cannot state the ciphertext of the encrypt/decrypt tests. The round trip of those
  tests is `Security.NsRoundTrip`, and their key is `Security.DynamicKeyExample`.
- Floating point is modelled as exact real arithmetic: f64 rounding in the mileage
  sums, the clamp, the figures and the jitter is not captured.
- The f64 `Display` used in the digest is a parameter (`showF64`).
- The GCJ-02 offset (`transform_lat`/`transform_lon`) is the `Offset` parameter. It is
  applied only inside the box, as the source does.
- Geodesic distance is a parameter, assumed non-negative and zero from a point to
  itself.
- Random draws are parameters constrained to their half-open ranges.
- Parsing and formatting are parameters or pre-parsed inputs: GeoJSON, CSV, WKT, the
  serde JSON serialisation of `Oct` and of the request, the f64 `parse`, and chrono's
  parsing and local-time formatting (`LocalClock`, `format`).
- Reading the routine file and the embedded `DEFAULT_ROUTINE` CSV is I/O: the legacy
  `GetRoutine` takes the read result (`file`) instead.
- The network is left out: `login`, `set_token`, `set_current`, `set_version` and the
  HTTP parts of `set_running_limit` and `upload_running` (headers, requests, responses,
  logging). Only the login digest and the field assignments are modelled.
- Walk.WalkRoute, Routine.GetRoutine and LegacyRoutine.GetRoutine require that the walk
  ends: a positive mileage with a cycle of length zero loops forever in the source.
  `Walk.NoRouteWithoutTermination` shows that no route exists then.
- LegacyRoutine.GetRoutine requires at least one point when the rows parse: the source
  loops forever on an empty file.
- Upload.RunFigures wraps i64 overflow around, as a release build does. A debug build
  panics instead, so the two differ only on overflow.
- Upload.RunFigures does not model the `DateTime` subtraction overflowing the date
  range. Only `Duration::try_seconds` is checked.
- Security.SignTimeText takes chrono's local-time lookups as a parameter, so an
  ambiguous or missing local time is whatever that parameter says.
- Cipher.Decrypt returns the decrypted bytes: `String::from_utf8_lossy` is the
  identity on valid UTF-8 and its replacement of invalid sequences is not modelled.
- Security.DynamicKey requires its slices to be in bounds and on character
  boundaries, where the source panics. The same holds for Security.RnKey.
- Tui.EditingStep reads the texts as characters, so byte offsets equal character
  offsets only for ASCII. With multi-byte input the source's `insert`/`remove` can
  panic; the model requires the cursor to be inside the text instead.
- Rendering, the terminal backend and the logger are left out of the TUI model.
- In the file picker, `event.preventDefault()` and the DOM rendering are left out.
  A missing file list is modelled as an empty one. The optional logger is the
  `hasLogger` flag. JavaScript strings are modelled as sequences of code points.
