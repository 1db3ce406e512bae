/**
  The encoded transport of a PowerShell run line: the printer that wraps a line as
  `-EncodedCommand <base64 of UTF-16LE>` and the parser that makes such an argument list
  readable again.  Base64 is section 4 of RFC 4648, UTF-16 sections 2.1 and 2.2 of RFC 2781.
 */
module EncodedTransport {
  import opened Options
  import opened Basics
  import RunLineScanner

  // ---------------------------------------------------------------------------
  // UTF-16, little endian
  // ---------------------------------------------------------------------------

  function UnitBytes(u: int): seq<Byte>
    requires 0 <= u < 0x10000
  {
    [u % 256, u / 256]
  }

  function Utf16OfChar(c: char): seq<Byte> {
    var n := c as int;
    if n < 0x10000 then UnitBytes(n)
    else UnitBytes(0xD800 + (n - 0x10000) / 0x400) + UnitBytes(0xDC00 + (n - 0x10000) % 0x400)
  }

  function Utf16(s: string): seq<Byte> {
    if s == [] then [] else Utf16OfChar(s[0]) + Utf16(s[1..])
  }

  function UnitAt(b: seq<Byte>): int
    requires |b| >= 2
  {
    b[0] as int + 256 * (b[1] as int)
  }

  function FromUtf16(b: seq<Byte>): Option<string>
    decreases |b|
  {
    if b == [] then Some([])
    else if |b| == 1 then None
    else
      var u := UnitAt(b);
      if 0xD800 <= u < 0xDC00 then
        if |b| < 4 || !(0xDC00 <= UnitAt(b[2..]) < 0xE000) then None
        else Prepend((0x10000 + (u - 0xD800) * 0x400 + (UnitAt(b[2..]) - 0xDC00)) as char, FromUtf16(b[4..]))
      else if 0xDC00 <= u < 0xE000 then None
      else Prepend(u as char, FromUtf16(b[2..]))
  }

  function Prepend<T>(x: T, rest: Option<seq<T>>): Option<seq<T>> {
    if rest.None? then None else Some([x] + rest.value)
  }

  lemma UnitRoundTrip(u: int, tail: seq<Byte>)
    requires 0 <= u < 0x10000
    ensures UnitAt(UnitBytes(u) + tail) == u
  {
  }

  lemma {:induction false} Utf16RoundTrip(s: string)
    ensures FromUtf16(Utf16(s)) == Some(s)
  {
    if s != [] {
      Utf16RoundTrip(s[1..]);
      CharRoundTrip(s[0], Utf16(s[1..]));
      assert [s[0]] + s[1..] == s;
    }
  }

  lemma CharRoundTrip(c: char, tail: seq<Byte>)
    ensures FromUtf16(Utf16OfChar(c) + tail) == Prepend(c, FromUtf16(tail))
  {
    var n := c as int;
    var b := Utf16OfChar(c) + tail;
    if n < 0x10000 {
      UnitRoundTrip(n, tail);
      assert b[2..] == tail;
    } else {
      var hi, lo := 0xD800 + (n - 0x10000) / 0x400, 0xDC00 + (n - 0x10000) % 0x400;
      assert b == UnitBytes(hi) + (UnitBytes(lo) + tail);
      UnitRoundTrip(hi, UnitBytes(lo) + tail);
      assert b[2..] == UnitBytes(lo) + tail;
      UnitRoundTrip(lo, tail);
      assert b[4..] == tail;
    }
  }

  lemma {:induction false} Utf16IsEven(s: string)
    ensures |Utf16(s)| % 2 == 0
  {
    if s != [] { Utf16IsEven(s[1..]); }
  }

  // ---------------------------------------------------------------------------
  // Base64
  // ---------------------------------------------------------------------------

  type Sextet = v: int | 0 <= v < 64

  function Digit(v: Sextet): char {
    if v < 26 then ('A' as int + v) as char
    else if v < 52 then ('a' as int + (v - 26)) as char
    else if v < 62 then ('0' as int + (v - 52)) as char
    else if v == 62 then '+' else '/'
  }

  function Value(c: char): Option<Sextet> {
    if 'A' <= c <= 'Z' then Some(c as int - 'A' as int)
    else if 'a' <= c <= 'z' then Some(c as int - 'a' as int + 26)
    else if '0' <= c <= '9' then Some(c as int - '0' as int + 52)
    else if c == '+' then Some(62)
    else if c == '/' then Some(63)
    else None
  }

  lemma DigitRoundTrip(v: Sextet)
    ensures Value(Digit(v)) == Some(v) && Digit(v) != '='
  {
  }

  /** One, two or three bytes as four characters. */
  function Group(b: seq<Byte>): (g: string)
    requires 1 <= |b| <= 3
    ensures |g| == 4
  {
    var y, z := if |b| > 1 then b[1] else 0, if |b| > 2 then b[2] else 0;
    [Digit(b[0] / 4), Digit(b[0] % 4 * 16 + y / 16),
     if |b| > 1 then Digit(y % 16 * 4 + z / 64) else '=',
     if |b| > 2 then Digit(z % 64) else '=']
  }

  /** The length is what the payload cap is compared with. */
  function Base64(b: seq<Byte>): (s: string)
    ensures |s| == 4 * ((|b| + 2) / 3)
  {
    if b == [] then "" else if |b| <= 3 then Group(b) else Group(b[..3]) + Base64(b[3..])
  }

  /** The bytes of one group; only the last group may be padded. */
  function FromGroup(g: string, last: bool): Option<seq<Byte>>
    requires |g| == 4
  {
    var v0, v1, v2, v3 := Value(g[0]), Value(g[1]), Value(g[2]), Value(g[3]);
    if v0.None? || v1.None? then None
    else if last && g[2] == '=' && g[3] == '=' then Some([v0.value * 4 + v1.value / 16])
    else if v2.None? then None
    else if last && g[3] == '=' then Some([v0.value * 4 + v1.value / 16, v1.value % 16 * 16 + v2.value / 4])
    else if v3.None? then None
    else Some([v0.value * 4 + v1.value / 16, v1.value % 16 * 16 + v2.value / 4, v2.value % 4 * 64 + v3.value])
  }

  /** Strict decoding: full groups, padding only at the end, nothing outside the alphabet. */
  function FromBase64(s: string): Option<seq<Byte>>
    decreases |s|
  {
    if s == [] then Some([])
    else if |s| < 4 then None
    else
      var group := FromGroup(s[..4], |s| == 4);
      var rest := FromBase64(s[4..]);
      if group.None? || rest.None? then None else Some(group.value + rest.value)
  }

  lemma FirstByte(x: Byte, y: int)
    requires 0 <= y < 16
    ensures x / 4 < 64 && x % 4 * 16 + y < 64
    ensures x / 4 * 4 + (x % 4 * 16 + y) / 16 == x && (x % 4 * 16 + y) % 16 == y
  {
  }

  lemma SecondByte(y: Byte, z: int)
    requires 0 <= z < 4
    ensures y % 16 * 4 + z < 64
    ensures y / 16 * 16 + (y % 16 * 4 + z) / 4 == y && (y % 16 * 4 + z) % 4 == z
  {
  }

  /** Four sextets that spell three bytes (or the first one or two of them) decode to these. */
  lemma DigitsDecode(v0: Sextet, v1: Sextet, v2: Sextet, v3: Sextet, x: int, y: int, z: int, last: bool)
    requires v0 * 4 + v1 / 16 == x && v1 % 16 * 16 + v2 / 4 == y && v2 % 4 * 64 + v3 == z
    ensures FromGroup([Digit(v0), Digit(v1), '=', '='], true) == Some([x])
    ensures FromGroup([Digit(v0), Digit(v1), Digit(v2), '='], true) == Some([x, y])
    ensures FromGroup([Digit(v0), Digit(v1), Digit(v2), Digit(v3)], last) == Some([x, y, z])
  {
    DigitRoundTrip(v0);
    DigitRoundTrip(v1);
    DigitRoundTrip(v2);
    DigitRoundTrip(v3);
  }

  /** The sextets of three bytes. */
  lemma Sextets(x: Byte, y: Byte, z: Byte) returns (v0: Sextet, v1: Sextet, v2: Sextet, v3: Sextet)
    ensures v0 == x / 4 && v1 == x % 4 * 16 + y / 16 && v2 == y % 16 * 4 + z / 64 && v3 == z % 64
    ensures v0 * 4 + v1 / 16 == x && v1 % 16 * 16 + v2 / 4 == y && v2 % 4 * 64 + v3 == z
  {
    FirstByte(x, y / 16);
    SecondByte(y, z / 64);
    v0, v1, v2, v3 := x / 4, x % 4 * 16 + y / 16, y % 16 * 4 + z / 64, z % 64;
  }

  lemma OneByteRoundTrip(x: Byte)
    ensures FromGroup(Group([x]), true) == Some([x])
  {
    var v0, v1, v2, v3 := Sextets(x, 0, 0);
    DigitsDecode(v0, v1, v2, v3, x, 0, 0, true);
    assert Group([x]) == [Digit(v0), Digit(v1), '=', '='];
  }

  lemma TwoByteRoundTrip(x: Byte, y: Byte)
    ensures FromGroup(Group([x, y]), true) == Some([x, y])
  {
    var v0, v1, v2, v3 := Sextets(x, y, 0);
    DigitsDecode(v0, v1, v2, v3, x, y, 0, true);
    assert Group([x, y]) == [Digit(v0), Digit(v1), Digit(v2), '='];
  }

  lemma ThreeByteRoundTrip(x: Byte, y: Byte, z: Byte, last: bool)
    ensures FromGroup(Group([x, y, z]), last) == Some([x, y, z])
  {
    var v0, v1, v2, v3 := Sextets(x, y, z);
    DigitsDecode(v0, v1, v2, v3, x, y, z, last);
    assert Group([x, y, z]) == [Digit(v0), Digit(v1), Digit(v2), Digit(v3)];
  }

  lemma GroupRoundTrip(b: seq<Byte>, last: bool)
    requires 1 <= |b| <= 3 && (|b| < 3 ==> last)
    ensures FromGroup(Group(b), last) == Some(b)
  {
    if |b| == 1 {
      assert b == [b[0]];
      OneByteRoundTrip(b[0]);
    } else if |b| == 2 {
      assert b == [b[0], b[1]];
      TwoByteRoundTrip(b[0], b[1]);
    } else {
      assert b == [b[0], b[1], b[2]];
      ThreeByteRoundTrip(b[0], b[1], b[2], last);
    }
  }

  lemma {:induction false} Base64RoundTrip(b: seq<Byte>)
    ensures FromBase64(Base64(b)) == Some(b)
    decreases |b|
  {
    if b != [] {
      var head, tail := if |b| <= 3 then b else b[..3], if |b| <= 3 then [] else b[3..];
      GroupRoundTrip(head, tail == []);
      Base64RoundTrip(tail);
      var s := Base64(b);
      assert s[..4] == Group(head) && s[4..] == Base64(tail);
      assert head + tail == b;
    }
  }

  // ---------------------------------------------------------------------------
  // The printer
  // ---------------------------------------------------------------------------

  const SAVE_STATUS := "\n$__wt_ok = $?\n"
  const SAVE_CODE := "$__wt_rc = Get-Variable "
  const SAVE_CODE_NAME := "-Name LASTEXITCODE "
  const SAVE_CODE_SCOPE := "-Scope Global -ValueOnly "
  const SAVE_CODE_QUIET := "-ErrorAction "
  const SAVE_CODE_END := "SilentlyContinue\n"
  const PASS := "if ($__wt_ok) { exit 0 }\n"
  const FAIL_TEST := "if ($null -ne $__wt_rc "
  const FAIL_TEST_END := "-and $__wt_rc -ne 0) "
  const FAIL_CODE := "{ exit $__wt_rc }\n"
  const FAIL := "exit 1\n"

  /** _PS_EXIT_CODE_EPILOGUE. */
  const EPILOGUE: string :=
    SAVE_STATUS + (SAVE_CODE + SAVE_CODE_NAME + SAVE_CODE_SCOPE + SAVE_CODE_QUIET + SAVE_CODE_END)
    + PASS + (FAIL_TEST + FAIL_TEST_END + FAIL_CODE) + FAIL

  const MAX_PAYLOAD: nat := 65536

  datatype Built = Argv(argv: seq<string>) | Refused(tokens: seq<string>)

  predicate IsPowerShell(shell: seq<string>) {
    shell != [] && (shell[0] == "powershell.exe" || shell[0] == "pwsh")
  }

  function Blob(line: string): string {
    Base64(Utf16(line + EPILOGUE))
  }

  function Prefix(shell: seq<string>): seq<string>
    requires shell != []
  {
    if shell[|shell| - 1] == "-Command" then shell[..|shell| - 1] else shell
  }

  /** `_build_step_command`. */
  function BuildStepCommand(shell: seq<string>, line: string, word: char -> bool): Built {
    if !IsPowerShell(shell) then Argv(shell + [line])
    else
      var tokens := RunLineScanner.Tokens(line, word);
      if tokens != [] then Refused(tokens) else Argv(Prefix(shell) + ["-EncodedCommand", Blob(line)])
  }

  function LowerChar(c: char): char {
    if 'A' <= c <= 'Z' then (c as int + 32) as char else c
  }

  function Lower(s: string): (t: string)
    ensures |t| == |s|
  {
    seq(|s|, i requires 0 <= i < |s| => LowerChar(s[i]))
  }

  /** `_resolve_shell`; nothing for an unknown override. */
  function ResolveShell(step: Option<string>, windows: bool): Option<seq<string>> {
    if step.Some? && step.value != "" then
      var name := Lower(step.value);
      if name == "bash" then Some(["bash", "-c"])
      else if name == "sh" then Some(["sh", "-c"])
      else if name == "pwsh" then Some(["pwsh", "-NoProfile", "-NonInteractive", "-Command"])
      else if name == "powershell" then Some(["powershell.exe", "-NoProfile", "-NonInteractive", "-Command"])
      else None
    else if windows then Some(["powershell.exe", "-NoProfile", "-NonInteractive", "-Command"])
    else Some(["bash", "-c"])
  }

  // ---------------------------------------------------------------------------
  // The parser
  // ---------------------------------------------------------------------------

  predicate IsTextChar(c: char) {
    c == '\t' || c == '\r' || c == '\n' || (c as int >= 0x20 && c as int != 0x7F)
  }

  predicate IsText(s: string) {
    forall i :: 0 <= i < |s| ==> IsTextChar(s[i])
  }

  predicate EndsWith(s: string, tail: string) {
    |s| >= |tail| && s[|s| - |tail|..] == tail
  }

  /** A decoded text without the given epilogue; nothing if it holds a control character. */
  function Plain(text: string, epilogue: string): Option<string> {
    if !IsText(text) then None
    else if EndsWith(text, epilogue) then Some(text[..|text| - |epilogue|])
    else Some(text)
  }

  /** The text of decoded bytes, which must come in whole code units. */
  function TextOfBytes(raw: Option<seq<Byte>>, epilogue: string): Option<string> {
    if raw.None? || |raw.value| % 2 != 0 then None
    else
      var text := FromUtf16(raw.value);
      if text.None? then None else Plain(text.value, epilogue)
  }

  /** The text of a payload without the given epilogue. */
  function TextOf(payload: string, epilogue: string): Option<string> {
    if payload == "" || |payload| > MAX_PAYLOAD then None
    else TextOfBytes(FromBase64(payload), epilogue)
  }

  /** `_try_decode_encoded_command_payload`. */
  function TryDecode(payload: string): Option<string> {
    TextOf(payload, EPILOGUE)
  }

  function StripFlag(s: string): string {
    if s != [] && (s[0] == '-' || s[0] == '/') then StripFlag(s[1..]) else s
  }

  predicate IsEncodedFlag(token: string) {
    var flag := Lower(StripFlag(token));
    flag != "" && (flag <= "encodedcommand" || flag == "ec")
  }

  predicate IsSlash(c: char, windows: bool) {
    c == '/' || (windows && c == '\\')
  }

  /** The first slash at or behind `from`, or the end. */
  function FindSlash(path: string, from: nat): (i: nat)
    ensures i <= |path|
    decreases |path| - from
  {
    if from >= |path| then |path| else if IsSlash(path[from], true) then from else FindSlash(path, from + 1)
  }

  predicate IsLongUnc(path: string) {
    && |path| >= 8 && IsSlash(path[0], true) && IsSlash(path[1], true) && path[2] == '?' && IsSlash(path[3], true)
    && Lower(path[4..7]) == "unc" && IsSlash(path[7], true)
  }

  /** The path behind a UNC share or a drive letter; a colon anywhere else is an ordinary character. */
  function WithoutDrive(path: string): string {
    if |path| >= 2 && IsSlash(path[0], true) && IsSlash(path[1], true) then
      path[FindSlash(path, FindSlash(path, if IsLongUnc(path) then 8 else 2) + 1)..]
    else if |path| >= 2 && path[1] == ':' then path[2..]
    else path
  }

  function AfterLastSlash(path: string, windows: bool): string
    decreases |path|
  {
    if path == [] || IsSlash(path[|path| - 1], windows) then []
    else AfterLastSlash(path[..|path| - 1], windows) + [path[|path| - 1]]
  }

  /** os.path.basename of the platform. */
  function Basename(path: string, windows: bool): string {
    AfterLastSlash(if windows then WithoutDrive(path) else path, windows)
  }

  predicate IsInterpreterName(name: string) {
    name == "powershell.exe" || name == "powershell" || name == "pwsh.exe" || name == "pwsh"
  }

  /** The readable form of the token behind `flag`, if the two are a flag and a genuine payload. */
  function DecodePair(flag: string, payload: string): Option<string> {
    if IsEncodedFlag(flag) then TryDecode(payload) else None
  }

  type Decoder = (string, string) -> Option<string>

  /** The argument list from index `i` on, with every payload that `decode` knows made readable. */
  function Readable(args: seq<string>, i: nat, decode: Decoder): seq<string>
    requires i <= |args|
    decreases |args| - i
  {
    if i + 1 >= |args| then args[i..]
    else
      var text := decode(args[i], args[i + 1]);
      if text.Some? then [args[i], text.value] + Readable(args, i + 2, decode)
      else [args[i]] + Readable(args, i + 1, decode)
  }

  predicate AnyDecoded(args: seq<string>, i: nat, decode: Decoder)
    decreases |args| - i
  {
    i + 1 < |args| && (decode(args[i], args[i + 1]).Some? || AnyDecoded(args, i + 1, decode))
  }

  predicate IsPowerShellCall(cmdline: seq<string>, windows: bool) {
    cmdline != [] && IsInterpreterName(Lower(Basename(cmdline[0], windows)))
  }

  /** `_decode_encoded_command`: the payloads are replaced in place, left to right. */
  method DecodeEncodedCommand(cmdline: seq<string>, windows: bool) returns (argv: seq<string>, changed: bool)
    ensures !IsPowerShellCall(cmdline, windows) ==> argv == cmdline && !changed
    ensures IsPowerShellCall(cmdline, windows) ==>
      argv == [cmdline[0]] + Readable(cmdline, 1, DecodePair) && changed == AnyDecoded(cmdline, 1, DecodePair)
  {
    if !IsPowerShellCall(cmdline, windows) {
      argv, changed := cmdline, false;
    } else {
      argv, changed := ReplacePayloads(cmdline, DecodePair);
    }
  }

  method ReplacePayloads(cmdline: seq<string>, decode: Decoder) returns (argv: seq<string>, changed: bool)
    requires cmdline != []
    ensures argv == [cmdline[0]] + Readable(cmdline, 1, decode) && changed == AnyDecoded(cmdline, 1, decode)
  {
    argv, changed := cmdline, false;
    var i := 1;
    assert argv[..1] == [cmdline[0]];
    while i < |argv| - 1
      invariant 1 <= i <= |argv| == |cmdline|
      invariant forall k :: i <= k < |argv| ==> argv[k] == cmdline[k]
      invariant argv[..i] + Readable(cmdline, i, decode) == [cmdline[0]] + Readable(cmdline, 1, decode)
      invariant (changed || AnyDecoded(cmdline, i, decode)) == AnyDecoded(cmdline, 1, decode)
      decreases |argv| - i
    {
      ghost var before := argv;
      var decoded := decode(argv[i], argv[i + 1]);
      if decoded.Some? {
        argv := argv[i + 1 := decoded.value];
        changed := true;
        assert argv[..i + 2] == before[..i] + [argv[i], argv[i + 1]];
        i := i + 2;
      } else {
        assert argv[..i + 1] == before[..i] + [argv[i]];
        i := i + 1;
      }
    }
    assert argv[..i] + cmdline[i..] == argv;
  }

  // ---------------------------------------------------------------------------
  // The round trip
  // ---------------------------------------------------------------------------

  lemma TextOfConcat(s: string, t: string)
    ensures IsText(s + t) <==> IsText(s) && IsText(t)
  {
    if IsText(s + t) {
      forall i | 0 <= i < |s| ensures IsTextChar(s[i]) { assert (s + t)[i] == s[i]; }
      forall i | 0 <= i < |t| ensures IsTextChar(t[i]) { assert (s + t)[|s| + i] == t[i]; }
    }
  }

  lemma SaveWordsAreText()
    ensures IsText(SAVE_CODE) && IsText(SAVE_CODE_NAME) && IsText(SAVE_CODE_SCOPE)
  {
  }

  lemma SaveCodeIsText()
    ensures IsText(SAVE_CODE + SAVE_CODE_NAME + SAVE_CODE_SCOPE + SAVE_CODE_QUIET + SAVE_CODE_END)
  {
    SaveWordsAreText();
    assert IsText(SAVE_CODE_QUIET) && IsText(SAVE_CODE_END);
    TextOfConcat(SAVE_CODE, SAVE_CODE_NAME);
    TextOfConcat(SAVE_CODE + SAVE_CODE_NAME, SAVE_CODE_SCOPE);
    TextOfConcat(SAVE_CODE + SAVE_CODE_NAME + SAVE_CODE_SCOPE, SAVE_CODE_QUIET);
    TextOfConcat(SAVE_CODE + SAVE_CODE_NAME + SAVE_CODE_SCOPE + SAVE_CODE_QUIET, SAVE_CODE_END);
  }

  lemma FailIsText()
    ensures IsText(FAIL_TEST + FAIL_TEST_END + FAIL_CODE) && IsText(FAIL)
  {
    assert IsText(FAIL_TEST) && IsText(FAIL_TEST_END) && IsText(FAIL_CODE);
  }

  lemma EpilogueIsText()
    ensures IsText(EPILOGUE) && EPILOGUE != ""
  {
    SaveCodeIsText();
    FailIsText();
    var code := SAVE_CODE + SAVE_CODE_NAME + SAVE_CODE_SCOPE + SAVE_CODE_QUIET + SAVE_CODE_END;
    var fail := FAIL_TEST + FAIL_TEST_END + FAIL_CODE;
    assert IsText(SAVE_STATUS) && IsText(PASS);
    TextOfConcat(SAVE_STATUS, code);
    TextOfConcat(SAVE_STATUS + code, PASS);
    TextOfConcat(SAVE_STATUS + code + PASS, fail);
    TextOfConcat(SAVE_STATUS + code + PASS + fail, FAIL);
    assert |SAVE_STATUS| > 0;
  }

  /** What a caller can check before the call: the line is plain text and its payload fits the cap. */
  predicate Transportable(line: string) {
    IsText(line) && 4 * ((|Utf16(line + EPILOGUE)| + 2) / 3) <= MAX_PAYLOAD
  }

  lemma StripsExactly(s: string, t: string)
    ensures EndsWith(s + t, t) && (s + t)[..|s + t| - |t|] == s
  {
    assert (s + t)[|s|..] == t;
  }

  lemma TextOfPayload(payload: string, raw: seq<Byte>, text: string, epilogue: string)
    requires FromBase64(payload) == Some(raw) && |raw| % 2 == 0 && FromUtf16(raw) == Some(text)
    requires EndsWith(text, epilogue) && payload != ""
    ensures TextOf(payload, epilogue) ==
            if |payload| <= MAX_PAYLOAD && IsText(text) then Some(text[..|text| - |epilogue|]) else None
  {
  }

  lemma PrintedRoundTrip(line: string, epilogue: string)
    requires IsText(epilogue) && epilogue != ""
    ensures TextOf(Base64(Utf16(line + epilogue)), epilogue) ==
            if IsText(line) && 4 * ((|Utf16(line + epilogue)| + 2) / 3) <= MAX_PAYLOAD then Some(line) else None
  {
    var raw := Utf16(line + epilogue);
    Base64RoundTrip(raw);
    Utf16RoundTrip(line + epilogue);
    Utf16IsEven(line + epilogue);
    TextOfConcat(line, epilogue);
    StripsExactly(line, epilogue);
    assert raw != [] by { assert line + epilogue != ""; }
    TextOfPayload(Base64(raw), raw, line + epilogue, epilogue);
  }

  /** Decoding a printed payload gives the line back, without its epilogue, exactly for transportable lines. */
  lemma BlobRoundTrip(line: string)
    ensures TryDecode(Blob(line)) == if Transportable(line) then Some(line) else None
  {
    EpilogueIsText();
    PrintedRoundTrip(line, EPILOGUE);
  }

  lemma EncodedFlag()
    ensures IsEncodedFlag("-EncodedCommand")
  {
    assert StripFlag("-EncodedCommand") == "EncodedCommand";
    assert Lower("EncodedCommand") == "encodedcommand";
  }

  lemma OtherFlags()
    ensures !IsEncodedFlag("-NoProfile") && !IsEncodedFlag("-NonInteractive")
  {
    assert StripFlag("-NoProfile") == "NoProfile";
    assert Lower("NoProfile")[0] == 'n' && "encodedcommand"[0] == 'e';
    assert StripFlag("-NonInteractive") == "NonInteractive";
    assert Lower("NonInteractive")[0] == 'n';
  }

  lemma {:induction false} BasenameOfPlain(name: string, windows: bool)
    requires forall i :: 0 <= i < |name| ==> name[i] != '/' && name[i] != '\\'
    ensures AfterLastSlash(name, windows) == name
    ensures |name| < 2 || name[1] != ':' ==> Basename(name, windows) == name
    decreases |name|
  {
    if name != [] {
      BasenameOfPlain(name[..|name| - 1], windows);
    }
  }

  lemma ShellNamesRecognised(windows: bool)
    ensures IsInterpreterName(Lower(Basename("powershell.exe", windows)))
    ensures IsInterpreterName(Lower(Basename("pwsh", windows)))
  {
    BasenameOfPlain("powershell.exe", windows);
    BasenameOfPlain("pwsh", windows);
    assert Lower("powershell.exe") == "powershell.exe";
    assert Lower("pwsh") == "pwsh";
  }

  /** The argument list that the printer makes from a PowerShell prefix. */
  function Printed(host: string, blob: string): seq<string> {
    [host, "-NoProfile", "-NonInteractive", "-EncodedCommand", blob]
  }

  /** Only the argument behind the one flag that `decode` accepts can change. */
  lemma ReadableAroundFlag(argv: seq<string>, decode: Decoder)
    requires |argv| == 5 && decode(argv[1], argv[2]).None? && decode(argv[2], argv[3]).None?
    ensures Readable(argv, 1, decode) == argv[1..4] + [decode(argv[3], argv[4]).GetOr(argv[4])]
    ensures AnyDecoded(argv, 1, decode) == decode(argv[3], argv[4]).Some?
  {
    assert Readable(argv, 5, decode) == [] && Readable(argv, 4, decode) == [argv[4]];
    assert Readable(argv, 3, decode) == [argv[3], decode(argv[3], argv[4]).GetOr(argv[4])];
    assert Readable(argv, 2, decode) == [argv[2]] + Readable(argv, 3, decode);
    assert !AnyDecoded(argv, 4, decode);
    assert AnyDecoded(argv, 3, decode) == decode(argv[3], argv[4]).Some?;
    assert AnyDecoded(argv, 2, decode) == AnyDecoded(argv, 3, decode);
  }

  lemma ReadableOfPrinted(host: string, blob: string)
    ensures [host] + Readable(Printed(host, blob), 1, DecodePair) == Printed(host, TryDecode(blob).GetOr(blob))
    ensures AnyDecoded(Printed(host, blob), 1, DecodePair) == TryDecode(blob).Some?
  {
    EncodedFlag();
    OtherFlags();
    ReadableAroundFlag(Printed(host, blob), DecodePair);
  }

  lemma PrintedByBuild(step: Option<string>, windows: bool, line: string, word: char -> bool)
    requires ResolveShell(step, windows).Some? && IsPowerShell(ResolveShell(step, windows).value)
    requires RunLineScanner.Tokens(line, word) == []
    ensures var host := ResolveShell(step, windows).value[0];
      && BuildStepCommand(ResolveShell(step, windows).value, line, word) == Argv(Printed(host, Blob(line)))
      && IsInterpreterName(Lower(Basename(host, windows)))
  {
    ShellNamesRecognised(windows);
    var shell := ResolveShell(step, windows).value;
    assert shell == [shell[0], "-NoProfile", "-NonInteractive", "-Command"];
    assert Prefix(shell) == [shell[0], "-NoProfile", "-NonInteractive"];
    assert Prefix(shell) + ["-EncodedCommand", Blob(line)] == Printed(shell[0], Blob(line));
  }

  /**
    The whole transport: for every PowerShell prefix that _resolve_shell can give and every
    run line that is not refused, decoding the built argument list gives the prefix, the flag
    and the original line if and only if the line is transportable; otherwise nothing changes.
   */
  lemma TransportRoundTrip(step: Option<string>, windows: bool, line: string, word: char -> bool)
    requires ResolveShell(step, windows).Some? && IsPowerShell(ResolveShell(step, windows).value)
    requires RunLineScanner.Tokens(line, word) == []
    ensures var host := ResolveShell(step, windows).value[0];
      var built := BuildStepCommand(ResolveShell(step, windows).value, line, word);
      && built.Argv? && IsPowerShellCall(built.argv, windows) && built.argv[0] == host
      && var decoded := [host] + Readable(built.argv, 1, DecodePair);
      && (decoded == Printed(host, line) <==> Transportable(line))
      && (!Transportable(line) ==> decoded == built.argv)
      && (AnyDecoded(built.argv, 1, DecodePair) <==> Transportable(line))
  {
    PrintedByBuild(step, windows, line, word);
    var host := ResolveShell(step, windows).value[0];
    ReadableOfPrinted(host, Blob(line));
    BlobRoundTrip(line);
    BlobIsNotLine(line);
    var text := TryDecode(Blob(line)).GetOr(Blob(line));
    assert Printed(host, text)[4] == text && Printed(host, line)[4] == line;
  }

  /** The payload is always longer than the line it carries. */
  lemma BlobIsNotLine(line: string)
    ensures |Blob(line)| > |line|
  {
    var text := line + EPILOGUE;
    Utf16Grows(text);
    EpilogueIsText();
  }

  lemma {:induction false} Utf16Grows(s: string)
    ensures |Utf16(s)| >= 2 * |s|
  {
    if s != [] { Utf16Grows(s[1..]); }
  }

  /** Two run lines are never printed as the same payload. */
  lemma BlobsDiffer(a: string, b: string)
    requires Blob(a) == Blob(b)
    ensures a == b
  {
    Base64RoundTrip(Utf16(a + EPILOGUE));
    Base64RoundTrip(Utf16(b + EPILOGUE));
    Utf16RoundTrip(a + EPILOGUE);
    Utf16RoundTrip(b + EPILOGUE);
    StripsExactly(a, EPILOGUE);
    StripsExactly(b, EPILOGUE);
  }
}
