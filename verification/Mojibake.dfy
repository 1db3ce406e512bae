/**
  The corruption that branch healing undoes: a branch name written as UTF-8 (section 3 of
  RFC 3629) and read back through cp1252 or latin-1.  A stored name determines the live name
  it came from, and healing makes it strictly shorter.
 */
module Mojibake {
  import opened Options
  import opened Basics

  type Codec = Byte -> Option<char>

  // ---------------------------------------------------------------------------
  // UTF-8
  // ---------------------------------------------------------------------------

  function Continuation(n: nat): Byte {
    0x80 + n % 64
  }

  function Utf8OfChar(c: char): (b: seq<Byte>)
    ensures 1 <= |b| <= 4
  {
    var n := c as int;
    if n < 0x80 then [n]
    else if n < 0x800 then [0xC0 + n / 64, Continuation(n)]
    else if n < 0x10000 then [0xE0 + n / 0x1000, Continuation(n / 64), Continuation(n)]
    else [0xF0 + n / 0x40000, Continuation(n / 0x1000), Continuation(n / 64), Continuation(n)]
  }

  function Utf8(s: string): seq<Byte> {
    if s == [] then [] else Utf8OfChar(s[0]) + Utf8(s[1..])
  }

  /** The number of bytes that a first byte announces. */
  function Announced(b: Byte): nat {
    if b < 0xC0 then 1 else if b < 0xE0 then 2 else if b < 0xF0 then 3 else 4
  }

  lemma FirstByteAnnounces(c: char)
    ensures |Utf8OfChar(c)| == Announced(Utf8OfChar(c)[0])
  {
  }

  /** The code point that one encoded character spells out. */
  function CodePoint(b: seq<Byte>): int
    requires 1 <= |b| <= 4
  {
    var b0: int := b[0];
    if |b| == 1 then b0
    else
      var b1: int := b[1];
      if |b| == 2 then (b0 - 0xC0) * 0x40 + (b1 - 0x80)
      else
        var b2: int := b[2];
        if |b| == 3 then (b0 - 0xE0) * 0x1000 + (b1 - 0x80) * 0x40 + (b2 - 0x80)
        else
          var b3: int := b[3];
          (b0 - 0xF0) * 0x40000 + (b1 - 0x80) * 0x1000 + (b2 - 0x80) * 0x40 + (b3 - 0x80)
  }

  lemma SixBitDigits(n: nat)
    ensures n == n / 0x40 * 0x40 + n % 0x40
    ensures n / 0x40 == n / 0x1000 * 0x40 + n / 0x40 % 0x40
    ensures n / 0x1000 == n / 0x40000 * 0x40 + n / 0x1000 % 0x40
  {
  }

  lemma Utf8OfCharSpell(c: char)
    ensures CodePoint(Utf8OfChar(c)) == c as int
  {
    var n := c as int;
    SixBitDigits(n);
    if n >= 0x10000 {
      assert CodePoint(Utf8OfChar(c)) == n / 0x40000 * 0x40000 + n / 0x1000 % 0x40 * 0x1000 + n / 0x40 % 0x40 * 0x40 + n % 0x40;
    } else if n >= 0x800 {
      assert CodePoint(Utf8OfChar(c)) == n / 0x1000 * 0x1000 + n / 0x40 % 0x40 * 0x40 + n % 0x40;
    }
  }

  /** No two texts have the same encoding. */
  lemma {:induction false} Utf8Injective(s: string, t: string)
    requires Utf8(s) == Utf8(t)
    ensures s == t
    decreases |s|
  {
    if s != [] && t != [] {
      var x, y := Utf8OfChar(s[0]), Utf8OfChar(t[0]);
      FirstByteAnnounces(s[0]);
      FirstByteAnnounces(t[0]);
      assert Utf8(s)[0] == x[0] && Utf8(t)[0] == y[0];
      assert x == Utf8(s)[..|x|] && y == Utf8(t)[..|y|];
      Utf8OfCharSpell(s[0]);
      Utf8OfCharSpell(t[0]);
      assert Utf8(s[1..]) == Utf8(s)[|x|..] && Utf8(t[1..]) == Utf8(t)[|y|..];
      Utf8Injective(s[1..], t[1..]);
      assert s == [s[0]] + s[1..] && t == [t[0]] + t[1..];
    }
  }

  // ---------------------------------------------------------------------------
  // The two codecs
  // ---------------------------------------------------------------------------

  /** Windows code page 1252 between 0x80 and 0x9F; 0 where it defines nothing. */
  const HIGH: seq<int> := [
    0x20AC, 0, 0x201A, 0x0192, 0x201E, 0x2026, 0x2020, 0x2021,
    0x02C6, 0x2030, 0x0160, 0x2039, 0x0152, 0, 0x017D, 0,
    0, 0x2018, 0x2019, 0x201C, 0x201D, 0x2022, 0x2013, 0x2014,
    0x02DC, 0x2122, 0x0161, 0x203A, 0x0153, 0, 0x017E, 0x0178]

  function Latin1(b: Byte): Option<char> {
    Some(b as char)
  }

  function Cp1252(b: Byte): Option<char> {
    if !(0x80 <= b < 0xA0) then Some(b as char)
    else if HIGH[b - 0x80] == 0 then None
    else Some(HIGH[b - 0x80] as char)
  }

  /** bytes.decode: fails as soon as one byte is undefined. */
  function Decode(codec: Codec, b: seq<Byte>): Option<string> {
    if b == [] then Some([])
    else
      var c, rest := codec(b[0]), Decode(codec, b[1..]);
      if c.None? || rest.None? then None else Some([c.value] + rest.value)
  }

  /** `_is_utf8_mojibake_of`. */
  predicate IsMojibakeOf(stored: string, live: string) {
    || Decode(Cp1252, Utf8(live)) == Some(stored)
    || Decode(Latin1, Utf8(live)) == Some(stored)
  }

  // ---------------------------------------------------------------------------
  // A stored name has at most one live name
  // ---------------------------------------------------------------------------

  /** The byte that a character came from, whichever of the two codecs read it. */
  function Origin(c: char): int {
    var n := c as int;
    if n < 256 then n else HighOrigin(n, 0)
  }

  function HighOrigin(n: int, i: nat): int
    requires i <= 32
    decreases 32 - i
  {
    if i == 32 then -1 else if HIGH[i] == n then 0x80 + i else HighOrigin(n, i + 1)
  }

  lemma HighEntries()
    ensures forall i :: 0 <= i < 32 ==> HIGH[i] == 0 || 0x100 <= HIGH[i] < 0x3000
  {
  }

  lemma HighDistinct(i: int, j: int)
    requires 0 <= i < j < 32 && HIGH[i] != 0
    ensures HIGH[i] != HIGH[j]
  {
  }

  lemma {:induction false} HighOriginFinds(n: int, i: nat, k: nat)
    requires i <= k < 32 && n == HIGH[k] != 0
    ensures HighOrigin(n, i) == 0x80 + k
    decreases k - i
  {
    if i < k {
      if HIGH[i] != 0 { HighDistinct(i, k); }
      HighOriginFinds(n, i + 1, k);
    }
  }

  predicate IsCodec(codec: Codec) {
    forall b: Byte :: codec(b).Some? ==> Origin(codec(b).value) == b && (b < 0x80 <==> codec(b).value < 0x80 as char)
  }

  lemma BothAreCodecs()
    ensures IsCodec(Cp1252) && IsCodec(Latin1)
  {
    HighEntries();
    forall b: Byte | Cp1252(b).Some?
      ensures Origin(Cp1252(b).value) == b && (b < 0x80 <==> Cp1252(b).value < 0x80 as char)
    {
      if 0x80 <= b < 0xA0 { HighOriginFinds(HIGH[b - 0x80], 0, b - 0x80); }
    }
  }

  function Origins(s: string): seq<int> {
    if s == [] then [] else [Origin(s[0])] + Origins(s[1..])
  }

  lemma {:induction false} DecodeKeepsOrigins(codec: Codec, b: seq<Byte>)
    requires IsCodec(codec) && Decode(codec, b).Some?
    ensures Origins(Decode(codec, b).value) == b && |Decode(codec, b).value| == |b|
  {
    if b != [] {
      DecodeKeepsOrigins(codec, b[1..]);
      assert Decode(codec, b).value[1..] == Decode(codec, b[1..]).value;
    }
  }

  lemma MojibakeOrigins(stored: string, live: string)
    requires IsMojibakeOf(stored, live)
    ensures Origins(stored) == Utf8(live) && |stored| == |Utf8(live)|
  {
    BothAreCodecs();
    if Decode(Cp1252, Utf8(live)) == Some(stored) {
      DecodeKeepsOrigins(Cp1252, Utf8(live));
    } else {
      DecodeKeepsOrigins(Latin1, Utf8(live));
    }
  }

  /** Across both codecs, a stored name is mojibake of at most one live name. */
  lemma MojibakeOfAtMostOne(stored: string, live: string, other: string)
    requires IsMojibakeOf(stored, live) && IsMojibakeOf(stored, other)
    ensures live == other
  {
    MojibakeOrigins(stored, live);
    MojibakeOrigins(stored, other);
    Utf8Injective(live, other);
  }

  // ---------------------------------------------------------------------------
  // Healing shortens
  // ---------------------------------------------------------------------------

  predicate IsAscii(s: string) {
    NonAscii(s) == 0
  }

  /** How many characters lie outside ASCII. */
  function NonAscii(s: string): nat {
    if s == [] then 0 else (if s[0] < 0x80 as char then 0 else 1) + NonAscii(s[1..])
  }

  function HighBytes(b: seq<Byte>): nat {
    if b == [] then 0 else (if b[0] < 0x80 then 0 else 1) + HighBytes(b[1..])
  }

  lemma {:induction false} HighBytesConcat(b: seq<Byte>, d: seq<Byte>)
    ensures HighBytes(b + d) == HighBytes(b) + HighBytes(d)
  {
    if b == [] {
      assert b + d == d;
    } else {
      HighBytesConcat(b[1..], d);
      assert (b + d)[1..] == b[1..] + d;
    }
  }

  lemma Utf8OfCharHigh(c: char)
    ensures c < 0x80 as char ==> |Utf8OfChar(c)| == 1 && HighBytes(Utf8OfChar(c)) == 0
    ensures c >= 0x80 as char ==> HighBytes(Utf8OfChar(c)) == |Utf8OfChar(c)| >= 2
  {
    var b := Utf8OfChar(c);
    if |b| == 2 {
      assert b[1..] == [b[1]] && b[2..] == [];
    } else if |b| == 3 {
      assert b[1..] == [b[1], b[2]] && b[1..][1..] == [b[2]];
      assert HighBytes([b[2]]) == 1;
    } else if |b| == 4 {
      assert b[1..] == [b[1], b[2], b[3]] && b[1..][1..] == [b[2], b[3]] && b[1..][1..][1..] == [b[3]];
      assert HighBytes([b[3]]) == 1;
      assert HighBytes([b[2], b[3]]) == 2;
    }
  }

  lemma {:induction false} Utf8Doubles(s: string)
    ensures HighBytes(Utf8(s)) >= 2 * NonAscii(s)
    ensures |Utf8(s)| - HighBytes(Utf8(s)) == |s| - NonAscii(s)
  {
    if s != [] {
      Utf8Doubles(s[1..]);
      Utf8OfCharHigh(s[0]);
      HighBytesConcat(Utf8OfChar(s[0]), Utf8(s[1..]));
    }
  }

  lemma {:induction false} DecodeKeepsHigh(codec: Codec, b: seq<Byte>)
    requires IsCodec(codec) && Decode(codec, b).Some?
    ensures NonAscii(Decode(codec, b).value) == HighBytes(b)
  {
    if b != [] {
      DecodeKeepsHigh(codec, b[1..]);
      assert Decode(codec, b).value[1..] == Decode(codec, b[1..]).value;
    }
  }

  /** Corrupting a name keeps its ASCII characters and at least doubles the others. */
  lemma MojibakeDoubles(stored: string, live: string)
    requires IsMojibakeOf(stored, live)
    ensures NonAscii(stored) >= 2 * NonAscii(live)
    ensures |stored| - NonAscii(stored) == |live| - NonAscii(live)
  {
    BothAreCodecs();
    Utf8Doubles(live);
    MojibakeOrigins(stored, live);
    if Decode(Cp1252, Utf8(live)) == Some(stored) {
      DecodeKeepsHigh(Cp1252, Utf8(live));
    } else {
      DecodeKeepsHigh(Latin1, Utf8(live));
    }
  }

  lemma {:induction false} AsciiDecodesToItself(codec: Codec, s: string)
    requires IsAscii(s)
    requires forall b: Byte :: b < 0x80 ==> codec(b) == Some(b as char)
    ensures Decode(codec, Utf8(s)) == Some(s)
  {
    if s != [] {
      AsciiDecodesToItself(codec, s[1..]);
      assert Utf8(s)[1..] == Utf8(s[1..]);
      assert s == [s[0]] + s[1..];
    }
  }

  /** An ASCII name is mojibake of itself and of nothing else, so there is nothing to heal. */
  lemma AsciiIsItsOwnMojibake(name: string, other: string)
    requires IsAscii(name)
    ensures IsMojibakeOf(name, other) <==> other == name
    ensures IsMojibakeOf(other, name) <==> other == name
  {
    AsciiDecodesToItself(Cp1252, name);
    AsciiDecodesToItself(Latin1, name);
    if IsMojibakeOf(name, other) { MojibakeOfAtMostOne(name, name, other); }
  }

  /** Every heal of a non-ASCII name strictly shortens it, by at least its remaining non-ASCII characters. */
  lemma HealShortens(stored: string, live: string)
    requires IsMojibakeOf(stored, live) && !IsAscii(stored)
    ensures !IsAscii(live)
    ensures |live| + NonAscii(live) <= |stored|
    ensures |live| < |stored|
  {
    MojibakeDoubles(stored, live);
    if IsAscii(live) { AsciiIsItsOwnMojibake(live, stored); }
  }

  // ---------------------------------------------------------------------------
  // Chains of heals
  // ---------------------------------------------------------------------------

  /** Each name is healed to the next. */
  predicate IsHealChain(names: seq<string>) {
    forall i :: 0 <= i < |names| - 1 ==> !IsAscii(names[i]) && IsMojibakeOf(names[i], names[i + 1])
  }

  function Pow2(n: nat): nat {
    if n == 0 then 1 else 2 * Pow2(n - 1)
  }

  /** A chain of n heals needs 2^n non-ASCII characters to begin with. */
  lemma {:induction false} ChainsEnd(names: seq<string>)
    requires IsHealChain(names) && |names| > 1
    ensures !IsAscii(names[|names| - 1])
    ensures Pow2(|names| - 1) * NonAscii(names[|names| - 1]) <= NonAscii(names[0])
    ensures Pow2(|names| - 1) <= NonAscii(names[0])
  {
    var last := |names| - 1;
    HealShortens(names[last - 1], names[last]);
    MojibakeDoubles(names[last - 1], names[last]);
    if |names| > 2 {
      var shorter := names[..last];
      assert shorter[0] == names[0] && shorter[last - 1] == names[last - 1];
      assert IsHealChain(shorter) by {
        forall i | 0 <= i < |shorter| - 1 ensures !IsAscii(shorter[i]) && IsMojibakeOf(shorter[i], shorter[i + 1]) {
          assert shorter[i] == names[i] && shorter[i + 1] == names[i + 1];
        }
      }
      ChainsEnd(shorter);
      Grow(Pow2(last - 1), NonAscii(names[last - 1]), NonAscii(names[last]));
    }
    AtLeast(Pow2(last), NonAscii(names[last]));
  }

  lemma Grow(p: nat, x: nat, y: nat)
    requires 2 * y <= x
    ensures 2 * p * y <= p * x
  {
    assert p * (x - 2 * y) >= 0;
  }

  lemma AtLeast(p: nat, y: nat)
    requires y >= 1
    ensures p <= p * y
  {
  }
}
