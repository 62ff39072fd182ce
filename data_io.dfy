/**
 * The byte-level primitives of `java.io.DataOutputStream` / `DataInputStream` that the
 * wire protocol is built from (`writeUTF`, `writeBoolean`, `writeInt` and their readers),
 * and the standard UTF-8 charset used by `String.getBytes(UTF_8)` / `new String(bytes, UTF_8)`.
 *
 * Java strings are sequences of UTF-16 code units; a Dafny `string` is a sequence of
 * Unicode scalar values, so a character above U+FFFF stands for a surrogate pair.
 */
module DataIO {
  import opened Wrappers

  newtype byte = b: int | 0 <= b < 256

  /** Why a read from a `DataInputStream` throws. */
  datatype IoError =
    | EndOfStream          // EOFException: fewer bytes left than the read needs
    | MalformedUtf         // UTFDataFormatException from readUTF
    | NegativeLength       // NegativeArraySizeException from `new byte[n]` with n < 0
    | TooLongForWriteUtf   // UTFDataFormatException from writeUTF: encoded form over 65535 bytes

  const MaxUtfLength: nat := 65535

  // ---------------------------------------------------------------- UTF-16 code units

  predicate IsHighSurrogate(u: int) { 0xD800 <= u <= 0xDBFF }
  predicate IsLowSurrogate(u: int) { 0xDC00 <= u <= 0xDFFF }

  /** The UTF-16 code units of one character, as `String.charAt` sees them. */
  function CharUnits(c: char): (r: seq<int>)
    ensures |r| == 1 || |r| == 2
    ensures forall k :: 0 <= k < |r| ==> 0 <= r[k] < 0x10000
    ensures |r| == 1 <==> c as int < 0x10000
    ensures |r| == 1 ==> r[0] == c as int && !IsHighSurrogate(r[0]) && !IsLowSurrogate(r[0])
    ensures |r| == 2 ==> IsHighSurrogate(r[0]) && IsLowSurrogate(r[1])
  {
    var v := c as int;
    if v < 0x10000 then [v] else [0xD800 + (v - 0x10000) / 1024, 0xDC00 + (v - 0x10000) % 1024]
  }

  function Units(s: string): (r: seq<int>)
    ensures forall k :: 0 <= k < |r| ==> 0 <= r[k] < 0x10000
    ensures |r| >= |s|
    decreases |s|
  {
    if |s| == 0 then [] else CharUnits(s[0]) + Units(s[1..])
  }

  /** Pairs surrogates back into characters; an unpaired surrogate has no `string` form. */
  function FromUnits(us: seq<int>): Option<string>
    decreases |us|
  {
    if |us| == 0 then Some("")
    else if IsHighSurrogate(us[0]) && |us| >= 2 && IsLowSurrogate(us[1]) then
      var v := 0x10000 + (us[0] - 0xD800) * 1024 + (us[1] - 0xDC00);
      match FromUnits(us[2..])
      case None => None
      case Some(rest) => Some([v as char] + rest)
    else if IsHighSurrogate(us[0]) || IsLowSurrogate(us[0]) || !(0 <= us[0] < 0x10000) then None
    else
      match FromUnits(us[1..])
      case None => None
      case Some(rest) => Some([us[0] as char] + rest)
  }

  lemma {:induction false} FromUnitsOfUnits(s: string)
    ensures FromUnits(Units(s)) == Some(s)
    decreases |s|
  {
    if |s| > 0 {
      FromUnitsOfUnits(s[1..]);
      var u := CharUnits(s[0]);
      assert Units(s) == u + Units(s[1..]);
      if |u| == 2 {
        assert (u + Units(s[1..]))[2..] == Units(s[1..]);
      } else {
        assert (u + Units(s[1..]))[1..] == Units(s[1..]);
      }
      assert s == [s[0]] + s[1..];
    }
  }

  // ---------------------------------------------------------------- modified UTF-8

  /** How `writeUTF` encodes one code unit: NUL and U+0080..U+07FF take two bytes. */
  function UnitMutf8(u: int): (r: seq<byte>)
    requires 0 <= u < 0x10000
    ensures 1 <= |r| <= 3
  {
    if 1 <= u <= 0x7F then [u as byte]
    else if u <= 0x7FF then [(0xC0 + u / 64) as byte, (0x80 + u % 64) as byte]
    else [(0xE0 + u / 4096) as byte, (0x80 + (u / 64) % 64) as byte, (0x80 + u % 64) as byte]
  }

  function UnitsMutf8(us: seq<int>): seq<byte>
    requires forall k :: 0 <= k < |us| ==> 0 <= us[k] < 0x10000
    decreases |us|
  {
    if |us| == 0 then [] else UnitMutf8(us[0]) + UnitsMutf8(us[1..])
  }

  /** The modified UTF-8 form of a Java string. */
  function Mutf8(s: string): seq<byte> {
    UnitsMutf8(Units(s))
  }

  predicate IsContinuation(b: byte) { 0x80 <= b < 0xC0 }

  /**
   * The decoding loop of `readUTF` over the `utflen` bytes it has read: the high nibble of
   * each lead byte selects a one-, two- or three-byte form; a continuation byte that is
   * not 10xxxxxx, a lead byte 10xxxxxx or 1111xxxx, or a character cut off at the end
   * makes it throw.
   */
  function DecodeMutf8Units(b: seq<byte>): Option<seq<int>>
    decreases |b|
  {
    if |b| == 0 then Some([])
    else
      var c := b[0] as int;
      var nibble := c / 16;
      if nibble <= 7 then
        match DecodeMutf8Units(b[1..])
        case None => None
        case Some(rest) => Some([c] + rest)
      else if nibble == 12 || nibble == 13 then
        if |b| < 2 || !IsContinuation(b[1]) then None
        else
          match DecodeMutf8Units(b[2..])
          case None => None
          case Some(rest) => Some([(c % 32) * 64 + (b[1] as int) % 64] + rest)
      else if nibble == 14 then
        if |b| < 3 || !IsContinuation(b[1]) || !IsContinuation(b[2]) then None
        else
          match DecodeMutf8Units(b[3..])
          case None => None
          case Some(rest) => Some([(c % 16) * 4096 + ((b[1] as int) % 64) * 64 + (b[2] as int) % 64] + rest)
      else None
  }

  lemma TwoByteUnit(u: int)
    requires 0 <= u < 0x800
    ensures var b0 := 0xC0 + u / 64; var b1 := 0x80 + u % 64;
      && (b0 / 16 == 12 || b0 / 16 == 13) && 0x80 <= b1 < 0xC0
      && (b0 % 32) * 64 + b1 % 64 == u
  {
    var q := u / 64;
    assert q < 32;
    assert (0xC0 + q) % 32 == q;
    assert (0x80 + u % 64) % 64 == u % 64;
  }

  lemma ThreeByteUnit(u: int)
    requires 0 <= u < 0x10000
    ensures var b0 := 0xE0 + u / 4096; var b1 := 0x80 + (u / 64) % 64; var b2 := 0x80 + u % 64;
      && b0 / 16 == 14 && 0x80 <= b1 < 0xC0 && 0x80 <= b2 < 0xC0
      && (b0 % 16) * 4096 + (b1 % 64) * 64 + b2 % 64 == u
  {
    var q := u / 4096;
    assert q < 16;
    assert (0xE0 + q) % 16 == q;
    assert (0x80 + (u / 64) % 64) % 64 == (u / 64) % 64;
    assert (0x80 + u % 64) % 64 == u % 64;
    assert u / 64 == q * 64 + (u / 64) % 64;
    assert u == (u / 64) * 64 + u % 64;
  }

  lemma UnitMutf8Decodes(u: int, rest: seq<byte>)
    requires 0 <= u < 0x10000
    ensures DecodeMutf8Units(UnitMutf8(u) + rest) ==
      match DecodeMutf8Units(rest)
      case None => None
      case Some(r) => Some([u] + r)
  {
    var e := UnitMutf8(u);
    var b := e + rest;
    assert b[|e|..] == rest;
    if 1 <= u <= 0x7F {
      assert b[0] as int / 16 <= 7;
    } else if u <= 0x7FF {
      TwoByteUnit(u);
      assert b[0] as int == 0xC0 + u / 64 && b[1] as int == 0x80 + u % 64;
    } else {
      ThreeByteUnit(u);
      assert b[0] as int == 0xE0 + u / 4096 && b[1] as int == 0x80 + (u / 64) % 64 && b[2] as int == 0x80 + u % 64;
    }
  }

  lemma {:induction false} UnitsMutf8RoundTrip(us: seq<int>)
    requires forall k :: 0 <= k < |us| ==> 0 <= us[k] < 0x10000
    ensures DecodeMutf8Units(UnitsMutf8(us)) == Some(us)
    decreases |us|
  {
    if |us| > 0 {
      UnitsMutf8RoundTrip(us[1..]);
      UnitMutf8Decodes(us[0], UnitsMutf8(us[1..]));
      assert us == [us[0]] + us[1..];
    }
  }

  /** `readUTF` decodes what `writeUTF` encoded, character for character. */
  function DecodeMutf8(b: seq<byte>): Option<string> {
    match DecodeMutf8Units(b)
    case None => None
    case Some(us) => FromUnits(us)
  }

  lemma Mutf8RoundTrip(s: string)
    ensures DecodeMutf8(Mutf8(s)) == Some(s)
  {
    UnitsMutf8RoundTrip(Units(s));
    FromUnitsOfUnits(s);
  }

  // ---------------------------------------------------------------- standard UTF-8

  /** `String.getBytes(UTF_8)` for one character: one to four bytes. */
  function CharUtf8(c: char): (r: seq<byte>)
    ensures 1 <= |r| <= 4
  {
    var v := c as int;
    if v < 0x80 then [v as byte]
    else if v < 0x800 then [(0xC0 + v / 64) as byte, (0x80 + v % 64) as byte]
    else if v < 0x10000 then
      [(0xE0 + v / 4096) as byte, (0x80 + (v / 64) % 64) as byte, (0x80 + v % 64) as byte]
    else
      [(0xF0 + v / 262144) as byte, (0x80 + (v / 4096) % 64) as byte,
       (0x80 + (v / 64) % 64) as byte, (0x80 + v % 64) as byte]
  }

  function Utf8(s: string): seq<byte>
    decreases |s|
  {
    if |s| == 0 then [] else CharUtf8(s[0]) + Utf8(s[1..])
  }

  const Replacement: char := '\U{FFFD}'

  /**
   * `new String(bytes, UTF_8)`: well-formed sequences decode to their character; a byte
   * that does not start one (an overlong form, a surrogate, a value past U+10FFFF, a
   * stray continuation byte) decodes to U+FFFD and decoding resumes at the next byte.
   */
  function DecodeUtf8(b: seq<byte>): string
    decreases |b|
  {
    if |b| == 0 then ""
    else
      var b0 := b[0] as int;
      if b0 < 0x80 then [b0 as char] + DecodeUtf8(b[1..])
      else if 0xC2 <= b0 <= 0xDF && |b| >= 2 && IsContinuation(b[1]) then
        [((b0 - 0xC0) * 64 + (b[1] as int - 0x80)) as char] + DecodeUtf8(b[2..])
      else if 0xE0 <= b0 <= 0xEF && |b| >= 3 && IsContinuation(b[1]) && IsContinuation(b[2])
        && var v := (b0 - 0xE0) * 4096 + (b[1] as int - 0x80) * 64 + (b[2] as int - 0x80);
           0x800 <= v && !(0xD800 <= v <= 0xDFFF) then
        [((b0 - 0xE0) * 4096 + (b[1] as int - 0x80) * 64 + (b[2] as int - 0x80)) as char] + DecodeUtf8(b[3..])
      else if 0xF0 <= b0 <= 0xF4 && |b| >= 4 && IsContinuation(b[1]) && IsContinuation(b[2]) && IsContinuation(b[3])
        && var v := (b0 - 0xF0) * 262144 + (b[1] as int - 0x80) * 4096 + (b[2] as int - 0x80) * 64 + (b[3] as int - 0x80);
           0x10000 <= v <= 0x10FFFF then
        [((b0 - 0xF0) * 262144 + (b[1] as int - 0x80) * 4096 + (b[2] as int - 0x80) * 64 + (b[3] as int - 0x80)) as char]
          + DecodeUtf8(b[4..])
      else [Replacement] + DecodeUtf8(b[1..])
  }

  lemma Utf8TwoBytes(v: int)
    requires 0x80 <= v < 0x800
    ensures var b0 := 0xC0 + v / 64; var b1 := 0x80 + v % 64;
      && 0xC2 <= b0 <= 0xDF && 0x80 <= b1 < 0xC0 && (b0 - 0xC0) * 64 + (b1 - 0x80) == v
  {
  }

  lemma Utf8ThreeBytes(v: int)
    requires 0x800 <= v < 0x10000
    ensures var b0 := 0xE0 + v / 4096; var b1 := 0x80 + (v / 64) % 64; var b2 := 0x80 + v % 64;
      && 0xE0 <= b0 <= 0xEF && 0x80 <= b1 < 0xC0 && 0x80 <= b2 < 0xC0
      && (b0 - 0xE0) * 4096 + (b1 - 0x80) * 64 + (b2 - 0x80) == v
  {
    assert v / 64 == (v / 4096) * 64 + (v / 64) % 64;
    assert v == (v / 64) * 64 + v % 64;
  }

  lemma Utf8FourBytes(v: int)
    requires 0x10000 <= v <= 0x10FFFF
    ensures var b0 := 0xF0 + v / 262144; var b1 := 0x80 + (v / 4096) % 64;
      var b2 := 0x80 + (v / 64) % 64; var b3 := 0x80 + v % 64;
      && 0xF0 <= b0 <= 0xF4 && 0x80 <= b1 < 0xC0 && 0x80 <= b2 < 0xC0 && 0x80 <= b3 < 0xC0
      && (b0 - 0xF0) * 262144 + (b1 - 0x80) * 4096 + (b2 - 0x80) * 64 + (b3 - 0x80) == v
  {
    assert v / 4096 == (v / 262144) * 64 + (v / 4096) % 64;
    assert v / 64 == (v / 4096) * 64 + (v / 64) % 64;
    assert v == (v / 64) * 64 + v % 64;
  }

  lemma CharUtf8Decodes(c: char, rest: seq<byte>)
    ensures DecodeUtf8(CharUtf8(c) + rest) == [c] + DecodeUtf8(rest)
  {
    var v := c as int;
    if v < 0x80 {
      assert (CharUtf8(c) + rest)[1..] == rest;
    } else if v < 0x800 {
      TwoByteCharDecodes(c, rest);
    } else if v < 0x10000 {
      ThreeByteCharDecodes(c, rest);
    } else {
      FourByteCharDecodes(c, rest);
    }
  }

  lemma TwoByteCharDecodes(c: char, rest: seq<byte>)
    requires 0x80 <= c as int < 0x800
    ensures DecodeUtf8(CharUtf8(c) + rest) == [c] + DecodeUtf8(rest)
  {
    var v := c as int;
    var b := CharUtf8(c) + rest;
    assert b[2..] == rest;
    Utf8TwoBytes(v);
    assert b[0] as int == 0xC0 + v / 64 && b[1] as int == 0x80 + v % 64;
  }

  lemma ThreeByteCharDecodes(c: char, rest: seq<byte>)
    requires 0x800 <= c as int < 0x10000
    ensures DecodeUtf8(CharUtf8(c) + rest) == [c] + DecodeUtf8(rest)
  {
    var v := c as int;
    var b := CharUtf8(c) + rest;
    assert b[3..] == rest;
    Utf8ThreeBytes(v);
    assert b[0] as int == 0xE0 + v / 4096 && b[1] as int == 0x80 + (v / 64) % 64 && b[2] as int == 0x80 + v % 64;
  }

  lemma FourByteCharDecodes(c: char, rest: seq<byte>)
    requires 0x10000 <= c as int
    ensures DecodeUtf8(CharUtf8(c) + rest) == [c] + DecodeUtf8(rest)
  {
    var v := c as int;
    var b := CharUtf8(c) + rest;
    assert b[4..] == rest;
    Utf8FourBytes(v);
    assert b[0] as int == 0xF0 + v / 262144 && b[1] as int == 0x80 + (v / 4096) % 64;
    assert b[2] as int == 0x80 + (v / 64) % 64 && b[3] as int == 0x80 + v % 64;
  }

  lemma {:induction false} Utf8RoundTrip(s: string)
    ensures DecodeUtf8(Utf8(s)) == s
    decreases |s|
  {
    if |s| > 0 {
      Utf8RoundTrip(s[1..]);
      CharUtf8Decodes(s[0], Utf8(s[1..]));
      assert s == [s[0]] + s[1..];
    }
  }

  /** Each character's modified UTF-8 form is at most twice its UTF-8 form. */
  lemma {:induction false} Mutf8AtMostTwiceUtf8(s: string)
    ensures |Mutf8(s)| <= 2 * |Utf8(s)|
    ensures |Utf8(s)| >= |s|
    decreases |s|
  {
    if |s| > 0 {
      Mutf8AtMostTwiceUtf8(s[1..]);
      UnitsMutf8Append(CharUnits(s[0]), Units(s[1..]));
    }
  }

  lemma {:induction false} UnitsMutf8Append(a: seq<int>, b: seq<int>)
    requires forall k :: 0 <= k < |a| ==> 0 <= a[k] < 0x10000
    requires forall k :: 0 <= k < |b| ==> 0 <= b[k] < 0x10000
    ensures UnitsMutf8(a + b) == UnitsMutf8(a) + UnitsMutf8(b)
    decreases |a|
  {
    if |a| > 0 {
      assert (a + b)[1..] == a[1..] + b;
      UnitsMutf8Append(a[1..], b);
    } else {
      assert a + b == b;
    }
  }

  lemma {:induction false} Utf8AtMostFour(s: string)
    ensures |Utf8(s)| <= 4 * |s|
    decreases |s|
  {
    if |s| > 0 {
      Utf8AtMostFour(s[1..]);
    }
  }

  // ---------------------------------------------------------------- DataOutput

  function U16BigEndian(n: nat): (r: seq<byte>)
    requires n <= 0xFFFF
    ensures |r| == 2
  {
    [(n / 256) as byte, (n % 256) as byte]
  }

  /** `writeUTF`: a two-byte big-endian length, then the modified UTF-8 bytes; too long throws. */
  function WriteUTF(s: string): (r: Result<seq<byte>, IoError>)
    ensures r.Err? <==> |Mutf8(s)| > MaxUtfLength
    ensures r.Ok? ==> r.value == U16BigEndian(|Mutf8(s)|) + Mutf8(s)
  {
    var body := Mutf8(s);
    if |body| > MaxUtfLength then Err(TooLongForWriteUtf) else Ok(U16BigEndian(|body|) + body)
  }

  /** Any string of at most 8191 characters fits the 65535-byte limit of `writeUTF`. */
  lemma ShortWritable(s: string)
    requires |s| <= 8191
    ensures WriteUTF(s).Ok?
    ensures |WriteUTF(s).value| == 2 + |Mutf8(s)|
  {
    Mutf8AtMostTwiceUtf8(s);
    Utf8AtMostFour(s);
  }

  /** `writeBoolean`: one byte, 1 or 0. */
  function WriteBoolean(v: bool): seq<byte> {
    [if v then 1 else 0]
  }

  const TwoTo31: int := 0x8000_0000
  const TwoTo32: int := 0x1_0000_0000

  predicate IsInt32(v: int) { -TwoTo31 <= v < TwoTo31 }

  type Int32 = x: int | IsInt32(x)

  /** Java's `int` multiplication and addition wrap around modulo 2^32. */
  function Wrap32(x: int): (r: Int32)
    ensures IsInt32(x) ==> r == x
    ensures (r - x) % TwoTo32 == 0
  {
    (x + TwoTo31) % TwoTo32 - TwoTo31
  }

  /** `writeInt`: four bytes of the two's-complement value, high byte first. */
  function WriteInt(v: int): (r: seq<byte>)
    requires IsInt32(v)
    ensures |r| == 4
  {
    var u := if v < 0 then v + TwoTo32 else v;
    [(u / 0x100_0000) as byte, ((u / 0x1_0000) % 256) as byte, ((u / 256) % 256) as byte, (u % 256) as byte]
  }

  // ---------------------------------------------------------------- DataInput

  /** The state of a `DataInputStream` over a byte array: the bytes and the read position. */
  datatype Cursor = Cursor(data: seq<byte>, pos: nat) {
    predicate Valid() { pos <= |data| }
    function Remaining(): nat requires Valid() { |data| - pos }
  }

  function ReadFully(cur: Cursor, n: nat): (r: Result<(seq<byte>, Cursor), IoError>)
    requires cur.Valid()
    ensures r.Err? <==> cur.Remaining() < n
    ensures r.Ok? ==>
      r.value.0 == cur.data[cur.pos..cur.pos + n] && r.value.1 == Cursor(cur.data, cur.pos + n) && r.value.1.Valid()
  {
    if cur.Remaining() < n then Err(EndOfStream)
    else Ok((cur.data[cur.pos..cur.pos + n], Cursor(cur.data, cur.pos + n)))
  }

  function ReadBoolean(cur: Cursor): (r: Result<(bool, Cursor), IoError>)
    requires cur.Valid()
    ensures r.Ok? ==> r.value.1.Valid()
  {
    match ReadFully(cur, 1)
    case Err(e) => Err(e)
    case Ok((b, next)) => Ok((b[0] != 0, next))
  }

  function ReadInt(cur: Cursor): (r: Result<(int, Cursor), IoError>)
    requires cur.Valid()
    ensures r.Ok? ==> IsInt32(r.value.0) && r.value.1.Valid()
  {
    match ReadFully(cur, 4)
    case Err(e) => Err(e)
    case Ok((b, next)) =>
      var u := b[0] as int * 0x100_0000 + b[1] as int * 0x1_0000 + b[2] as int * 256 + b[3] as int;
      Ok((if u >= TwoTo31 then u - TwoTo32 else u, next))
  }

  /** `readUTF`: the two-byte length, that many bytes, then the modified UTF-8 decoding. */
  function ReadUTF(cur: Cursor): (r: Result<(string, Cursor), IoError>)
    requires cur.Valid()
    ensures r.Ok? ==> r.value.1.Valid()
  {
    match ReadFully(cur, 2)
    case Err(e) => Err(e)
    case Ok((len, afterLen)) =>
      match ReadFully(afterLen, len[0] as int * 256 + len[1] as int)
      case Err(e) => Err(e)
      case Ok((body, next)) =>
        match DecodeMutf8(body)
        case None => Err(MalformedUtf)
        case Some(s) => Ok((s, next))
  }

  lemma ReadWriteUTF(s: string, rest: seq<byte>)
    requires WriteUTF(s).Ok?
    ensures ReadUTF(Cursor(WriteUTF(s).value + rest, 0))
      == Ok((s, Cursor(WriteUTF(s).value + rest, |WriteUTF(s).value|)))
  {
    var w := WriteUTF(s).value;
    var n := |Mutf8(s)|;
    assert (n / 256) * 256 + n % 256 == n;
    assert (w + rest)[2..2 + n] == Mutf8(s);
    Mutf8RoundTrip(s);
  }

  /** Two neighbouring fields of a frame can be read back one at a time. */
  lemma SliceSplit(data: seq<byte>, p: nat, a: seq<byte>, b: seq<byte>)
    requires p + |a| + |b| <= |data| && data[p..p + |a| + |b|] == a + b
    ensures data[p..p + |a|] == a && data[p + |a|..p + |a| + |b|] == b
  {
    forall k | 0 <= k < |a|
      ensures data[p + k] == a[k]
    {
      assert data[p..p + |a| + |b|][k] == (a + b)[k];
    }
    forall k | 0 <= k < |b|
      ensures data[p + |a| + k] == b[k]
    {
      assert data[p..p + |a| + |b|][|a| + k] == (a + b)[|a| + k];
    }
  }

  /** `readUTF` at any position where `writeUTF(s)` was written reads `s` and moves past it. */
  lemma ReadUTFAt(s: string, data: seq<byte>, pos: nat)
    requires WriteUTF(s).Ok?
    requires pos + |WriteUTF(s).value| <= |data| && data[pos..pos + |WriteUTF(s).value|] == WriteUTF(s).value
    ensures ReadUTF(Cursor(data, pos)) == Ok((s, Cursor(data, pos + |WriteUTF(s).value|)))
  {
    var w := WriteUTF(s).value;
    var n := |Mutf8(s)|;
    assert data[pos..pos + 2] == w[..2];
    assert (n / 256) * 256 + n % 256 == n;
    assert data[pos + 2..pos + 2 + n] == w[2..];
    Mutf8RoundTrip(s);
  }

  /**
   * `readUTF` over a field that `writeUTF(s)` wrote but that was cut short fails:
   * either the length is cut off or it reaches past the end.
   */
  lemma TruncatedReadUTFFails(prefix: seq<byte>, s: string, k: nat)
    requires WriteUTF(s).Ok? && k < |WriteUTF(s).value|
    ensures ReadUTF(Cursor(prefix + WriteUTF(s).value[..k], |prefix|)).Err?
  {
    var w := WriteUTF(s).value;
    var data := prefix + w[..k];
    var n := |Mutf8(s)|;
    if k >= 2 {
      assert data[|prefix|..|prefix| + 2] == w[..2];
      assert (n / 256) * 256 + n % 256 == n;
    }
  }

  lemma ReadWriteBoolean(v: bool, data: seq<byte>, pos: nat)
    requires pos < |data| && data[pos..pos + 1] == WriteBoolean(v)
    ensures ReadBoolean(Cursor(data, pos)) == Ok((v, Cursor(data, pos + 1)))
  {
    assert data[pos] == data[pos..pos + 1][0];
  }

  lemma BigEndianDigits(u: int)
    requires 0 <= u < TwoTo32
    ensures (u / 0x100_0000) * 0x100_0000 + ((u / 0x1_0000) % 256) * 0x1_0000 + ((u / 256) % 256) * 256 + u % 256 == u
  {
    var q1 := u / 256;
    var q2 := q1 / 256;
    var q3 := q2 / 256;
    assert u == q1 * 256 + u % 256;
    assert q1 == q2 * 256 + q1 % 256;
    assert q2 == q3 * 256 + q2 % 256;
    assert q2 == u / 0x1_0000;
    assert q3 == u / 0x100_0000;
  }

  lemma ReadWriteInt(v: int, data: seq<byte>, pos: nat)
    requires IsInt32(v) && pos + 4 <= |data| && data[pos..pos + 4] == WriteInt(v)
    ensures ReadInt(Cursor(data, pos)) == Ok((v, Cursor(data, pos + 4)))
  {
    var u := if v < 0 then v + TwoTo32 else v;
    BigEndianDigits(u);
  }
}
