/**
 * `java.util.UUID` as the store uses it: a 128-bit key written as 32 hexadecimal digits,
 * rendered by `toString` in the lower-case 8-4-4-4-12 form and read back by `fromString`,
 * which also accepts shorter and longer groups (as the JDK from version 9 on does).
 */
module Uuids {
  import opened Wrappers
  import opened Text

  newtype nibble = n: int | 0 <= n < 16

  /** The 32 hexadecimal digits of the 128-bit value, most significant first. */
  type Uuid = d: seq<nibble> | |d| == 32 witness seq(32, _ => 0 as nibble)

  function HexDigit(n: nibble): char {
    if n < 10 then ('0' as int + n as int) as char else ('a' as int + n as int - 10) as char
  }

  /** The value of a hexadecimal digit of either case, as `Character.digit(c, 16)` for ASCII. */
  function HexValue(c: char): Option<nibble> {
    if '0' <= c <= '9' then Some((c as int - '0' as int) as nibble)
    else if 'a' <= c <= 'f' then Some((c as int - 'a' as int + 10) as nibble)
    else if 'A' <= c <= 'F' then Some((c as int - 'A' as int + 10) as nibble)
    else None
  }

  /** A digit reads back as its value. */
  lemma HexDigitValue(n: nibble)
    ensures HexValue(HexDigit(n)) == Some(n)
    ensures HexDigit(n) != '-' && HexDigit(n) != '+'
  {
  }

  /** Positions of the four hyphens in the canonical text form. */
  predicate IsDashPosition(i: int) { i == 8 || i == 13 || i == 18 || i == 23 }

  /** The digits `ds` written out in lower case. */
  function HexText(ds: seq<nibble>): (r: string)
    ensures |r| == |ds|
    ensures forall k :: 0 <= k < |ds| ==> r[k] == HexDigit(ds[k])
  {
    seq(|ds|, k requires 0 <= k < |ds| => HexDigit(ds[k]))
  }

  /** `UUID.toString`: lower-case digits in groups of 8, 4, 4, 4 and 12, joined by '-'. */
  function ToString(u: Uuid): (r: string)
    ensures |r| == 36
    ensures forall i :: 0 <= i < 36 ==> (r[i] == '-' <==> IsDashPosition(i))
  {
    var r := HexText(u[..8]) + "-" + HexText(u[8..12]) + "-" + HexText(u[12..16]) + "-" +
      HexText(u[16..20]) + "-" + HexText(u[20..]);
    forall i | 0 <= i < 36 && !IsDashPosition(i)
      ensures r[i] != '-'
    {
      var k := if i < 8 then i else if i < 13 then i - 1 else if i < 18 then i - 2 else if i < 23 then i - 3 else i - 4;
      assert r[i] == HexDigit(u[k]);
      HexDigitValue(u[k]);
    }
    r
  }

  // ---- fromString ----

  const TwoTo63: nat := 0x8000_0000_0000_0000

  function Pow16(n: nat): (r: nat)
    ensures r > 0
  {
    if n == 0 then 1 else 16 * Pow16(n - 1)
  }

  predicate AllHex(s: string) {
    forall k :: 0 <= k < |s| ==> HexValue(s[k]).Some?
  }

  /** The number a run of hexadecimal digits denotes, most significant first. */
  function HexNumber(digits: string): nat
    requires AllHex(digits)
    decreases |digits|
  {
    if |digits| == 0 then 0
    else 16 * HexNumber(digits[..|digits| - 1]) + HexValue(digits[|digits| - 1]).value as int
  }

  /**
   * `Long.parseLong(group, 16)` on the text between two hyphens: an optional '+' and at
   * least one hexadecimal digit, whose value fits a signed 64-bit `long`. A '-' sign
   * cannot occur, since the hyphens separate the groups.
   */
  function ParseHexLong(group: string): (r: Option<nat>)
    ensures r.Some? ==> r.value < TwoTo63
    ensures group == "" || group == "+" ==> r.None?
  {
    var digits := if |group| > 0 && group[0] == '+' then group[1..] else group;
    if |digits| == 0 || !AllHex(digits) then None
    else
      var v := HexNumber(digits);
      if v < TwoTo63 then Some(v) else None
  }

  /** The low `n` hexadecimal digits of `v`, most significant first. */
  function Nibbles(v: nat, n: nat): (r: seq<nibble>)
    ensures |r| == n
  {
    if n == 0 then [] else Nibbles(v / 16, n - 1) + [(v % 16) as nibble]
  }

  /**
   * `UUID.fromString`: at most 36 characters with exactly four hyphens, each of the five
   * groups a hexadecimal `long`, masked to 32, 16, 16, 16 and 48 bits and put together
   * in that order. Anything else is rejected, where Java throws `IllegalArgumentException`
   * (or its subclass `NumberFormatException`).
   */
  function FromString(s: string): (r: Option<Uuid>)
    ensures r.Some? ==> |s| <= 36 && multiset(s)['-'] == 4
    ensures |s| > 36 || multiset(s)['-'] != 4 ==> r.None?
  {
    FieldsCount(s, '-');
    if |s| > 36 then None
    else
      var groups := Fields(s, '-');
      if |groups| != 5 then None
      else
        var a, b, c := ParseHexLong(groups[0]), ParseHexLong(groups[1]), ParseHexLong(groups[2]);
        var d, e := ParseHexLong(groups[3]), ParseHexLong(groups[4]);
        if a.None? || b.None? || c.None? || d.None? || e.None? then None
        else Some(Assemble(a.value, b.value, c.value, d.value, e.value))
  }

  const TwoTo16: nat := 0x1_0000
  const TwoTo32: nat := 0x1_0000_0000
  const TwoTo48: nat := 0x1_0000_0000_0000

  /**
   * The UUID of five group values: `mostSigBits` from the first three masked to 32, 16
   * and 16 bits, `leastSigBits` from the last two masked to 16 and 48 bits.
   */
  function Assemble(a: nat, b: nat, c: nat, d: nat, e: nat): Uuid {
    Nibbles(a % TwoTo32, 8) + Nibbles(b % TwoTo16, 4) + Nibbles(c % TwoTo16, 4) +
      Nibbles(d % TwoTo16, 4) + Nibbles(e % TwoTo48, 12)
  }

  /** Written-out digits are read back as the number they stand for, which they fill exactly. */
  lemma {:induction false} HexTextNumber(ds: seq<nibble>)
    ensures AllHex(HexText(ds))
    ensures HexNumber(HexText(ds)) < Pow16(|ds|)
    ensures Nibbles(HexNumber(HexText(ds)), |ds|) == ds
    decreases |ds|
  {
    var t := HexText(ds);
    forall k | 0 <= k < |ds| ensures HexValue(t[k]) == Some(ds[k]) {
      HexDigitValue(ds[k]);
    }
    if |ds| > 0 {
      var n := |ds|;
      HexTextNumber(ds[..n - 1]);
      assert t[..n - 1] == HexText(ds[..n - 1]);
      var v := HexNumber(t);
      assert v == 16 * HexNumber(HexText(ds[..n - 1])) + ds[n - 1] as int;
      assert v / 16 == HexNumber(HexText(ds[..n - 1]));
      assert v % 16 == ds[n - 1] as int;
      assert ds == ds[..n - 1] + [ds[n - 1]];
    }
  }

  lemma Pow16Widths()
    ensures Pow16(4) == TwoTo16 && Pow16(8) == TwoTo32 && Pow16(12) == TwoTo48
  {
  }

  /** One group of `toString`, of 4, 8 or 12 digits, parses back to its digits. */
  lemma GroupParses(ds: seq<nibble>, width: nat)
    requires |ds| > 0 && width == Pow16(|ds|) && width <= TwoTo48
    ensures ParseHexLong(HexText(ds)).Some?
    ensures Nibbles(ParseHexLong(HexText(ds)).value % width, |ds|) == ds
  {
    HexTextNumber(ds);
    HexDigitValue(ds[0]);
    var v := HexNumber(HexText(ds));
    assert v < TwoTo63;
    assert ParseHexLong(HexText(ds)) == Some(v);
    ModOfSmaller(v, width);
  }

  lemma ModOfSmaller(v: nat, m: nat)
    requires v < m
    ensures v % m == v
  {
  }

  /** A leading zero digit does not change the number. */
  lemma {:induction false} HexNumberLeadingZero(g: string)
    requires AllHex(g)
    ensures AllHex("0" + g) && HexNumber("0" + g) == HexNumber(g)
    decreases |g|
  {
    assert AllHex("0" + g) by {
      forall k | 0 <= k < |"0" + g| ensures HexValue(("0" + g)[k]).Some? {
        if k > 0 { assert ("0" + g)[k] == g[k - 1]; }
      }
    }
    if |g| > 0 {
      var n := |g|;
      assert ("0" + g)[..n] == "0" + g[..n - 1];
      var front := g[..n - 1];
      assert AllHex(front) by {
        forall k | 0 <= k < n - 1 ensures HexValue(front[k]).Some? {
          assert front[k] == g[k];
        }
      }
      HexNumberLeadingZero(front);
    } else {
      assert HexNumber("0") == 16 * HexNumber("") + 0;
    }
  }

  /** `fromString` is lenient about group width: a group padded with a zero parses alike. */
  lemma LeadingZeroParses(g: string)
    requires g != "" && g[0] != '+'
    ensures ParseHexLong("0" + g) == ParseHexLong(g)
  {
    if AllHex(g) {
      HexNumberLeadingZero(g);
    } else {
      var k :| 0 <= k < |g| && HexValue(g[k]).None?;
      assert ("0" + g)[k + 1] == g[k];
    }
  }

  /** Written-out digits hold no hyphen. */
  lemma NoHyphen(ds: seq<nibble>)
    ensures '-' !in HexText(ds)
  {
    forall k | 0 <= k < |ds| ensures HexText(ds)[k] != '-' {
      HexDigitValue(ds[k]);
    }
  }

  /** The text of `toString` splits at its four hyphens into the five groups of digits. */
  lemma ToStringGroups(u: Uuid)
    ensures Fields(ToString(u), '-') ==
      [HexText(u[..8]), HexText(u[8..12]), HexText(u[12..16]), HexText(u[16..20]), HexText(u[20..])]
  {
    var g0, g1, g2, g3, g4 := HexText(u[..8]), HexText(u[8..12]), HexText(u[12..16]), HexText(u[16..20]), HexText(u[20..]);
    NoHyphen(u[..8]);
    NoHyphen(u[8..12]);
    NoHyphen(u[12..16]);
    NoHyphen(u[16..20]);
    NoHyphen(u[20..]);
    var parts := [g0, g1, g2, g3, g4];
    assert ToString(u) == Join(parts, '-') by {
      assert [g3, g4][1..] == [g4];
      assert Join([g3, g4], '-') == g3 + ['-'] + g4;
      assert [g2, g3, g4][1..] == [g3, g4];
      assert Join([g2, g3, g4], '-') == g2 + ['-'] + (g3 + ['-'] + g4);
      assert [g1, g2, g3, g4][1..] == [g2, g3, g4];
      assert Join([g1, g2, g3, g4], '-') == g1 + ['-'] + (g2 + ['-'] + (g3 + ['-'] + g4));
      assert parts[1..] == [g1, g2, g3, g4];
    }
    FieldsOfJoin(parts, '-');
  }

  /** Five groups that each parse give the UUID assembled from their values. */
  lemma FromGroups(s: string, g0: string, g1: string, g2: string, g3: string, g4: string,
                   a: nat, b: nat, c: nat, d: nat, e: nat)
    requires |s| <= 36 && Fields(s, '-') == [g0, g1, g2, g3, g4]
    requires ParseHexLong(g0) == Some(a) && ParseHexLong(g1) == Some(b) && ParseHexLong(g2) == Some(c)
    requires ParseHexLong(g3) == Some(d) && ParseHexLong(g4) == Some(e)
    ensures FromString(s) == Some(Assemble(a, b, c, d, e))
  {
  }

  /** Group values whose masked digits are the five slices of `u` assemble to `u`. */
  lemma AssembleSlices(u: Uuid, a: nat, b: nat, c: nat, d: nat, e: nat)
    requires Nibbles(a % TwoTo32, 8) == u[..8]
    requires Nibbles(b % TwoTo16, 4) == u[8..12]
    requires Nibbles(c % TwoTo16, 4) == u[12..16]
    requires Nibbles(d % TwoTo16, 4) == u[16..20]
    requires Nibbles(e % TwoTo48, 12) == u[20..]
    ensures Assemble(a, b, c, d, e) == u
  {
    assert u == u[..8] + u[8..12] + u[12..16] + u[16..20] + u[20..];
  }

  /** Reading back the text of a UUID gives the same UUID. */
  lemma FromToString(u: Uuid)
    ensures FromString(ToString(u)) == Some(u)
  {
    ToStringGroups(u);
    Pow16Widths();
    var g0, g1, g2, g3, g4 := HexText(u[..8]), HexText(u[8..12]), HexText(u[12..16]), HexText(u[16..20]), HexText(u[20..]);
    GroupParses(u[..8], TwoTo32);
    GroupParses(u[8..12], TwoTo16);
    GroupParses(u[12..16], TwoTo16);
    GroupParses(u[16..20], TwoTo16);
    GroupParses(u[20..], TwoTo48);
    var a, b, c := ParseHexLong(g0).value, ParseHexLong(g1).value, ParseHexLong(g2).value;
    var d, e := ParseHexLong(g3).value, ParseHexLong(g4).value;
    FromGroups(ToString(u), g0, g1, g2, g3, g4, a, b, c, d, e);
    AssembleSlices(u, a, b, c, d, e);
  }

  /** Two UUIDs with the same text are the same UUID. */
  lemma ToStringInjective(u: Uuid, v: Uuid)
    requires ToString(u) == ToString(v)
    ensures u == v
  {
    FromToString(u);
    FromToString(v);
  }
}
