/** 128-bit identifiers as the `github.com/google/uuid` package renders and
    parses them: `String` gives the lower-case hyphenated form, `Parse`
    accepts that form (in either case), the same wrapped in braces or
    prefixed with `urn:uuid:`, and the bare 32-digit form. */
module Uuid {
  import opened Base

  type UUID = b: Bytes | |b| == 16
    witness [0, 0, 0, 0, 0, 0, 0, 0, 0, 0, 0, 0, 0, 0, 0, 0]

  /** `uuid.Nil`, the all-zero identifier. */
  const Nil: UUID := [0, 0, 0, 0, 0, 0, 0, 0, 0, 0, 0, 0, 0, 0, 0, 0]

  function HexDigit(v: nat): (c: char)
    requires v < 16
  {
    if v < 10 then ('0' as int + v) as char else ('a' as int + (v - 10)) as char
  }

  /** Value of a hexadecimal digit of either case. */
  function HexValue(c: char): (r: Option<nat>)
    ensures r.Some? ==> r.value < 16
  {
    if '0' <= c <= '9' then Some(c as int - '0' as int)
    else if 'a' <= c <= 'f' then Some(c as int - 'a' as int + 10)
    else if 'A' <= c <= 'F' then Some(c as int - 'A' as int + 10)
    else None
  }

  lemma HexValueOfDigit(v: nat)
    requires v < 16
    ensures HexValue(HexDigit(v)) == Some(v)
  {
  }

  /** Two lower-case hexadecimal digits per byte. */
  function HexEncode(b: Bytes): (s: string)
    ensures |s| == 2 * |b|
    ensures '-' !in s
    ensures IsAscii(s)
  {
    if |b| == 0 then ""
    else [HexDigit(b[0] / 16), HexDigit(b[0] % 16)] + HexEncode(b[1..])
  }

  /** The bytes named by pairs of hexadecimal digits (the package's `xtob`
      applied pair by pair). */
  function HexDecode(s: string): (r: Option<Bytes>)
    requires |s| % 2 == 0
    ensures r.Some? ==> |r.value| * 2 == |s|
  {
    if |s| == 0 then Some([])
    else
      match (HexValue(s[0]), HexValue(s[1]), HexDecode(s[2..]))
      case (Some(hi), Some(lo), Some(rest)) => Some([hi * 16 + lo] + rest)
      case _ => None
  }

  lemma {:induction false} HexDecodeEncode(b: Bytes)
    ensures HexDecode(HexEncode(b)) == Some(b)
  {
    if |b| > 0 {
      var s := HexEncode(b);
      HexValueOfDigit(b[0] / 16);
      HexValueOfDigit(b[0] % 16);
      assert s[2..] == HexEncode(b[1..]);
      HexDecodeEncode(b[1..]);
      assert b == [b[0]] + b[1..];
    }
  }

  /** `UUID.String`: groups of 8, 4, 4, 4 and 12 digits joined by hyphens. */
  function ToString(u: UUID): (s: string)
    ensures |s| == 36
    ensures s[8] == '-' && s[13] == '-' && s[18] == '-' && s[23] == '-'
    ensures forall k :: 0 <= k < 36 && k != 8 && k != 13 && k != 18 && k != 23 ==> s[k] != '-'
    ensures IsAscii(s)
  {
    var h := HexEncode(u);
    h[..8] + "-" + h[8..12] + "-" + h[12..16] + "-" + h[16..20] + "-" + h[20..]
  }

  /** The 32 digits of a hyphenated form whose hyphens sit at positions
      8, 13, 18 and 23. */
  function Digits(t: string): string
    requires |t| >= 36
  {
    t[..8] + t[9..13] + t[14..18] + t[19..23] + t[24..36]
  }

  /** The hyphenated form, checked and decoded from the first 36 runes. */
  function ParseHyphenated(t: string): (r: Option<UUID>)
    requires |t| >= 36
    ensures r.Some? ==> t[8] == '-' && t[13] == '-' && t[18] == '-' && t[23] == '-'
  {
    if t[8] != '-' || t[13] != '-' || t[18] != '-' || t[23] != '-' then None
    else
      match HexDecode(Digits(t))
      case None => None
      case Some(b) => Some(b)
  }

  function ToLowerAscii(c: char): char
  {
    if 'A' <= c <= 'Z' then (c as int - 'A' as int + 'a' as int) as char else c
  }

  /** `strings.EqualFold` against an all-lower-case ASCII target. */
  predicate EqualFoldAscii(s: string, lowerTarget: string)
  {
    |s| == |lowerTarget| && forall k :: 0 <= k < |s| ==> ToLowerAscii(s[k]) == lowerTarget[k]
  }

  /** `uuid.Parse`, dispatching on `len(s)`, the length of the text in
      bytes. Go accepts only ASCII text: every byte it inspects must be a
      hexadecimal digit, a hyphen or part of `urn:uuid:`, and the two brace
      bytes it skips are the first and last, so neither can belong to a
      multi-byte rune. Other text is refused here, and on ASCII text the
      byte count is the rune count (Base.ByteLenBounds). */
  function Parse(s: string): (r: Option<UUID>)
    ensures r.Some? ==> IsAscii(s) && ByteLen(s) in {32, 36, 38, 45}
  {
    if !IsAscii(s) then None
    else
    ByteLenBounds(s);
    if |s| == 36 then ParseHyphenated(s)
    else if |s| == 45 then
      if EqualFoldAscii(s[..9], "urn:uuid:") then ParseHyphenated(s[9..]) else None
    else if |s| == 38 then ParseHyphenated(s[1..])
    else if |s| == 32 then
      match HexDecode(s)
      case None => None
      case Some(b) => Some(b)
    else None
  }

  /** Parsing the rendered form gives back the identifier. */
  lemma ParseToString(u: UUID)
    ensures Parse(ToString(u)) == Some(u)
  {
    var h := HexEncode(u);
    var s := ToString(u);
    assert Digits(s) == h by {
      assert s[..8] == h[..8];
      assert s[9..13] == h[8..12];
      assert s[14..18] == h[12..16];
      assert s[19..23] == h[16..20];
      assert s[24..36] == h[20..];
      assert h == h[..8] + h[8..12] + h[12..16] + h[16..20] + h[20..];
    }
    HexDecodeEncode(u);
  }

  /** Text with a non-ASCII rune is refused, whatever its rune count: a
      rendered identifier behind a two-byte rune is 38 runes long but 39
      bytes long. */
  lemma NonAsciiRefused(u: UUID)
    ensures ByteLen("\U{00E9}" + ToString(u) + "}") == 39
    ensures Parse("\U{00E9}" + ToString(u) + "}") == None
  {
    var s := "\U{00E9}" + ToString(u) + "}";
    assert s[0] as int >= 0x80;
    ByteLenBounds(ToString(u));
    ByteLenAppend("\U{00E9}", ToString(u));
    ByteLenAppend("\U{00E9}" + ToString(u), "}");
  }

  /** Distinct identifiers render differently. */
  lemma ToStringInjective(u: UUID, v: UUID)
    requires ToString(u) == ToString(v)
    ensures u == v
  {
    ParseToString(u);
    ParseToString(v);
  }
}
