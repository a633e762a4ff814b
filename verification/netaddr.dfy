/** Client network addresses as the handlers record them with a session:
    `netip.ParseAddr` dispatches on the first `.`, `:` or `%` in the text;
    the dotted-quad form is parsed here in full, the colon form by a
    supplied IPv6 parser. */
module NetAddr {
  import opened Base
  import Text

  datatype Addr = V4(a: uint8, b: uint8, c: uint8, d: uint8) | V6(bytes: Bytes, zone: string)

  /** `netip.ParseAddr` on text containing a colon first. */
  type V6Parser = string -> Option<Addr>

  predicate IsDelimiter(ch: char)
  {
    ch == '.' || ch == ':' || ch == '%'
  }

  /** The first `.`, `:` or `%` in the text, if any. */
  function FirstDelimiter(s: string): (r: Option<char>)
    ensures r.Some? ==> IsDelimiter(r.value)
    ensures r.None? <==> forall k :: 0 <= k < |s| ==> !IsDelimiter(s[k])
  {
    if |s| == 0 then None
    else if IsDelimiter(s[0]) then Some(s[0])
    else
      var r := FirstDelimiter(s[1..]);
      assert forall k :: 1 <= k < |s| ==> s[k] == s[1..][k - 1];
      r
  }

  /** One field of a dotted quad: one to three digits, no leading zero
      unless the field is `0` itself, and at most 255. */
  function Octet(f: string): (r: Option<uint8>)
    ensures r.Some? ==> |f| > 0 && Text.AllDigits(f) && (|f| > 1 ==> f[0] != '0')
  {
    if |f| == 0 || !Text.AllDigits(f) || (|f| > 1 && f[0] == '0') then None
    else
      var v := Text.NumeralValue(f);
      if v > MaxUint8 then None else Some(v)
  }

  /** The dotted-quad parser: exactly four `.`-separated fields, each an
      octet. */
  function ParseV4(s: string): (r: Option<Addr>)
    ensures r.Some? ==> r.value.V4? && Text.Count(s, '.') == 3
  {
    var f := Text.Split(s, '.');
    if |f| != 4 then None
    else
      match (Octet(f[0]), Octet(f[1]), Octet(f[2]), Octet(f[3]))
      case (Some(a), Some(b), Some(c), Some(d)) => Some(V4(a, b, c, d))
      case _ => None
  }

  /** `netip.ParseAddr`. */
  function ParseAddr(s: string, v6: V6Parser): (r: Option<Addr>)
    ensures FirstDelimiter(s) == Some('.') ==> r == ParseV4(s)
    ensures FirstDelimiter(s) == Some(':') ==> r == v6(s)
    ensures FirstDelimiter(s) != Some('.') && FirstDelimiter(s) != Some(':') ==> r == None
  {
    match FirstDelimiter(s)
    case Some(ch) => if ch == '.' then ParseV4(s) else if ch == ':' then v6(s) else None
    case None => None
  }

  /** `parseIPToNetip`: nothing for the empty text or text that does not
      parse, otherwise the address. */
  function ParseIP(s: string, v6: V6Parser): (r: Option<Addr>)
    ensures s == "" ==> r == None
    ensures s != "" ==> r == ParseAddr(s, v6)
  {
    if s == "" then None else ParseAddr(s, v6)
  }

  /** The dotted-quad text of an IPv4 address. */
  function FormatV4(a: uint8, b: uint8, c: uint8, d: uint8): string
  {
    Text.Join([Text.Decimal(a), Text.Decimal(b), Text.Decimal(c), Text.Decimal(d)], '.')
  }

  lemma OctetOfDecimal(n: uint8)
    ensures Octet(Text.Decimal(n)) == Some(n)
  {
    Text.DecimalValue(n);
  }

  lemma DecimalHasNoDelimiter(n: nat)
    ensures forall k :: 0 <= k < |Text.Decimal(n)| ==> !IsDelimiter(Text.Decimal(n)[k])
  {
    var s := Text.Decimal(n);
    forall k | 0 <= k < |s| ensures !IsDelimiter(s[k]) {
      assert Text.IsDigit(s[k]);
    }
  }

  /** The first delimiter of text that starts with a delimiter-free part
      followed by a dot is that dot. */
  lemma {:induction false} FirstDelimiterAfter(p: string, rest: string)
    requires forall k :: 0 <= k < |p| ==> !IsDelimiter(p[k])
    ensures FirstDelimiter(p + ['.'] + rest) == Some('.')
  {
    if |p| > 0 {
      assert (p + ['.'] + rest)[1..] == p[1..] + ['.'] + rest;
      FirstDelimiterAfter(p[1..], rest);
    }
  }

  /** A formatted address parses back to itself. */
  lemma ParseFormatV4(a: uint8, b: uint8, c: uint8, d: uint8, v6: V6Parser)
    ensures ParseIP(FormatV4(a, b, c, d), v6) == Some(V4(a, b, c, d))
  {
    var fields := [Text.Decimal(a), Text.Decimal(b), Text.Decimal(c), Text.Decimal(d)];
    var s := FormatV4(a, b, c, d);
    forall k | 0 <= k < 4 ensures '.' !in fields[k] {
      DecimalHasNoDelimiter([a, b, c, d][k]);
      assert forall j :: 0 <= j < |fields[k]| ==> fields[k][j] != '.';
    }
    Text.SplitJoin(fields, '.');
    DecimalHasNoDelimiter(a);
    assert s == fields[0] + ['.'] + Text.Join(fields[1..], '.');
    FirstDelimiterAfter(fields[0], Text.Join(fields[1..], '.'));
    OctetOfDecimal(a);
    OctetOfDecimal(b);
    OctetOfDecimal(c);
    OctetOfDecimal(d);
  }
}
