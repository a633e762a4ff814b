/** Base64 with the standard alphabet and no padding (section 4 of RFC 4648,
    padding omitted as section 3.2 allows), as Go's
    `base64.RawStdEncoding` encodes and, in its default non-strict mode,
    decodes: carriage returns and line feeds in the input are skipped, a
    final group of one character is corrupt, and unused low bits of a final
    partial group are ignored. */
module Base64 {
  import opened Base

  predicate InAlphabet(c: char)
  {
    ('A' <= c <= 'Z') || ('a' <= c <= 'z') || ('0' <= c <= '9') || c == '+' || c == '/'
  }

  /** The character for a six-bit value. */
  function Char(v: nat): (c: char)
    requires v < 64
    ensures InAlphabet(c)
  {
    if v < 26 then ('A' as int + v) as char
    else if v < 52 then ('a' as int + (v - 26)) as char
    else if v < 62 then ('0' as int + (v - 52)) as char
    else if v == 62 then '+'
    else '/'
  }

  /** The six-bit value of a character, or `None` outside the alphabet. */
  function Value(c: char): (r: Option<nat>)
    ensures r.Some? <==> InAlphabet(c)
    ensures r.Some? ==> r.value < 64 && Char(r.value) == c
  {
    if 'A' <= c <= 'Z' then Some(c as int - 'A' as int)
    else if 'a' <= c <= 'z' then Some(c as int - 'a' as int + 26)
    else if '0' <= c <= '9' then Some(c as int - '0' as int + 52)
    else if c == '+' then Some(62)
    else if c == '/' then Some(63)
    else None
  }

  lemma ValueOfChar(v: nat)
    requires v < 64
    ensures Value(Char(v)) == Some(v)
  {
  }

  predicate AllInAlphabet(s: string)
  {
    forall k :: 0 <= k < |s| ==> InAlphabet(s[k])
  }

  predicate AllSextets(v: seq<nat>)
  {
    forall k :: 0 <= k < |v| ==> v[k] < 64
  }

  /** The six-bit groups of `b`, most significant bits first; a final one
      or two bytes give two or three groups, their low bits zero. */
  function Sextets(b: Bytes): (v: seq<nat>)
    ensures AllSextets(v)
    ensures |v| == (4 * |b| + 2) / 3
  {
    if |b| == 0 then []
    else if |b| == 1 then [b[0] / 4, (b[0] % 4) * 16]
    else if |b| == 2 then [b[0] / 4, (b[0] % 4) * 16 + b[1] / 16, (b[1] % 16) * 4]
    else
      var head := [b[0] / 4, (b[0] % 4) * 16 + b[1] / 16, (b[1] % 16) * 4 + b[2] / 64, b[2] % 64];
      var tail := Sextets(b[3..]);
      assert forall k :: 4 <= k < |head + tail| ==> (head + tail)[k] == tail[k - 4];
      head + tail
  }

  /** `EncodeToString`: every three bytes become four characters; a final
      one or two bytes become two or three characters. */
  function Encode(b: Bytes): (s: string)
    ensures AllInAlphabet(s)
    ensures |s| == (4 * |b| + 2) / 3
  {
    var v := Sextets(b);
    seq(|v|, k requires 0 <= k < |v| => Char(v[k]))
  }

  /** The decoder's input with carriage returns and line feeds removed. */
  function DropNewlines(s: string): (t: string)
    ensures |t| <= |s|
    ensures forall k :: 0 <= k < |t| ==> t[k] != '\r' && t[k] != '\n'
  {
    if |s| == 0 then ""
    else if s[0] == '\r' || s[0] == '\n' then DropNewlines(s[1..])
    else [s[0]] + DropNewlines(s[1..])
  }

  /** The six-bit values of all characters, or `None` when one lies outside
      the alphabet. */
  function Values(s: string): (r: Option<seq<nat>>)
    ensures r.Some? <==> AllInAlphabet(s)
    ensures r.Some? ==> |r.value| == |s| && AllSextets(r.value)
    ensures r.Some? ==> forall k :: 0 <= k < |s| ==> Char(r.value[k]) == s[k]
  {
    if |s| == 0 then Some([])
    else
      var head := Value(s[0]);
      var rest := Values(s[1..]);
      assert forall k :: 1 <= k < |s| ==> s[k] == s[1..][k - 1];
      if head.Some? && rest.Some? then Some([head.value] + rest.value)
      else None
  }

  /** Reassembling bytes from six-bit values, four at a time.  A final
      single value is corrupt input; the low bits of a final two or three
      values that do not fill a byte are dropped. */
  function Assemble(v: seq<nat>): (r: Option<Bytes>)
    requires AllSextets(v)
    ensures r.Some? <==> |v| % 4 != 1
    ensures r.Some? ==> |r.value| == (3 * |v|) / 4
  {
    if |v| == 0 then Some([])
    else if |v| == 1 then None
    else
      var c2 := if |v| > 2 then v[2] else 0;
      var c3 := if |v| > 3 then v[3] else 0;
      var b0: uint8 := v[0] * 4 + v[1] / 16;
      var b1: uint8 := (v[1] % 16) * 16 + c2 / 4;
      var b2: uint8 := (c2 % 4) * 64 + c3;
      if |v| == 2 then Some([b0])
      else if |v| == 3 then Some([b0, b1])
      else
        match Assemble(v[4..])
        case None => None
        case Some(rest) => Some([b0, b1, b2] + rest)
  }

  /** `DecodeString`: fails on a character outside the alphabet (after
      newlines are dropped) and on a final group of one character. */
  function Decode(s: string): (r: Option<Bytes>)
    ensures r.Some? <==> AllInAlphabet(DropNewlines(s)) && |DropNewlines(s)| % 4 != 1
    ensures r.Some? ==> |r.value| == (3 * |DropNewlines(s)|) / 4
  {
    match Values(DropNewlines(s))
    case None => None
    case Some(v) => Assemble(v)
  }

  lemma {:induction false} DropNewlinesOfAlphabet(s: string)
    requires AllInAlphabet(s)
    ensures DropNewlines(s) == s
  {
    if |s| > 0 {
      assert AllInAlphabet(s[1..]) by {
        forall k | 0 <= k < |s[1..]| ensures InAlphabet(s[1..][k]) {
          assert s[1..][k] == s[k + 1];
        }
      }
      DropNewlinesOfAlphabet(s[1..]);
      assert s == [s[0]] + s[1..];
    }
  }

  lemma ValuesOfEncode(b: Bytes)
    ensures Values(Encode(b)) == Some(Sextets(b))
  {
    var s := Encode(b);
    var w := Sextets(b);
    var v := Values(s).value;
    forall k | 0 <= k < |s| ensures v[k] == w[k] {
      assert s[k] == Char(w[k]);
      ValueOfChar(v[k]);
      ValueOfChar(w[k]);
    }
    assert v == w;
  }

  /** The bit arithmetic of one group: the four six-bit values cut from
      three bytes reassemble into the same three bytes. */
  lemma GroupArithmetic(b0: uint8, b1: uint8, b2: uint8)
    ensures var c1 := (b0 % 4) * 16 + b1 / 16;
            var c2 := (b1 % 16) * 4 + b2 / 64;
            && (b0 / 4) * 4 + c1 / 16 == b0
            && (c1 % 16) * 16 + c2 / 4 == b1
            && (c2 % 4) * 64 + b2 % 64 == b2
  {
  }

  /** Reassembly undoes the cutting into six-bit groups. */
  lemma {:induction false} AssembleSextets(b: Bytes)
    ensures Assemble(Sextets(b)) == Some(b)
    decreases |b|
  {
    if |b| == 0 {
    } else if |b| == 1 {
      GroupArithmetic(b[0], 0, 0);
      assert b == [b[0]];
    } else if |b| == 2 {
      GroupArithmetic(b[0], b[1], 0);
      assert b == [b[0], b[1]];
    } else {
      var v := Sextets(b);
      assert v[4..] == Sextets(b[3..]);
      AssembleGroup(v, b[0], b[1], b[2]);
      AssembleSextets(b[3..]);
      assert b == [b[0], b[1], b[2]] + b[3..];
    }
  }

  /** Four six-bit values cut from three bytes reassemble into those bytes,
      ahead of whatever the rest reassembles into. */
  lemma AssembleGroup(v: seq<nat>, b0: uint8, b1: uint8, b2: uint8)
    requires AllSextets(v) && |v| >= 4
    requires v[0] == b0 / 4 && v[1] == (b0 % 4) * 16 + b1 / 16
    requires v[2] == (b1 % 16) * 4 + b2 / 64 && v[3] == b2 % 64
    ensures Assemble(v[4..]).Some? ==> Assemble(v) == Some([b0, b1, b2] + Assemble(v[4..]).value)
  {
    GroupArithmetic(b0, b1, b2);
  }

  /** Decoding undoes encoding. */
  lemma DecodeEncode(b: Bytes)
    ensures Decode(Encode(b)) == Some(b)
  {
    DropNewlinesOfAlphabet(Encode(b));
    ValuesOfEncode(b);
    AssembleSextets(b);
  }
}
