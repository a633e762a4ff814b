/** The password hasher: the strength policy, the self-describing Argon2id
    digest `$argon2id$v=19$m=<memory>,t=<iterations>,p=<parallelism>$<salt>$<key>`
    (salt and key in unpadded standard base64), its parser, and
    verification.  The Argon2id key derivation itself is a parameter `kdf`;
    the random salt is a parameter too. */
module Password {
  import opened Base
  import Text
  import Base64

  /** `argon2.Version`, the only version the parser accepts. */
  const Argon2Version: nat := 0x13

  /** The tunable cost parameters; `NewPasswordManager` fixes them. */
  datatype PasswordManager = PasswordManager(
    memory: uint32,       // KiB
    iterations: uint32,
    parallelism: uint8,
    saltLength: uint32,   // bytes
    keyLength: uint32)    // bytes

  /** `NewPasswordManager`: 64 MiB, 3 passes, 4 lanes, 16-byte salt, 32-byte key. */
  const Default: PasswordManager := PasswordManager(65536, 3, 4, 16, 32)

  /** Argon2id as `argon2.IDKey(password, salt, time, memory, threads, keyLen)`
      computes it; opaque to this model. */
  type Kdf = (string, Bytes, uint32, uint32, uint8, uint32) -> Bytes

  // ---------------------------------------------------------------------
  // Strength policy
  // ---------------------------------------------------------------------

  datatype StrengthError = TooShort | TooLong | NoUpper | NoLower | NoNumber | NoSpecial

  /** The error text each rule reports. */
  function StrengthMessage(e: StrengthError): (msg: string)
    ensures "password must " <= msg
  {
    match e
    case TooShort => "password must be at least 8 characters long"
    case TooLong => "password must be no more than 128 characters long"
    case NoUpper => "password must contain at least one uppercase letter"
    case NoLower => "password must contain at least one lowercase letter"
    case NoNumber => "password must contain at least one number"
    case NoSpecial => "password must contain at least one special character"
  }

  const MinLength: nat := 8
  const MaxLength: nat := 128

  datatype CharClass = Upper | Lower | Number | Special | Unclassified

  /** The `switch` over one rune: ASCII letters and digits, and ASCII
      punctuation in the four ranges `!`..`/`, `:`..`@`, `[`..`` ` `` and
      `{`..`~`.  Every other rune (space, control, non-ASCII) sets no flag. */
  function Classify(c: char): CharClass
  {
    if 'A' <= c <= 'Z' then Upper
    else if 'a' <= c <= 'z' then Lower
    else if '0' <= c <= '9' then Number
    else if ('!' <= c <= '/') || (':' <= c <= '@') || ('[' <= c <= '`') || ('{' <= c <= '~') then Special
    else Unclassified
  }

  /** Some rune of `p` falls in class `k`. */
  predicate HasClass(p: string, k: CharClass)
  {
    exists i :: 0 <= i < |p| && Classify(p[i]) == k
  }

  datatype Flags = Flags(upper: bool, lower: bool, number: bool, special: bool)

  /** The four flags the rune walk raises. */
  function ScanClasses(p: string): (f: Flags)
    ensures f.upper <==> HasClass(p, Upper)
    ensures f.lower <==> HasClass(p, Lower)
    ensures f.number <==> HasClass(p, Number)
    ensures f.special <==> HasClass(p, Special)
  {
    if |p| == 0 then Flags(false, false, false, false)
    else
      var rest := ScanClasses(p[1..]);
      assert forall i :: 1 <= i < |p| ==> p[i] == p[1..][i - 1];
      var c := Classify(p[0]);
      Flags(rest.upper || c == Upper, rest.lower || c == Lower,
            rest.number || c == Number, rest.special || c == Special)
  }

  /** `ValidatePasswordStrength`: the byte length (Go's `len`) first, then
      the character classes, reporting only the first rule that fails in
      the order minimum length, maximum length, upper, lower, number,
      special. */
  function ValidatePasswordStrength(p: string): (err: Option<StrengthError>)
    ensures ByteLen(p) < MinLength ==> err == Some(TooShort)
    ensures ByteLen(p) > MaxLength ==> err == Some(TooLong)
    ensures err == None <==>
              MinLength <= ByteLen(p) <= MaxLength
              && HasClass(p, Upper) && HasClass(p, Lower)
              && HasClass(p, Number) && HasClass(p, Special)
    ensures err == Some(NoUpper) <==>
              MinLength <= ByteLen(p) <= MaxLength && !HasClass(p, Upper)
    ensures err == Some(NoLower) <==>
              MinLength <= ByteLen(p) <= MaxLength && HasClass(p, Upper) && !HasClass(p, Lower)
    ensures err == Some(NoNumber) <==>
              MinLength <= ByteLen(p) <= MaxLength && HasClass(p, Upper) && HasClass(p, Lower)
              && !HasClass(p, Number)
    ensures err == Some(NoSpecial) <==>
              MinLength <= ByteLen(p) <= MaxLength && HasClass(p, Upper) && HasClass(p, Lower)
              && HasClass(p, Number) && !HasClass(p, Special)
  {
    var n := ByteLen(p);
    if n < MinLength then Some(TooShort)
    else if n > MaxLength then Some(TooLong)
    else
      var f := ScanClasses(p);
      if !f.upper then Some(NoUpper)
      else if !f.lower then Some(NoLower)
      else if !f.number then Some(NoNumber)
      else if !f.special then Some(NoSpecial)
      else None
  }

  /** The length rule counts bytes, not characters: six characters, two
      of them three-byte euro signs, pass the eight-"character" minimum. */
  lemma LengthCountsBytes()
    ensures var p := "Aa1!€€";
            |p| == 6 && ByteLen(p) == 10 && ValidatePasswordStrength(p) == None
  {
    var p := "Aa1!€€";
    assert Classify(p[0]) == Upper && Classify(p[1]) == Lower;
    assert Classify(p[2]) == Number && Classify(p[3]) == Special;
  }

  // ---------------------------------------------------------------------
  // The encoded digest
  // ---------------------------------------------------------------------

  datatype HashError =
    | SaltGenerationFailed   // "failed to generate salt"
    | InvalidFormat          // "invalid hash format"
    | IncompatibleAlgorithm  // "incompatible hash algorithm"
    | InvalidVersion         // "invalid version"
    | IncompatibleVersion    // "incompatible argon2 version"
    | InvalidParameters      // "invalid parameters"
    | InvalidSalt            // "invalid salt"
    | InvalidHash            // "invalid hash"
    | UnusableParameters     // a pass count or lane count of zero

  /** The parameters, salt and derived key a digest carries. */
  datatype Params = Params(memory: uint32, iterations: uint32, parallelism: uint8,
                           salt: Bytes, key: Bytes)

  /** The third field of a digest: `m=<memory>,t=<iterations>,p=<parallelism>`. */
  function CostField(memory: uint32, iterations: uint32, parallelism: uint8): string
  {
    "m=" + Text.Decimal(memory) + ",t=" + Text.Decimal(iterations) + ",p=" + Text.Decimal(parallelism)
  }

  /** The fields of the digest `HashPassword` prints, in order; the first is
      the empty text before the leading `$`. */
  function DigestFields(p: Params): seq<string>
  {
    ["", "argon2id", "v=" + Text.Decimal(Argon2Version),
     CostField(p.memory, p.iterations, p.parallelism),
     Base64.Encode(p.salt), Base64.Encode(p.key)]
  }

  /** The digest text for the given parameters. */
  function EncodeDigest(p: Params): string
  {
    Text.Join(DigestFields(p), '$')
  }

  /** `HashPassword`: derives the key from the fresh salt with the manager's
      costs and prints the digest.  `random` is what the system random
      source delivered (`None` when it failed). */
  function HashPassword(pm: PasswordManager, password: string, random: Option<Bytes>, kdf: Kdf)
    : (r: Result<string, HashError>)
    ensures random.None? <==> r == Err(SaltGenerationFailed)
    ensures r.Ok? ==>
              ParseHash(r.value)
              == Ok(Params(pm.memory, pm.iterations, pm.parallelism, random.value,
                           kdf(password, random.value, pm.iterations, pm.memory, pm.parallelism, pm.keyLength)))
  {
    match random
    case None => Err(SaltGenerationFailed)
    case Some(salt) =>
      var key := kdf(password, salt, pm.iterations, pm.memory, pm.parallelism, pm.keyLength);
      var p := Params(pm.memory, pm.iterations, pm.parallelism, salt, key);
      ParseEncodeDigest(p);
      Ok(EncodeDigest(p))
  }

  /** `fmt.Sscanf(field, "v=%d", &version)`. */
  function ScanVersion(field: string): Option<int>
  {
    var rest :- Text.ScanLiteral(field, "v=");
    var (v, _) :- Text.ScanInt(rest);
    Some(v)
  }

  /** One `<lit>%d` step of a scan format: the literal text, then an
      unsigned number no larger than `max`; returns the number and the
      unread input. */
  function ScanField(s: string, lit: string, max: nat): Option<(nat, string)>
  {
    var rest :- Text.ScanLiteral(s, lit);
    Text.ScanUint(rest, max)
  }

  /** `fmt.Sscanf(field, "m=%d,t=%d,p=%d", &memory, &iterations, &parallelism)`
      into a `uint32`, a `uint32` and a `uint8`. */
  function ScanCosts(field: string): Option<(uint32, uint32, uint8)>
  {
    var (m, r1) :- ScanField(field, "m=", MaxUint32);
    var (t, r2) :- ScanField(r1, ",t=", MaxUint32);
    var (p, _) :- ScanField(r2, ",p=", MaxUint8);
    Some((m, t, p))
  }

  /** `parseHash`: exactly six `$`-separated fields, the algorithm name
      `argon2id`, version 19, three cost numbers, then salt and key in
      base64.  Each failure has its own error, checked in that order. */
  function ParseHash(encoded: string): (r: Result<Params, HashError>)
    ensures Text.Count(encoded, '$') != 5 ==> r == Err(InvalidFormat)
    ensures r.Ok? ==> Text.Split(encoded, '$')[1] == "argon2id"
    ensures r.Ok? ==> ScanVersion(Text.Split(encoded, '$')[2]) == Some(Argon2Version)
  {
    ParseFields(Text.Split(encoded, '$'))
  }

  /** The checks of `parseHash` on the fields of the split digest; the
      first field is never looked at. */
  function ParseFields(parts: seq<string>): (r: Result<Params, HashError>)
    ensures |parts| != 6 ==> r == Err(InvalidFormat)
    ensures r.Ok? ==> parts[1] == "argon2id" && ScanVersion(parts[2]) == Some(Argon2Version)
  {
    if |parts| != 6 then Err(InvalidFormat)
    else if parts[1] != "argon2id" then Err(IncompatibleAlgorithm)
    else
      match ScanVersion(parts[2])
      case None => Err(InvalidVersion)
      case Some(version) =>
        if version != Argon2Version then Err(IncompatibleVersion)
        else
          match ScanCosts(parts[3])
          case None => Err(InvalidParameters)
          case Some((m, t, p)) =>
            match Base64.Decode(parts[4])
            case None => Err(InvalidSalt)
            case Some(salt) =>
              match Base64.Decode(parts[5])
              case None => Err(InvalidHash)
              case Some(key) => Ok(Params(m, t, p, salt, key))
  }

  lemma ScanVersionOfDigest()
    ensures ScanVersion("v=" + Text.Decimal(Argon2Version)) == Some(Argon2Version as int)
  {
    var f := "v=" + Text.Decimal(Argon2Version);
    assert f[2..] == Text.Decimal(Argon2Version) + "";
    Text.ScanIntDecimal(Argon2Version, "");
  }

  lemma ScanFieldDecimal(lit: string, n: nat, max: nat, rest: string)
    requires n <= max && n <= MaxUint64
    requires |rest| > 0 ==> !Text.IsDigit(rest[0])
    ensures ScanField(lit + Text.Decimal(n) + rest, lit, max) == Some((n, rest))
  {
    var s := lit + Text.Decimal(n) + rest;
    assert s[|lit|..] == Text.Decimal(n) + rest;
    Text.ScanUintDecimal(n, max, rest);
  }

  lemma ScanCostsOfDigest(m: uint32, t: uint32, p: uint8)
    ensures ScanCosts(CostField(m, t, p)) == Some((m, t, p))
  {
    var dm, dt, dp := Text.Decimal(m), Text.Decimal(t), Text.Decimal(p);
    var r2 := ",p=" + dp + "";
    var r1 := ",t=" + dt + r2;
    assert CostField(m, t, p) == "m=" + dm + r1;
    ScanFieldDecimal("m=", m, MaxUint32, r1);
    ScanFieldDecimal(",t=", t, MaxUint32, r2);
    ScanFieldDecimal(",p=", p, MaxUint8, "");
  }

  /** Parsing a printed digest recovers exactly the parameters, salt bytes
      and key bytes that were printed. */
  lemma ParseEncodeDigest(p: Params)
    ensures ParseHash(EncodeDigest(p)) == Ok(p)
  {
    DigestFieldsHaveNoDollar(p);
    Text.SplitJoin(DigestFields(p), '$');
    ParseDigestFields(p);
  }

  lemma ParseDigestFields(p: Params)
    ensures ParseFields(DigestFields(p)) == Ok(p)
  {
    DigestVersionField(p);
    DigestCostField(p);
    DigestBase64Fields(p);
    ParseWellFormedFields(DigestFields(p), p);
  }

  lemma DigestVersionField(p: Params)
    ensures ScanVersion(DigestFields(p)[2]) == Some(Argon2Version as int)
  {
    ScanVersionOfDigest();
  }

  lemma DigestCostField(p: Params)
    ensures ScanCosts(DigestFields(p)[3]) == Some((p.memory, p.iterations, p.parallelism))
  {
    ScanCostsOfDigest(p.memory, p.iterations, p.parallelism);
  }

  lemma DigestBase64Fields(p: Params)
    ensures Base64.Decode(DigestFields(p)[4]) == Some(p.salt)
    ensures Base64.Decode(DigestFields(p)[5]) == Some(p.key)
  {
    Base64.DecodeEncode(p.salt);
    Base64.DecodeEncode(p.key);
  }

  /** Six fields that each pass their check parse to the parameters they
      carry. */
  lemma ParseWellFormedFields(parts: seq<string>, p: Params)
    requires |parts| == 6 && parts[1] == "argon2id"
    requires ScanVersion(parts[2]) == Some(Argon2Version as int)
    requires ScanCosts(parts[3]) == Some((p.memory, p.iterations, p.parallelism))
    requires Base64.Decode(parts[4]) == Some(p.salt) && Base64.Decode(parts[5]) == Some(p.key)
    ensures ParseFields(parts) == Ok(p)
  {
  }

  lemma DigestFieldsHaveNoDollar(p: Params)
    ensures forall k :: 0 <= k < |DigestFields(p)| ==> '$' !in DigestFields(p)[k]
  {
    var fields := DigestFields(p);
    forall k | 0 <= k < |fields| ensures '$' !in fields[k] {
      if k == 4 { assert forall j :: 0 <= j < |fields[4]| ==> Base64.InAlphabet(fields[4][j]); }
      if k == 5 { assert forall j :: 0 <= j < |fields[5]| ==> Base64.InAlphabet(fields[5][j]); }
      if k == 2 { assert fields[2][2..] == Text.Decimal(Argon2Version); }
      if k == 3 { CostFieldHasNoDollar(p.memory, p.iterations, p.parallelism); }
    }
  }

  lemma CostFieldHasNoDollar(m: uint32, t: uint32, p: uint8)
    ensures '$' !in CostField(m, t, p)
  {
    var dm, dt, dp := Text.Decimal(m), Text.Decimal(t), Text.Decimal(p);
    assert CostField(m, t, p) == "m=" + dm + ",t=" + dt + ",p=" + dp;
    assert '$' !in dm && '$' !in dt && '$' !in dp;
  }

  /** Two different salts give two different digests. */
  lemma DistinctSaltsDistinctDigests(pm: PasswordManager, password: string, s1: Bytes, s2: Bytes, kdf: Kdf)
    requires s1 != s2
    ensures HashPassword(pm, password, Some(s1), kdf) != HashPassword(pm, password, Some(s2), kdf)
  {
  }

  /** Only the text from the first `$` on is checked: anything before it
      is ignored by the parser. */
  lemma LeadingFieldIgnored(p: Params, junk: string)
    requires '$' !in junk
    ensures ParseHash(junk + EncodeDigest(p)) == Ok(p)
  {
    var fields := DigestFields(p);
    var fields' := fields[0 := junk];
    assert junk + EncodeDigest(p) == Text.Join(fields', '$') by {
      assert fields'[1..] == fields[1..];
    }
    DigestFieldsHaveNoDollar(p);
    Text.SplitJoin(fields', '$');
    ParseDigestFields(p);
    ParseFieldsIgnoresFirst(fields, junk);
  }

  lemma ParseFieldsIgnoresFirst(parts: seq<string>, first: string)
    requires |parts| > 0
    ensures ParseFields(parts[0 := first]) == ParseFields(parts)
  {
    var q := parts[0 := first];
    assert |q| == |parts|;
    if |parts| == 6 {
      assert q[1] == parts[1] && q[2] == parts[2] && q[3] == parts[3];
      assert q[4] == parts[4] && q[5] == parts[5];
    }
  }

  // ---------------------------------------------------------------------
  // Verification
  // ---------------------------------------------------------------------

  /** Outcome of checking a password against a stored digest. */
  datatype VerifyFailure =
    | ParseFailed(cause: HashError)   // "failed to parse hash: ..."
    | Panicked                        // the KDF aborted the goroutine

  /** Go's `argon2` aborts with a panic when asked for zero passes or zero
      lanes. */
  predicate KdfPanics(iterations: uint32, parallelism: uint8)
  {
    iterations < 1 || parallelism < 1
  }

  /** `VerifyPassword` exactly as written: parse, recompute the key with the
      stored costs and salt and the manager's key length, compare.  A pass
      or lane count of zero that parses is handed to the KDF, which panics. */
  function VerifyPasswordAsWritten(pm: PasswordManager, password: string, encoded: string, kdf: Kdf)
    : (r: Result<bool, VerifyFailure>)
    ensures ParseHash(encoded).Err? ==> r == Err(ParseFailed(ParseHash(encoded).error))
    ensures r.Ok? ==> (ParseHash(encoded).Ok? &&
              var p := ParseHash(encoded).value;
              (r.value <==> p.key == kdf(password, p.salt, p.iterations, p.memory, p.parallelism, pm.keyLength)))
    ensures r == Err(Panicked) <==>
              ParseHash(encoded).Ok? && KdfPanics(ParseHash(encoded).value.iterations,
                                                  ParseHash(encoded).value.parallelism)
  {
    match ParseHash(encoded)
    case Err(e) => Err(ParseFailed(e))
    case Ok(p) =>
      if KdfPanics(p.iterations, p.parallelism) then Err(Panicked)
      else
        var other := kdf(password, p.salt, p.iterations, p.memory, p.parallelism, pm.keyLength);
        Ok(p.key == other)
  }

  /** `VerifyPassword` as evidently intended: a digest whose costs the KDF
      cannot run with fails closed with an error, like any other malformed
      digest. */
  function VerifyPassword(pm: PasswordManager, password: string, encoded: string, kdf: Kdf)
    : (r: Result<bool, VerifyFailure>)
    ensures r != Err(Panicked)
    ensures ParseHash(encoded).Err? ==> r == Err(ParseFailed(ParseHash(encoded).error))
    ensures r.Ok? ==> (ParseHash(encoded).Ok? &&
              var p := ParseHash(encoded).value;
              (r.value <==> p.key == kdf(password, p.salt, p.iterations, p.memory, p.parallelism, pm.keyLength)))
    ensures VerifyPasswordAsWritten(pm, password, encoded, kdf) != Err(Panicked) ==>
              r == VerifyPasswordAsWritten(pm, password, encoded, kdf)
  {
    match ParseHash(encoded)
    case Err(e) => Err(ParseFailed(e))
    case Ok(p) =>
      if KdfPanics(p.iterations, p.parallelism) then Err(ParseFailed(UnusableParameters))
      else
        var other := kdf(password, p.salt, p.iterations, p.memory, p.parallelism, pm.keyLength);
        Ok(p.key == other)
  }

  /** A digest the manager printed for a password verifies that password,
      provided the manager's own costs are usable. */
  lemma VerifyHashedPassword(pm: PasswordManager, password: string, salt: Bytes, kdf: Kdf)
    requires !KdfPanics(pm.iterations, pm.parallelism)
    ensures VerifyPassword(pm, password, HashPassword(pm, password, Some(salt), kdf).value, kdf) == Ok(true)
  {
  }

  /** A password whose derived key differs from the stored one is refused
      without error. */
  lemma VerifyOtherPassword(pm: PasswordManager, password: string, other: string, salt: Bytes, kdf: Kdf)
    requires !KdfPanics(pm.iterations, pm.parallelism)
    requires kdf(other, salt, pm.iterations, pm.memory, pm.parallelism, pm.keyLength)
             != kdf(password, salt, pm.iterations, pm.memory, pm.parallelism, pm.keyLength)
    ensures VerifyPassword(pm, other, HashPassword(pm, password, Some(salt), kdf).value, kdf) == Ok(false)
  {
  }

  /** The default manager's costs are usable. */
  lemma DefaultCostsUsable()
    ensures !KdfPanics(Default.iterations, Default.parallelism)
  {
  }

  /** The discrepancy: a well-formed digest with a pass count of zero
      parses, and verification as written then panics instead of failing
      closed; the intended verification reports a parse failure. */
  lemma ZeroPassDigestPanics(pm: PasswordManager, password: string, memory: uint32,
                             parallelism: uint8, salt: Bytes, key: Bytes, kdf: Kdf)
    ensures var d := EncodeDigest(Params(memory, 0, parallelism, salt, key));
            && ParseHash(d).Ok?
            && VerifyPasswordAsWritten(pm, password, d, kdf) == Err(Panicked)
            && VerifyPassword(pm, password, d, kdf) == Err(ParseFailed(UnusableParameters))
  {
    ParseEncodeDigest(Params(memory, 0, parallelism, salt, key));
  }
}
