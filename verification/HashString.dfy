/** The stored form of the downstream key: six '$'-separated fields around an argon2id hash. */
module HashStrings {
  import opened Wrappers
  import opened Base64
  import opened Text

  const ARGON_VERSION := 19
  const MEMORY := 64 * 1024
  const TIME := 1
  const THREADS := 4
  const KEY_LENGTH := 32

  /** argon2.IDKey as an arbitrary function of value, salt, time, memory, threads and output length. */
  type Kdf = (string, seq<Byte>, int, int, int, int) -> seq<Byte>

  /** All that is used of it: the output has the length asked for. */
  ghost predicate Sized(kdf: Kdf) {
    forall value, salt, time, memory, threads, length :: length >= 0 ==> |kdf(value, salt, time, memory, threads, length)| == length
  }

  datatype Error = BadFormat | BadVersion | BadParameters | BadEncoding

  function VersionField(version: int): string {
    "v=" + Decimal(version)
  }

  datatype Parameters = Parameters(memory: int, time: int, threads: int)

  function ParameterField(p: Parameters): string {
    "m=" + Decimal(p.memory) + ",t=" + Decimal(p.time) + ",p=" + Decimal(p.threads)
  }

  function Fields(version: int, p: Parameters, salt: seq<Byte>, hash: seq<Byte>): seq<string> {
    ["", "argon2id", VersionField(version), ParameterField(p), Encode(Standard, salt), Encode(Standard, hash)]
  }

  /** Each field but the first, which is empty, is written behind a '$'. */
  function Stored(version: int, p: Parameters, salt: seq<Byte>, hash: seq<Byte>): string {
    Join(Fields(version, p, salt, hash), '$')
  }

  function Hash(kdf: Kdf, value: string, salt: seq<Byte>): string {
    Stored(ARGON_VERSION, Parameters(MEMORY, TIME, THREADS), salt, kdf(value, salt, TIME, MEMORY, THREADS, KEY_LENGTH))
  }

  /** Sscanf(s, "v=%d"); text after the number is not looked at. */
  function ScanVersion(s: string): Option<int> {
    match After(s, "v=")
    case None => None
    case Some(rest) =>
      match ScanNumber(rest, true, -0x8000_0000_0000_0000, 0x7FFF_FFFF_FFFF_FFFF)
      case None => None
      case Some((n, _)) => Some(n)
  }

  /** Sscanf(s, "m=%d,t=%d,p=%d") into two uint32 and a uint8. */
  function ScanParameters(s: string): Option<Parameters> {
    match After(s, "m=")
    case None => None
    case Some(s1) =>
      match ScanNumber(s1, false, 0, 0xFFFF_FFFF)
      case None => None
      case Some((memory, s2)) =>
        match After(s2, ",t=")
        case None => None
        case Some(s3) =>
          match ScanNumber(s3, false, 0, 0xFFFF_FFFF)
          case None => None
          case Some((time, s4)) =>
            match After(s4, ",p=")
            case None => None
            case Some(s5) =>
              match ScanNumber(s5, false, 0, 0xFF)
              case None => None
              case Some((threads, _)) => Some(Parameters(memory, time, threads))
  }

  function Verify(kdf: Kdf, value: string, encoded: string): Result<bool, Error> {
    var parts := Split(encoded, '$');
    if |parts| != 6 then Err(BadFormat)
    else if ScanVersion(parts[2]) != Some(ARGON_VERSION) then Err(BadVersion)
    else match ScanParameters(parts[3])
      case None => Err(BadParameters)
      case Some(p) =>
        match (Decode(Standard, parts[4]), Decode(Standard, parts[5]))
        case (Some(salt), Some(expected)) => Ok(kdf(value, salt, p.time, p.memory, p.threads, |expected|) == expected)
        case _ => Err(BadEncoding)
  }

  // ---------- Round trip ----------

  lemma NoDollar(n: int)
    ensures '$' !in Decimal(n)
  {
    DigitsRoundTrip(if n < 0 then -n else n);
    assert forall c :: c in Digits(if n < 0 then -n else n) ==> IsDigit(c);
  }

  lemma FieldsHaveNoDollar(version: int, p: Parameters)
    ensures '$' !in VersionField(version) && '$' !in ParameterField(p)
  {
    NoDollar(version);
    NoDollar(p.memory);
    NoDollar(p.time);
    NoDollar(p.threads);
  }

  lemma VersionScan(version: int)
    requires -0x8000_0000_0000_0000 <= version <= 0x7FFF_FFFF_FFFF_FFFF
    ensures ScanVersion(VersionField(version)) == Some(version)
  {
    assert VersionField(version) == "v=" + (Decimal(version) + "");
    AfterLiteral("v=", Decimal(version) + "");
    ScanDecimal(version, "", true, -0x8000_0000_0000_0000, 0x7FFF_FFFF_FFFF_FFFF);
  }

  /** The parameters fit the integers they are scanned into. */
  predicate Fit(p: Parameters) {
    0 <= p.memory <= 0xFFFF_FFFF && 0 <= p.time <= 0xFFFF_FFFF && 0 <= p.threads <= 0xFF
  }

  lemma ParametersScan(p: Parameters)
    requires Fit(p)
    ensures ScanParameters(ParameterField(p)) == Some(p)
  {
    var s5 := Decimal(p.threads);
    var s4 := ",p=" + s5;
    var s3 := Decimal(p.time) + s4;
    var s2 := ",t=" + s3;
    var s1 := Decimal(p.memory) + s2;
    ParameterText(p, s1, s2, s3, s4, s5);
    AfterLiteral("m=", s1);
    ScanDecimal(p.memory, s2, false, 0, 0xFFFF_FFFF);
    AfterLiteral(",t=", s3);
    ScanDecimal(p.time, s4, false, 0, 0xFFFF_FFFF);
    AfterLiteral(",p=", s5);
    ScanDecimal(p.threads, "", false, 0, 0xFF);
    assert s5 + "" == s5;
    ScansTo("m=" + s1, p, s1, s2, s3, s4, s5);
  }

  lemma ParameterText(p: Parameters, s1: string, s2: string, s3: string, s4: string, s5: string)
    requires s5 == Decimal(p.threads) && s4 == ",p=" + s5 && s3 == Decimal(p.time) + s4
    requires s2 == ",t=" + s3 && s1 == Decimal(p.memory) + s2
    ensures ParameterField(p) == "m=" + s1
  {
    var memory, time := "m=" + Decimal(p.memory), Decimal(p.time);
    assert memory + ",t=" + time + ",p=" + s5 == memory + (",t=" + (time + (",p=" + s5)));
    assert memory + s2 == "m=" + (Decimal(p.memory) + s2);
  }

  lemma ScansTo(s: string, p: Parameters, s1: string, s2: string, s3: string, s4: string, s5: string)
    requires After(s, "m=") == Some(s1) && ScanNumber(s1, false, 0, 0xFFFF_FFFF) == Some((p.memory, s2))
    requires After(s2, ",t=") == Some(s3) && ScanNumber(s3, false, 0, 0xFFFF_FFFF) == Some((p.time, s4))
    requires After(s4, ",p=") == Some(s5) && ScanNumber(s5, false, 0, 0xFF) == Some((p.threads, ""))
    ensures ScanParameters(s) == Some(p)
  {
  }

  /** The string splits into exactly its six fields. */
  lemma SixFields(version: int, p: Parameters, salt: seq<Byte>, hash: seq<Byte>)
    ensures Split(Stored(version, p, salt, hash), '$') ==
              ["", "argon2id", "v=" + Decimal(version),
               "m=" + Decimal(p.memory) + ",t=" + Decimal(p.time) + ",p=" + Decimal(p.threads),
               Encode(Standard, salt), Encode(Standard, hash)]
  {
    FieldsHaveNoDollar(version, p);
    NoSeparators(Standard, salt);
    NoSeparators(Standard, hash);
    SplitJoin(Fields(version, p, salt, hash), '$');
  }

  /** Of any stored string, whatever version and parameters it names: only version 19 is accepted, and a value
      verifies exactly if its hash under the stored salt, parameters and length is the stored one. */
  lemma VerifyStored(kdf: Kdf, value: string, version: int, p: Parameters, salt: seq<Byte>, hash: seq<Byte>)
    requires -0x8000_0000_0000_0000 <= version <= 0x7FFF_FFFF_FFFF_FFFF && Fit(p)
    ensures Verify(kdf, value, Stored(version, p, salt, hash)) ==
              if version != 19 then Err(BadVersion) else Ok(kdf(value, salt, p.time, p.memory, p.threads, |hash|) == hash)
  {
    SixFields(version, p, salt, hash);
    VersionScan(version);
    ParametersScan(p);
    RoundTrip(Standard, salt);
    RoundTrip(Standard, hash);
  }

  /** A string with another number of fields is refused. */
  lemma OtherFieldCounts(kdf: Kdf, value: string, parts: seq<string>)
    requires parts != [] && |parts| != 6 && forall part :: part in parts ==> '$' !in part
    ensures Verify(kdf, value, Join(parts, '$')) == Err(BadFormat)
  {
    SplitJoin(parts, '$');
  }

  /** Verifying a value against the stored form of another never errs, and says yes exactly when their hashes
      under the stored salt coincide, with 64 MiB, one pass, four threads and 32 bytes; in particular a value
      verifies against its own stored form. */
  lemma VerifyHash(kdf: Kdf, value: string, other: string, salt: seq<Byte>)
    requires Sized(kdf)
    ensures Verify(kdf, other, Hash(kdf, value, salt)) == Ok(kdf(other, salt, 1, 65_536, 4, 32) == kdf(value, salt, 1, 65_536, 4, 32))
    ensures Verify(kdf, value, Hash(kdf, value, salt)) == Ok(true)
  {
    var hash := kdf(value, salt, TIME, MEMORY, THREADS, KEY_LENGTH);
    VerifyStored(kdf, other, ARGON_VERSION, Parameters(MEMORY, TIME, THREADS), salt, hash);
    VerifyStored(kdf, value, ARGON_VERSION, Parameters(MEMORY, TIME, THREADS), salt, hash);
  }
}
