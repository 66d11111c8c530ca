/** The admin session cookie: payload and signature, each in URL-safe base64, joined by a dot. */
module Sessions {
  import opened Wrappers
  import opened Base64
  import opened Text

  const NANOS := 1_000_000_000
  const INT64_MIN := -0x8000_0000_0000_0000
  const INT64_MAX := 0x7FFF_FFFF_FFFF_FFFF

  predicate InInt64(n: int) {
    INT64_MIN <= n <= INT64_MAX
  }

  datatype Session = Session(authVersion: int, expiresAt: int)

  datatype Error = BadFormat | BadSignature | BadPayload | Expired

  /** The secret-keyed HMAC as an arbitrary function, and the lifetime of a session in nanoseconds. */
  datatype Manager = Manager(sign: string -> seq<Byte>, ttl: int)

  /** time.Time.Unix: whole seconds, rounded down. */
  function Unix(now: int): int {
    now / NANOS
  }

  const HEAD := "{\"auth_version\":"
  const MIDDLE := ",\"exp\":"

  /** json.Marshal of a session. */
  function Marshal(session: Session): string {
    HEAD + Decimal(session.authVersion) + MIDDLE + Decimal(session.expiresAt) + "}"
  }

  /** Reads back the text Marshal writes; numbers beyond int64 are errors. */
  function Unmarshal(payload: string): Option<Session> {
    match After(payload, HEAD)
    case None => None
    case Some(s1) =>
      match ScanNumber(s1, true, INT64_MIN, INT64_MAX)
      case None => None
      case Some((version, s2)) =>
        match After(s2, MIDDLE)
        case None => None
        case Some(s3) =>
          match ScanNumber(s3, true, INT64_MIN, INT64_MAX)
          case None => None
          case Some((expires, s4)) => if s4 == "}" then Some(Session(version, expires)) else None
  }

  /** The payload's characters are ASCII, so its bytes are their codes. */
  function Bytes(s: string): seq<Byte> {
    seq(|s|, i requires 0 <= i < |s| => s[i] as int % 256)
  }

  function Chars(b: seq<Byte>): string {
    seq(|b|, i requires 0 <= i < |b| => b[i] as char)
  }

  function Token(m: Manager, b: seq<Byte>): string {
    var payload := Base64.Encode(UrlSafe, b);
    payload + "." + Base64.Encode(UrlSafe, m.sign(payload))
  }

  function Encode(m: Manager, authVersion: int, now: int): string {
    Token(m, Bytes(Marshal(Session(authVersion, Unix(now + m.ttl)))))
  }

  /** An undecodable signature counts as the empty one. */
  function DecodeOrNothing(text: string): seq<Byte> {
    match Base64.Decode(UrlSafe, text)
    case None => []
    case Some(b) => b
  }

  function Decode(m: Manager, value: string, now: int): Result<Session, Error> {
    var parts := Split(value, '.');
    if |parts| != 2 then Err(BadFormat)
    else if m.sign(parts[0]) != DecodeOrNothing(parts[1]) then Err(BadSignature)
    else match Base64.Decode(UrlSafe, parts[0])
      case None => Err(BadPayload)
      case Some(payload) =>
        match Unmarshal(Chars(payload))
        case None => Err(BadPayload)
        case Some(session) => if Unix(now) >= session.expiresAt then Err(Expired) else Ok(session)
  }

  // ---------- Round trips ----------

  lemma UnmarshalMarshal(session: Session)
    requires InInt64(session.authVersion) && InInt64(session.expiresAt)
    ensures Unmarshal(Marshal(session)) == Some(session)
  {
    var tail2 := Decimal(session.expiresAt) + "}";
    var tail1 := MIDDLE + tail2;
    assert Marshal(session) == HEAD + (Decimal(session.authVersion) + tail1);
    AfterLiteral(HEAD, Decimal(session.authVersion) + tail1);
    ScanDecimal(session.authVersion, tail1, true, INT64_MIN, INT64_MAX);
    AfterLiteral(MIDDLE, tail2);
    ScanDecimal(session.expiresAt, "}", true, INT64_MIN, INT64_MAX);
  }

  lemma DecimalIsAscii(n: int)
    ensures forall c :: c in Decimal(n) ==> c as int < 128
  {
    DigitsRoundTrip(if n < 0 then -n else n);
    var digits := Digits(if n < 0 then -n else n);
    assert forall c :: c in digits ==> IsDigit(c);
  }

  lemma CharsOfBytes(s: string)
    requires forall c :: c in s ==> c as int < 128
    ensures Chars(Bytes(s)) == s
  {
    forall i | 0 <= i < |s| ensures Chars(Bytes(s))[i] == s[i] { assert s[i] in s; }
  }

  lemma MarshalIsAscii(session: Session)
    ensures forall c :: c in Marshal(session) ==> c as int < 128
  {
    DecimalIsAscii(session.authVersion);
    DecimalIsAscii(session.expiresAt);
  }

  /** A dotted pair of base64 texts comes apart into what was encoded. */
  lemma TokenParts(payload: string, signature: seq<Byte>)
    requires '.' !in payload
    ensures Split(payload + "." + Base64.Encode(UrlSafe, signature), '.') == [payload, Base64.Encode(UrlSafe, signature)]
    ensures DecodeOrNothing(Base64.Encode(UrlSafe, signature)) == signature
  {
    NoSeparators(UrlSafe, signature);
    SplitPart(payload, Base64.Encode(UrlSafe, signature), '.');
    SplitNone(Base64.Encode(UrlSafe, signature), '.');
    RoundTrip(UrlSafe, signature);
  }

  /** A correctly signed payload is judged by its content alone. */
  lemma SignedPayload(m: Manager, b: seq<Byte>, now: int)
    ensures Decode(m, Token(m, b), now) == Judge(Unmarshal(Chars(b)), now)
  {
    var payload := Base64.Encode(UrlSafe, b);
    NoSeparators(UrlSafe, b);
    TokenParts(payload, m.sign(payload));
    RoundTrip(UrlSafe, b);
  }

  function Judge(session: Option<Session>, now: int): Result<Session, Error> {
    match session
    case None => Err(BadPayload)
    case Some(s) => if Unix(now) >= s.expiresAt then Err(Expired) else Ok(s)
  }

  /** For every version, time, lifetime and signing function: the token decodes to the version and the expiry
      exactly while the clock, in whole seconds, is before the expiry, and is an expired session from then on. */
  lemma TokenRoundTrip(m: Manager, authVersion: int, now: int, later: int)
    requires InInt64(authVersion) && InInt64(Unix(now + m.ttl))
    ensures Decode(m, Encode(m, authVersion, now), later) ==
              if Unix(later) < Unix(now + m.ttl) then Ok(Session(authVersion, Unix(now + m.ttl))) else Err(Expired)
  {
    var session, b := TokenBytes(m, authVersion, now);
    SignedSession(m, b, session, later);
  }

  /** What Encode signs. */
  lemma TokenBytes(m: Manager, authVersion: int, now: int) returns (session: Session, b: seq<Byte>)
    requires InInt64(authVersion) && InInt64(Unix(now + m.ttl))
    ensures session == Session(authVersion, Unix(now + m.ttl))
    ensures Encode(m, authVersion, now) == Token(m, b) && Unmarshal(Chars(b)) == Some(session)
  {
    session := Session(authVersion, Unix(now + m.ttl));
    b := Bytes(Marshal(session));
    PayloadReads(session);
  }

  lemma SignedSession(m: Manager, b: seq<Byte>, session: Session, now: int)
    requires Unmarshal(Chars(b)) == Some(session)
    ensures Decode(m, Token(m, b), now) == if Unix(now) < session.expiresAt then Ok(session) else Err(Expired)
  {
    SignedPayload(m, b, now);
  }

  lemma PayloadReads(session: Session)
    requires InInt64(session.authVersion) && InInt64(session.expiresAt)
    ensures Unmarshal(Chars(Bytes(Marshal(session)))) == Some(session)
  {
    MarshalIsAscii(session);
    CharsOfBytes(Marshal(session));
    UnmarshalMarshal(session);
  }

  /** Two tokens are the same text only if they carry the same version and expiry. */
  lemma TokensIdentifySessions(m: Manager, v1: int, t1: int, v2: int, t2: int)
    requires InInt64(v1) && InInt64(v2) && InInt64(Unix(t1 + m.ttl)) && InInt64(Unix(t2 + m.ttl))
    ensures Encode(m, v1, t1) == Encode(m, v2, t2) <==> v1 == v2 && Unix(t1 + m.ttl) == Unix(t2 + m.ttl)
  {
    var early := NANOS * (INT64_MIN - 1);
    TokenRoundTrip(m, v1, t1, early);
    TokenRoundTrip(m, v2, t2, early);
    EncodeDepends(m, v1, t1, t2);
  }

  lemma EncodeDepends(m: Manager, v: int, t1: int, t2: int)
    ensures Unix(t1 + m.ttl) == Unix(t2 + m.ttl) ==> Encode(m, v, t1) == Encode(m, v, t2)
  {
  }

  /** The lifetime in terms of the unrounded times: never longer than the ttl, and shorter by less than a second. */
  lemma LifetimeBounds(m: Manager, now: int, later: int)
    ensures Unix(later) < Unix(now + m.ttl) ==> later < now + m.ttl
    ensures later + NANOS <= now + m.ttl ==> Unix(later) < Unix(now + m.ttl)
  {
  }

  /** A token under another signature is refused, whatever its payload. */
  lemma WrongSignatureRefused(m: Manager, payload: string, signature: seq<Byte>, now: int)
    requires '.' !in payload && signature != m.sign(payload)
    ensures Decode(m, payload + "." + Base64.Encode(UrlSafe, signature), now) == Err(BadSignature)
  {
    TokenParts(payload, signature);
  }

  /** Whatever text is accepted, it is a payload and its signature joined by one dot, and the session it carries
      has not expired. */
  lemma OnlySignedAccepted(m: Manager, value: string, now: int) returns (payload: string, signature: string)
    requires Decode(m, value, now).Ok?
    ensures value == payload + "." + signature && '.' !in payload && '.' !in signature
    ensures m.sign(payload) == DecodeOrNothing(signature)
    ensures Unix(now) < Decode(m, value, now).value.expiresAt
  {
    JoinSplit(value, '.');
    var parts := Split(value, '.');
    payload, signature := parts[0], parts[1];
    assert parts == [payload, signature] && [payload, signature][1..] == [signature];
    assert payload in parts && signature in parts;
  }
}
