/**
 Partner credentials: the portal's HTTP Basic header and the platform's reader of it, and
 the stored form of a client secret and its verifier.
 */
module Credentials {
  import opened Texts
  import opened Utf8
  import Base64

  // ---- HTTP Basic (RFC 7617, section 2) ----

  datatype Credential = Credential(clientId: Text, clientSecret: Text)

  const COLON: Unit := 0x3A

  function ClientAuthHeader(c: Credential): Text {
    Units("Basic ") + Base64.Print(Encode(c.clientId + [COLON] + c.clientSecret))
  }

  function Find(s: Text, u: Unit): (i: Option<nat>)
    ensures i.Some? ==> i.value < |s| && s[i.value] == u && u !in s[..i.value]
    ensures i.None? ==> u !in s
  {
    if s == [] then None
    else if s[0] == u then Some(0)
    else
      match Find(s[1..], u)
      case Some(i) => Some(i + 1)
      case None => None
  }

  /** `[A-Za-z0-9+/=_-]` */
  predicate TokenUnit(u: Unit) { Base64.DigitValue(u).Some? || u == '=' as int }

  predicate IsToken(t: Text) { t != [] && forall i | 0 <= i < |t| :: TokenUnit(t[i]) }

  /** What `/^Basic\s+([A-Za-z0-9+/=_-]+)\s*$/i` captures in a trimmed header. */
  function BasicToken(h: Text): Option<Text> {
    if |h| <= 5 || LowerAscii(h[..5]) != Units("basic") then None
    else
      var token := TrimStart(h[5..]);
      if |token| == |h| - 5 || !IsToken(token) then None
      else Some(token)
  }

  function ParseBasicCredentials(header: Option<Text>): (r: Option<Credential>)
    ensures r.Some? ==> r.value.clientId != [] && r.value.clientSecret != [] && COLON !in r.value.clientId
  {
    if header.None? then None
    else
      match BasicToken(Trim(header.value))
      case None => None
      case Some(token) => SplitCredential(Decode(Base64.Parse(token)))
  }

  /** Only the first colon separates; neither side may be empty. */
  function SplitCredential(decoded: Text): (r: Option<Credential>)
    ensures r.Some? ==> r.value.clientId != [] && r.value.clientSecret != [] && COLON !in r.value.clientId
    ensures r.Some? ==> decoded == r.value.clientId + [COLON] + r.value.clientSecret
  {
    match Find(decoded, COLON)
    case None => None
    case Some(separator) =>
      if separator == 0 || separator + 1 == |decoded| then None
      else Some(Credential(decoded[..separator], decoded[separator + 1..]))
  }

  lemma TokenUnitNoSpace(u: Unit)
    requires TokenUnit(u)
    ensures !IsSpace(u)
  {
  }

  lemma BasicPrefix()
    ensures LowerAscii(Units("Basic ")[..5]) == Units("basic")
    ensures |Units("Basic ")| == 6 && !IsSpace(Units("Basic ")[0]) && IsSpace(Units("Basic ")[5])
  {
  }

  lemma {:induction false} TrimOneSpace(space: Unit, token: Text)
    requires IsSpace(space) && token != [] && !IsSpace(token[0])
    ensures TrimStart([space] + token) == token
  {
    DropPrefix([space], token);
  }

  lemma TokenAfter(prefix: Text, token: Text)
    requires |prefix| == 6 && IsSpace(prefix[5]) && LowerAscii(prefix[..5]) == Units("basic")
    requires IsToken(token)
    ensures BasicToken(prefix + token) == Some(token)
  {
    TokenUnitNoSpace(token[0]);
    TrimOneSpace(prefix[5], token);
    assert (prefix + token)[5..] == [prefix[5]] + token;
    assert (prefix + token)[..5] == prefix[..5];
  }

  lemma TrimmedBetween(prefix: Text, token: Text)
    requires prefix != [] && !IsSpace(prefix[0])
    requires IsToken(token)
    ensures Trim(prefix + token) == prefix + token
  {
    TokenUnitNoSpace(token[|token| - 1]);
    TrimFixed(prefix + token);
  }

  lemma ReadAfter(prefix: Text, token: Text)
    requires |prefix| == 6 && !IsSpace(prefix[0]) && IsSpace(prefix[5])
    requires LowerAscii(prefix[..5]) == Units("basic")
    requires IsToken(token)
    ensures BasicToken(Trim(prefix + token)) == Some(token)
  {
    TrimmedBetween(prefix, token);
    TokenAfter(prefix, token);
  }

  /** A printed token is read back out of the header whole. */
  lemma ReadToken(token: Text)
    requires IsToken(token)
    ensures BasicToken(Trim(Units("Basic ") + token)) == Some(token)
  {
    BasicPrefix();
    ReadAfter(Units("Basic "), token);
  }

  lemma {:induction false} EncodeNotEmpty(s: Text)
    ensures s != [] ==> Encode(s) != []
  {
  }

  lemma {:induction false} ScrubAround(a: Text, b: Text)
    ensures Scrub(a + [COLON] + b) == Scrub(a) + [COLON] + Scrub(b)
  {
    Assoc(a, [COLON], b);
    ScrubConcat(a, [COLON] + b);
    DropPrefix([COLON], b);
  }

  lemma HeaderDecodes(c: Credential)
    ensures ParseBasicCredentials(Some(ClientAuthHeader(c)))
      == SplitCredential(Scrub(c.clientId) + [COLON] + Scrub(c.clientSecret))
  {
    var text := c.clientId + [COLON] + c.clientSecret;
    var bytes := Encode(text);
    EncodeNotEmpty(text);
    Base64.PrintedUnits(bytes);
    Base64.RoundTrip(bytes);
    ReadToken(Base64.Print(bytes));
    DecodeEncode(text);
    ScrubAround(c.clientId, c.clientSecret);
  }

  lemma {:induction false} ScrubKeepsColons(s: Text)
    ensures COLON in Scrub(s) <==> COLON in s
  {
    if s == [] {
    } else if StartsPair(s) {
      ScrubKeepsColons(s[2..]);
      assert s == [s[0], s[1]] + s[2..];
    } else {
      ScrubKeepsColons(s[1..]);
      assert s == [s[0]] + s[1..];
    }
  }

  lemma {:induction false} FindAfter(a: Text, b: Text)
    requires COLON !in a
    ensures Find(a + [COLON] + b, COLON) == Some(|a|)
  {
    if a == [] {
      assert a + [COLON] + b == [COLON] + b;
    } else {
      FindAfter(a[1..], b);
      assert (a + [COLON] + b)[1..] == a[1..] + [COLON] + b;
    }
  }

  /** The exact class of credentials that survive the header. */
  predicate Transmissible(c: Credential) {
    && c.clientId != [] && COLON !in c.clientId && c.clientSecret != []
    && WellFormed(c.clientId) && WellFormed(c.clientSecret)
  }

  lemma SplitRejoins(a: Text, b: Text)
    requires COLON !in a
    ensures SplitCredential(a + [COLON] + b) == if a == [] || b == [] then None else Some(Credential(a, b))
  {
    var s := a + [COLON] + b;
    FindAfter(a, b);
    assert s[..|a|] == a && s[|a| + 1..] == b;
  }

  /** Reading the header gives the credential back, colons in the secret included. */
  lemma BasicRoundTrip(c: Credential)
    ensures ParseBasicCredentials(Some(ClientAuthHeader(c))) == Some(c) <==> Transmissible(c)
  {
    HeaderDecodes(c);
    ScrubFixed(c.clientId);
    ScrubFixed(c.clientSecret);
    ScrubKeepsColons(c.clientId);
    if COLON !in c.clientId {
      SplitRejoins(Scrub(c.clientId), Scrub(c.clientSecret));
    }
  }

  // ---- the stored client secret ----

  /** scrypt(secret, salt, length, N, r, p); None when its parameters are refused. */
  datatype Kdf = Kdf(derive: (Text, Bytes, nat, nat, nat, nat) -> Option<Bytes>)

  const SCRYPT_N := 16384
  const SCRYPT_R := 8
  const SCRYPT_P := 1
  const SCRYPT_KEYLEN := 32
  const DOLLAR: Unit := 0x24

  function StoredParts(salt: Bytes, digest: Bytes): seq<Text> {
    [Units("scrypt"), Decimal(SCRYPT_N), Decimal(SCRYPT_R), Decimal(SCRYPT_P),
     Base64.PrintUrl(salt), Base64.PrintUrl(digest)]
  }

  /** None is the exception thrown for a short secret or refused parameters. */
  function HashClientSecret(kdf: Kdf, secret: Text, salt: Bytes): Option<Text> {
    if |secret| < 16 then None
    else
      match kdf.derive(secret, salt, SCRYPT_KEYLEN, SCRYPT_N, SCRYPT_R, SCRYPT_P)
      case None => None
      case Some(digest) => Some(Join(StoredParts(salt, digest), DOLLAR))
  }

  function VerifyClientSecret(kdf: Kdf, secret: Option<Text>, stored: Option<Text>): bool {
    if secret.None? || secret.value == [] || stored.None? || stored.value == [] then false
    else VerifyParts(kdf, secret.value, Split(stored.value, DOLLAR))
  }

  function VerifyParts(kdf: Kdf, secret: Text, parts: seq<Text>): bool {
    if |parts| != 6 || parts[0] != Units("scrypt") then false
    else
      match (ToNumber(parts[1]), ToNumber(parts[2]), ToNumber(parts[3]))
      case (Some(n), Some(r), Some(p)) =>
        var salt, expected := Base64.Parse(parts[4]), Base64.Parse(parts[5]);
        if n < 1024 || r < 1 || p < 1 || salt == [] || expected == [] then false
        else kdf.derive(secret, salt, |expected|, n, r, p) == Some(expected)
      case _ => false
  }

  lemma NoDollar(s: Text)
    requires forall i | 0 <= i < |s| :: IsDigit(s[i]) || TokenUnit(s[i])
    ensures DOLLAR !in s
  {
  }

  lemma StoredPartsPlain(salt: Bytes, digest: Bytes)
    ensures forall i | 0 <= i < 6 :: DOLLAR !in StoredParts(salt, digest)[i]
  {
    Base64.PrintedUnits(salt);
    Base64.PrintedUnits(digest);
    NoDollar(Base64.PrintUrl(salt));
    NoDollar(Base64.PrintUrl(digest));
    NoDollar(Decimal(SCRYPT_N));
    NoDollar(Decimal(SCRYPT_R));
    NoDollar(Decimal(SCRYPT_P));
    assert forall i | 0 <= i < 6 :: Units("scrypt")[i] != DOLLAR;
  }

  /**
   A stored secret is accepted for exactly the texts that derive the same key: for the
   secret it was made from, and for no other unless scrypt collides.
   */
  lemma StoredSecretVerifies(kdf: Kdf, secret: Text, salt: Bytes, digest: Bytes, attempt: Text)
    requires |secret| >= 16 && salt != []
    requires |digest| == SCRYPT_KEYLEN
    requires kdf.derive(secret, salt, SCRYPT_KEYLEN, SCRYPT_N, SCRYPT_R, SCRYPT_P) == Some(digest)
    ensures HashClientSecret(kdf, secret, salt).Some?
    ensures VerifyClientSecret(kdf, Some(attempt), HashClientSecret(kdf, secret, salt)) <==>
      attempt != [] && kdf.derive(attempt, salt, SCRYPT_KEYLEN, SCRYPT_N, SCRYPT_R, SCRYPT_P) == Some(digest)
  {
    var parts := StoredParts(salt, digest);
    StoredPartsPlain(salt, digest);
    SplitJoin(parts, DOLLAR);
    JoinedNotEmpty(parts, DOLLAR);
    DecimalRoundTrip(SCRYPT_N);
    DecimalRoundTrip(SCRYPT_R);
    DecimalRoundTrip(SCRYPT_P);
    Base64.RoundTrip(salt);
    Base64.RoundTrip(digest);
  }

  lemma OwnSecretVerifies(kdf: Kdf, secret: Text, salt: Bytes, digest: Bytes)
    requires |secret| >= 16 && salt != []
    requires |digest| == SCRYPT_KEYLEN
    requires kdf.derive(secret, salt, SCRYPT_KEYLEN, SCRYPT_N, SCRYPT_R, SCRYPT_P) == Some(digest)
    ensures VerifyClientSecret(kdf, Some(secret), HashClientSecret(kdf, secret, salt))
  {
    StoredSecretVerifies(kdf, secret, salt, digest, secret);
  }
}
