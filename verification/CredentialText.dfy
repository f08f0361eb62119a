/**
 Partner credentials as they are written: every Basic header that is read, and every stored
 secret that is accepted, by the text of its parts.
 */
module CredentialText {
  import opened Texts
  import opened TextFacts
  import opened Utf8
  import opened Credentials
  import Base64

  // ---- the header ----

  predicate SaysBasic(word: Text) {
    && |word| == 5
    && word[0] in {0x42, 0x62} && word[1] in {0x41, 0x61} && word[2] in {0x53, 0x73}
    && word[3] in {0x49, 0x69} && word[4] in {0x43, 0x63}
  }

  predicate TokenText(token: Text) {
    token != [] && forall i | 0 <= i < |token| ::
      || 0x30 <= token[i] <= 0x39 || 0x41 <= token[i] <= 0x5A || 0x61 <= token[i] <= 0x7A
      || token[i] in {0x2B, 0x2D, 0x2F, 0x3D, 0x5F}
  }

  /** The word, space, the token, and any space around. */
  predicate HeaderParts(h: Text, before: Text, word: Text, gap: Text, token: Text, after: Text) {
    && h == before + (word + (gap + token)) + after
    && AllSpace(before) && SaysBasic(word) && gap != [] && AllSpace(gap) && TokenText(token) && AllSpace(after)
  }

  /** Between the two there is a colon; neither is empty, and only the secret may hold another. */
  predicate Pair(text: Text, c: Credential) {
    text == c.clientId + [0x3A] + c.clientSecret && c.clientId != [] && c.clientSecret != [] && 0x3A !in c.clientId
  }

  lemma BasicWord(word: Text)
    requires |word| == 5
    ensures LowerAscii(word) == Units("basic") <==> SaysBasic(word)
  {
    var b := Units("basic");
    assert b[0] == 0x62 && b[1] == 0x61 && b[2] == 0x73 && b[3] == 0x69 && b[4] == 0x63;
    assert LowerAscii(word) == b <==> forall i | 0 <= i < 5 :: LowerAscii(word)[i] == b[i];
  }

  lemma TokenExactly(token: Text)
    ensures IsToken(token) <==> TokenText(token)
  {
  }

  lemma TokenAt(h: Text, word: Text, gap: Text, token: Text)
    requires h == word + (gap + token) && SaysBasic(word)
    requires gap != [] && AllSpace(gap) && TokenText(token)
    ensures BasicToken(h) == Some(token)
  {
    BasicWord(word);
    TokenExactly(token);
    TokenUnitNoSpace(token[0]);
    hide SaysBasic, TokenText, IsSpace, IsToken;
    DropPrefix(word, gap + token);
    TrimStartParts(gap, token);
    hide TrimStart, LowerAscii;
  }

  lemma TokenCut(h: Text) returns (gap: Text)
    requires BasicToken(h).Some?
    ensures |h| > 5 && h == h[..5] + (gap + BasicToken(h).value) && SaysBasic(h[..5])
    ensures gap != [] && AllSpace(gap) && TokenText(BasicToken(h).value)
  {
    var word, rest := h[..5], h[5..];
    var token := TrimStart(rest);
    assert BasicToken(h) == Some(token) && |token| < |rest|;
    assert SaysBasic(word) by { BasicWord(word); }
    assert TokenText(token) by { TokenExactly(token); }
    hide SaysBasic, TokenText, IsToken, BasicToken, LowerAscii;
    TrimStartCut(rest);
    Suffix(rest, token);
    hide AllSpace, TrimStart;
    gap := rest[..|rest| - |token|];
  }

  lemma SplitExactly(text: Text, c: Credential)
    ensures SplitCredential(text) == Some(c) <==> Pair(text, c)
  {
    if Pair(text, c) {
      SplitRejoins(c.clientId, c.clientSecret);
    }
  }

  /** The credential a header carries, for every header. */
  lemma HeaderExactly(h: Text, c: Credential)
    ensures ParseBasicCredentials(Some(h)) == Some(c) <==>
      exists before, word, gap, token, after ::
        HeaderParts(h, before, word, gap, token, after) && Pair(Decode(Base64.Parse(token)), c)
  {
    HeaderToken(h);
    hide Decode, Base64.Parse, Pair, HeaderParts, ParseBasicCredentials, BasicToken, Trim, SplitCredential;
    if ParseBasicCredentials(Some(h)) == Some(c) {
      var before, after, gap := HeaderCut(h);
      var token := BasicToken(Trim(h)).value;
      SplitExactly(Decode(Base64.Parse(token)), c);
      assert HeaderParts(h, before, Trim(h)[..5], gap, token, after);
    }
    forall before, word, gap, token, after |
        HeaderParts(h, before, word, gap, token, after) && Pair(Decode(Base64.Parse(token)), c)
      ensures ParseBasicCredentials(Some(h)) == Some(c)
    {
      HeaderRead(h, before, word, gap, token, after);
      SplitExactly(Decode(Base64.Parse(token)), c);
    }
  }

  lemma HeaderToken(h: Text)
    ensures ParseBasicCredentials(Some(h)) == match BasicToken(Trim(h))
                                              case None => None
                                              case Some(token) => SplitCredential(Decode(Base64.Parse(token)))
  {
    hide Decode, Base64.Parse, BasicToken, Trim, SplitCredential;
  }

  lemma HeaderCut(h: Text) returns (before: Text, after: Text, gap: Text)
    requires BasicToken(Trim(h)).Some?
    ensures |Trim(h)| > 5
    ensures HeaderParts(h, before, Trim(h)[..5], gap, BasicToken(Trim(h)).value, after)
  {
    before, after := TrimCut(h);
    gap := TokenCut(Trim(h));
    hide Trim, BasicToken, AllSpace, SaysBasic, TokenText;
  }

  lemma HeaderRead(h: Text, before: Text, word: Text, gap: Text, token: Text, after: Text)
    requires HeaderParts(h, before, word, gap, token, after)
    ensures BasicToken(Trim(h)) == Some(token)
  {
    var text := word + (gap + token);
    assert !IsSpace(text[0]) && text[|text| - 1] == token[|token| - 1] && !IsSpace(token[|token| - 1]);
    TrimPadded(h, before, text, after);
    TokenAt(text, word, gap, token);
  }

  /** The portal's header, by its text. */
  lemma HeaderWritten(c: Credential)
    ensures ClientAuthHeader(c)
      == [0x42, 0x61, 0x73, 0x69, 0x63, 0x20] + Base64.Print(Encode(c.clientId + [0x3A] + c.clientSecret))
  {
    var b := Units("Basic ");
    assert b == [0x42, 0x61, 0x73, 0x69, 0x63, 0x20];
  }

  // ---- the stored secret ----

  /** Six fields with a dollar between. */
  predicate Fields(stored: Text, p: seq<Text>) {
    && |p| == 6 && (forall i | 0 <= i < 6 :: 0x24 !in p[i])
    && stored == p[0] + [0x24] + (p[1] + [0x24] + (p[2] + [0x24] + (p[3] + [0x24] + (p[4] + [0x24] + p[5]))))
  }

  predicate Number(s: Text) { s != [] && AllDigits(s) }

  /** Under the parameters of the fields the secret derives the key that the last one holds. */
  predicate SecretFits(kdf: Kdf, secret: Text, p: seq<Text>)
    requires |p| == 6
  {
    && p[0] == [0x73, 0x63, 0x72, 0x79, 0x70, 0x74] && Number(p[1]) && Number(p[2]) && Number(p[3])
    && var n, r, q := DecimalValue(p[1]), DecimalValue(p[2]), DecimalValue(p[3]);
    && n >= 1024 && r > 0 && q > 0 && Base64.Parse(p[4]) != [] && Base64.Parse(p[5]) != []
    && kdf.derive(secret, Base64.Parse(p[4]), |Base64.Parse(p[5])|, n, r, q) == Some(Base64.Parse(p[5]))
  }

  ghost predicate Derives(kdf: Kdf, secret: Text, stored: Option<Text>) {
    secret != [] && stored.Some? && exists p :: Fields(stored.value, p) && SecretFits(kdf, secret, p)
  }

  lemma {:induction false} JoinSix(p: seq<Text>, d: Unit)
    requires |p| == 6
    ensures Join(p, d) == p[0] + [d] + (p[1] + [d] + (p[2] + [d] + (p[3] + [d] + (p[4] + [d] + p[5]))))
  {
    assert Join(p[1..], d) == p[1] + [d] + Join(p[1..][1..], d);
    assert p[1..][1..] == p[2..];
    assert Join(p[2..], d) == p[2] + [d] + Join(p[2..][1..], d);
    assert p[2..][1..] == p[3..];
    assert Join(p[3..], d) == p[3] + [d] + Join(p[3..][1..], d);
    assert p[3..][1..] == p[4..];
    assert Join(p[4..], d) == p[4] + [d] + Join(p[4..][1..], d);
    assert p[4..][1..] == p[5..];
    assert Join(p[5..], d) == p[5];
  }

  lemma {:induction false} FieldsExactly(stored: Text, p: seq<Text>)
    requires |p| == 6
    ensures Split(stored, DOLLAR) == p <==> Fields(stored, p)
  {
    JoinSix(p, DOLLAR);
    JoinSplit(stored, DOLLAR);
    if Fields(stored, p) { SplitJoin(p, DOLLAR); }
  }

  lemma FitsExactly(kdf: Kdf, secret: Text, p: seq<Text>)
    requires |p| == 6
    ensures VerifyParts(kdf, secret, p) <==> SecretFits(kdf, secret, p)
  {
    assert Units("scrypt") == [0x73, 0x63, 0x72, 0x79, 0x70, 0x74];
    hide Base64.Parse, DecimalValue;
  }

  /** A presented secret is accepted exactly against a row it derives the key of. */
  lemma VerifiesExactly(kdf: Kdf, secret: Text, stored: Option<Text>)
    ensures VerifyClientSecret(kdf, Some(secret), stored) <==> Derives(kdf, secret, stored)
  {
    hide SecretFits, VerifyParts, Fields;
    if stored.Some? {
      var p := Split(stored.value, DOLLAR);
      forall q | |q| == 6
        ensures p == q <==> Fields(stored.value, q)
        ensures VerifyParts(kdf, secret, q) <==> SecretFits(kdf, secret, q)
      {
        FieldsExactly(stored.value, q);
        FitsExactly(kdf, secret, q);
      }
      EmptyRow(kdf, secret, stored.value);
    }
  }

  lemma {:induction false} EmptyRow(kdf: Kdf, secret: Text, stored: Text)
    ensures stored == [] ==> forall p :: !Fields(stored, p)
    ensures VerifyParts(kdf, secret, Split(stored, DOLLAR)) ==> |Split(stored, DOLLAR)| == 6
    ensures forall p :: Fields(stored, p) ==> |p| == 6
  {
  }

  /** What is stored for a new secret, by its text. */
  lemma StoredWritten(kdf: Kdf, secret: Text, salt: Bytes)
    ensures HashClientSecret(kdf, secret, salt).Some? <==>
      |secret| >= 16 && kdf.derive(secret, salt, 32, 16384, 8, 1).Some?
    ensures HashClientSecret(kdf, secret, salt).Some? ==>
      HashClientSecret(kdf, secret, salt).value
        == [0x73, 0x63, 0x72, 0x79, 0x70, 0x74] + [0x24] + ([0x31, 0x36, 0x33, 0x38, 0x34] + [0x24]
         + ([0x38] + [0x24] + ([0x31] + [0x24] + (Base64.PrintUrl(salt) + [0x24]
         + Base64.PrintUrl(kdf.derive(secret, salt, 32, 16384, 8, 1).value)))))
  {
    hide Base64.PrintUrl;
    if HashClientSecret(kdf, secret, salt).Some? {
      JoinSix(StoredParts(salt, kdf.derive(secret, salt, 32, 16384, 8, 1).value), DOLLAR);
      assert Units("scrypt") == [0x73, 0x63, 0x72, 0x79, 0x70, 0x74];
      Costs();
    }
  }

  lemma Costs()
    ensures Decimal(16384) == [0x31, 0x36, 0x33, 0x38, 0x34] && Decimal(8) == [0x38] && Decimal(1) == [0x31]
  {
    assert Decimal(16) == [0x31, 0x36];
    assert Decimal(163) == [0x31, 0x36, 0x33];
    assert Decimal(1638) == [0x31, 0x36, 0x33, 0x38];
  }
}
