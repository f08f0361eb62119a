/**
 Private fields at rest, and re-hashing what was stored: when does the record read back
 from the database reproduce the anchor computed as it was saved?
 */
module Pii {
  import opened Texts
  import opened Utf8
  import opened Anchors
  import Base64

  datatype Sealed = Sealed(tag: Bytes, data: Bytes)

  /** AES-256-GCM under the server key: `seal(iv, plain)` and `open(iv, sealed)`. */
  datatype Cipher = Cipher(seal: (Bytes, Bytes) -> Sealed, open: (Bytes, Sealed) -> Option<Bytes>)

  ghost predicate Opens(c: Cipher) {
    forall iv, plain :: c.open(iv, c.seal(iv, plain)) == Some(plain)
  }

  const DOT: Unit := 0x2E

  function SealedParts(iv: Bytes, sealed: Sealed): seq<Text> {
    [Units("v1"), Base64.Print(iv), Base64.Print(sealed.tag), Base64.Print(sealed.data)]
  }

  function EncryptPII(c: Cipher, iv: Bytes, plain: Optional): Option<Text> {
    if !plain.Given? || plain.text == [] then None
    else Some(Join(SealedParts(iv, c.seal(iv, Encode(plain.text))), DOT))
  }

  function DecryptPII(c: Cipher, payload: Option<Text>): Option<Text> {
    if payload.None? || payload.value == [] then None else OpenParts(c, Split(payload.value, DOT))
  }

  function OpenParts(c: Cipher, parts: seq<Text>): Option<Text> {
    if |parts| != 4 || parts[0] != Units("v1") then None
    else
      match c.open(Base64.Parse(parts[1]), Sealed(Base64.Parse(parts[2]), Base64.Parse(parts[3])))
      case None => None
      case Some(plain) => Some(Decode(plain))
  }

  predicate PartUnit(u: Unit) { Base64.DigitValue(u).Some? || u == '=' as int }

  lemma NoDot(s: Text)
    requires forall i | 0 <= i < |s| :: PartUnit(s[i])
    ensures DOT !in s
  {
  }

  lemma PrintedNoDot(bs: Bytes)
    ensures DOT !in Base64.Print(bs)
  {
    Base64.PrintedUnits(bs);
    NoDot(Base64.Print(bs));
  }

  lemma VersionNoDot()
    ensures DOT !in Units("v1")
  {
  }

  lemma SealedPartsPlain(iv: Bytes, sealed: Sealed)
    ensures forall i | 0 <= i < 4 :: DOT !in SealedParts(iv, sealed)[i]
  {
    VersionNoDot();
    PrintedNoDot(iv);
    PrintedNoDot(sealed.tag);
    PrintedNoDot(sealed.data);
  }

  lemma OpenFour(c: Cipher, parts: seq<Text>, iv: Bytes, sealed: Sealed)
    requires |parts| == 4 && parts[0] == Units("v1")
    requires Base64.Parse(parts[1]) == iv
    requires Base64.Parse(parts[2]) == sealed.tag && Base64.Parse(parts[3]) == sealed.data
    ensures c.open(iv, sealed).Some? ==> OpenParts(c, parts) == Some(Decode(c.open(iv, sealed).value))
  {
    assert Sealed(Base64.Parse(parts[2]), Base64.Parse(parts[3])) == sealed;
  }

  lemma {:induction false} SealedPartsOpen(c: Cipher, iv: Bytes, plain: Bytes)
    requires Opens(c)
    ensures OpenParts(c, SealedParts(iv, c.seal(iv, plain))) == Some(Decode(plain))
  {
    var sealed := c.seal(iv, plain);
    Base64.RoundTrip(iv);
    Base64.RoundTrip(sealed.tag);
    Base64.RoundTrip(sealed.data);
    OpenFour(c, SealedParts(iv, sealed), iv, sealed);
  }

  /** The column gives back the text up to lone surrogates, and nothing for an empty one. */
  lemma DecryptEncrypted(c: Cipher, iv: Bytes, plain: Optional)
    requires Opens(c)
    ensures DecryptPII(c, EncryptPII(c, iv, plain))
      == if plain.Given? && plain.text != [] then Some(Scrub(plain.text)) else None
  {
    if plain.Given? && plain.text != [] {
      var parts := SealedParts(iv, c.seal(iv, Encode(plain.text)));
      SealedPartsPlain(iv, c.seal(iv, Encode(plain.text)));
      SplitJoin(parts, DOT);
      JoinedNotEmpty(parts, DOT);
      SealedPartsOpen(c, iv, Encode(plain.text));
      DecodeEncode(plain.text);
    }
  }

  // ---- trimming and scrubbing commute ----

  lemma {:induction false} ScrubAt(s: Text, i: nat)
    requires i < |s|
    ensures Scrub(s)[i] == s[i] || Scrub(s)[i] == REPLACEMENT
    ensures IsSpace(Scrub(s)[i]) <==> IsSpace(s[i])
  {
    if StartsPair(s) {
      if i >= 2 { ScrubAt(s[2..], i - 2); }
    } else if i > 0 {
      ScrubAt(s[1..], i - 1);
    }
  }

  lemma {:induction false} TrimStartCons(space: Unit, t: Text)
    requires IsSpace(space)
    ensures TrimStart([space] + t) == TrimStart(t)
  {
    DropPrefix([space], t);
  }

  lemma {:induction false} ScrubCons(space: Unit, t: Text)
    requires IsSpace(space)
    ensures Scrub([space] + t) == [space] + Scrub(t)
  {
    DropPrefix([space], t);
  }

  lemma {:induction false} ScrubTrimStart(s: Text)
    ensures TrimStart(Scrub(s)) == Scrub(TrimStart(s))
    ensures Scrub(s) == s <==> Scrub(TrimStart(s)) == TrimStart(s)
  {
    if s == [] {
    } else {
      ScrubAt(s, 0);
      if IsSpace(s[0]) {
        assert s == [s[0]] + s[1..];
        ScrubTrimStart(s[1..]);
        ScrubCons(s[0], s[1..]);
        TrimStartCons(s[0], s[1..]);
        TrimStartCons(s[0], Scrub(s[1..]));
        DropPrefix([s[0]], Scrub(s[1..]));
      }
    }
  }

  lemma {:induction false} ScrubTrimEnd(s: Text)
    ensures TrimEnd(Scrub(s)) == Scrub(TrimEnd(s))
    ensures Scrub(s) == s <==> Scrub(TrimEnd(s)) == TrimEnd(s)
  {
    if s == [] {
    } else {
      var n := |s| - 1;
      ScrubAt(s, n);
      if IsSpace(s[n]) {
        ScrubTrimEnd(s[..n]);
        ScrubConcat(s[..n], [s[n]]);
        assert s == s[..n] + [s[n]];
        assert Scrub([s[n]]) == [s[n]];
        DropPrefix(Scrub(s[..n]), [s[n]]);
      }
    }
  }

  lemma {:induction false} ScrubTrim(s: Text)
    ensures Trim(Scrub(s)) == Trim(s) <==> WellFormed(s)
  {
    ScrubTrimStart(s);
    ScrubTrimEnd(TrimStart(s));
    ScrubFixed(s);
  }

  // ---- stored rows ----

  function FromColumn(column: Option<Text>): Optional {
    match column
    case None => Nullish
    case Some(t) => Given(t)
  }

  function ToColumn(field: Optional): Option<Text> {
    if field.Given? then Some(field.text) else None
  }

  /** What an encrypted optional field reads back as. */
  function Reread(c: Cipher, iv: Bytes, field: Optional): Optional {
    FromColumn(DecryptPII(c, EncryptPII(c, iv, field)))
  }

  /** A field the encrypted column preserves: absent, or non-empty without lone surrogates. */
  predicate Intact(field: Optional) {
    field.Given? ==> field.text != [] && WellFormed(field.text)
  }

  /** The field with its lone surrogates replaced and an empty text dropped. */
  function Worn(field: Optional): Optional {
    if field.Given? && field.text != [] then Given(Scrub(field.text)) else Nullish
  }

  lemma RereadIsWorn(c: Cipher, iv: Bytes, field: Optional)
    requires Opens(c)
    ensures Reread(c, iv, field) == Worn(field)
  {
    DecryptEncrypted(c, iv, field);
  }

  lemma WornNormal(field: Optional)
    ensures NormalOptional(Worn(field)) == NormalOptional(field) <==> Intact(field)
    ensures Intact(field) ==> Worn(field) == if field.Given? then field else Nullish
  {
    if field.Given? {
      ScrubTrim(field.text);
      ScrubFixed(field.text);
    }
  }

  lemma RereadNormal(c: Cipher, iv: Bytes, field: Optional)
    requires Opens(c)
    ensures NormalOptional(Reread(c, iv, field)) == NormalOptional(field) <==> Intact(field)
    ensures Intact(field) ==> Reread(c, iv, field) == if field.Given? then field else Nullish
  {
    RereadIsWorn(c, iv, field);
    WornNormal(field);
  }

  datatype ProfileRow = ProfileRow(displayName: Text, jobTitle: Option<Text>, department: Option<Text>,
                                   emailEncrypted: Option<Text>, phoneEncrypted: Option<Text>,
                                   identityAnchor: Bytes)

  function SaveProfile(c: Cipher, emailIv: Bytes, phoneIv: Bytes, lower: Text -> Text, body: Record): ProfileRow
    requires body.Identity?
  {
    ProfileRow(body.displayName, ToColumn(body.jobTitle), ToColumn(body.department),
               EncryptPII(c, emailIv, body.email), EncryptPII(c, phoneIv, body.phone),
               PreimageBytes(lower, body))
  }

  function ReadProfile(c: Cipher, row: ProfileRow): Record {
    Identity(row.displayName, FromColumn(DecryptPII(c, row.emailEncrypted)),
             FromColumn(DecryptPII(c, row.phoneEncrypted)), FromColumn(row.jobTitle), FromColumn(row.department))
  }

  /**
   Re-hashing a stored profile reproduces its anchor exactly when both encrypted fields survive
   their columns. The request schema admits only ASCII emails, which hold no surrogate.
   */
  lemma ProfileRehash(c: Cipher, emailIv: Bytes, phoneIv: Bytes, lower: Text -> Text, body: Record)
    requires Opens(c) && body.Identity? && (body.email.Given? ==> WellFormed(body.email.text))
    ensures var row := SaveProfile(c, emailIv, phoneIv, lower, body);
      PreimageBytes(lower, ReadProfile(c, row)) == row.identityAnchor
      <==> Intact(body.email) && Intact(body.phone)
  {
    var row := SaveProfile(c, emailIv, phoneIv, lower, body);
    var read := ReadProfile(c, row);
    AnchorBytesFaithful(lower, read, body);
    RereadNormal(c, emailIv, body.email);
    RereadNormal(c, phoneIv, body.phone);
    RereadIsWorn(c, emailIv, body.email);
    assert read.email == Reread(c, emailIv, body.email) && read.phone == Reread(c, phoneIv, body.phone);
  }

  datatype AssetRow = AssetRow(orgId: int, name: Text, assetType: Text, department: Option<Text>,
                               serialEncrypted: Option<Text>, invoiceEncrypted: Option<Text>,
                               assetAnchor: Bytes)

  function SaveDraft(c: Cipher, serialIv: Bytes, invoiceIv: Bytes, lower: Text -> Text, body: Record): AssetRow
    requires body.Asset?
  {
    AssetRow(body.orgId, body.name, body.assetType, ToColumn(body.department),
             EncryptPII(c, serialIv, body.serialNumber), EncryptPII(c, invoiceIv, body.invoiceReference),
             PreimageBytes(lower, body))
  }

  function ReadDraft(c: Cipher, row: AssetRow): Record {
    Asset(row.orgId, row.name, row.assetType, FromColumn(DecryptPII(c, row.serialEncrypted)),
          FromColumn(DecryptPII(c, row.invoiceEncrypted)), FromColumn(row.department))
  }

  /** Likewise for an asset draft and its two encrypted fields. */
  lemma DraftRehash(c: Cipher, serialIv: Bytes, invoiceIv: Bytes, lower: Text -> Text, body: Record)
    requires Opens(c) && body.Asset?
    ensures var row := SaveDraft(c, serialIv, invoiceIv, lower, body);
      PreimageBytes(lower, ReadDraft(c, row)) == row.assetAnchor
      <==> Intact(body.serialNumber) && Intact(body.invoiceReference)
  {
    var row := SaveDraft(c, serialIv, invoiceIv, lower, body);
    var read := ReadDraft(c, row);
    AnchorBytesFaithful(lower, read, body);
    RereadNormal(c, serialIv, body.serialNumber);
    RereadNormal(c, invoiceIv, body.invoiceReference);
    assert read.serialNumber == Reread(c, serialIv, body.serialNumber);
    assert read.invoiceReference == Reread(c, invoiceIv, body.invoiceReference);
  }
}
