/**
 The four integrity anchors: what is hashed for an asset, an identity, an organization and
 an application. keccak256 is taken as collision free, so an anchor is compared through
 the bytes that are hashed. `lower` stands for `String.prototype.toLowerCase`.
 */
module Anchors {
  import opened Texts
  import opened Utf8
  import opened Json
  import opened JsonDecoding

  /** An optional text field: not given, given as null, or given. */
  datatype Optional = Missing | Nullish | Given(text: Text)

  datatype Record =
    | Asset(orgId: int, name: Text, assetType: Text,
            serialNumber: Optional, invoiceReference: Optional, department: Optional)
    | Identity(displayName: Text, email: Optional, phone: Optional, jobTitle: Optional, department: Optional)
    | Organization(name: Text, industry: Optional, website: Optional)
    | Application(slug: Text, name: Text, url: Text)

  /** Every payload field is a string, an integer or null. */
  datatype Scalar = Nothing | Number(n: int) | String(s: Text)

  function ToJs(v: Scalar): Js {
    match v
    case Nothing => Null
    case Number(n) => Num(n)
    case String(s) => Str(s)
  }

  function TrimOr(o: Optional): Scalar {
    if o.Given? then String(Trim(o.text)) else Nothing
  }

  function EmailOr(lower: Text -> Text, o: Optional): Scalar {
    if o.Given? then String(lower(Trim(o.text))) else Nothing
  }

  function Arity(r: Record): nat {
    if r.Asset? then 6 else if r.Identity? then 5 else 3
  }

  function Keys(r: Record): (ks: seq<Text>)
    ensures |ks| == Arity(r)
  {
    match r
    case Asset(_, _, _, _, _, _) =>
      [Units("orgId"), Units("name"), Units("assetType"),
       Units("serialNumber"), Units("invoiceReference"), Units("department")]
    case Identity(_, _, _, _, _) =>
      [Units("displayName"), Units("email"), Units("phone"), Units("jobTitle"), Units("department")]
    case Organization(_, _, _) => [Units("name"), Units("industry"), Units("website")]
    case Application(_, _, _) => [Units("slug"), Units("name"), Units("url")]
  }

  function Values(lower: Text -> Text, r: Record): (vs: seq<Scalar>)
    ensures |vs| == Arity(r)
  {
    match r
    case Asset(orgId, name, assetType, serial, invoice, department) =>
      [Number(orgId), String(Trim(name)), String(Trim(assetType)), TrimOr(serial), TrimOr(invoice), TrimOr(department)]
    case Identity(displayName, email, phone, jobTitle, department) =>
      [String(Trim(displayName)), EmailOr(lower, email), TrimOr(phone), TrimOr(jobTitle), TrimOr(department)]
    case Organization(name, industry, website) =>
      [String(Trim(name)), TrimOr(industry), TrimOr(website)]
    case Application(slug, name, url) =>
      [String(Trim(slug)), String(Trim(name)), String(Trim(url))]
  }

  function Fields(ks: seq<Text>, vs: seq<Scalar>): (fs: seq<Field>)
    requires |ks| == |vs|
    ensures |fs| == |ks|
    ensures forall i | 0 <= i < |fs| :: fs[i] == Field(ks[i], ToJs(vs[i]))
  {
    seq(|ks|, i requires 0 <= i < |ks| => Field(ks[i], ToJs(vs[i])))
  }

  function Payload(lower: Text -> Text, r: Record): seq<Field> {
    Fields(Keys(r), Values(lower, r))
  }

  function Domain(r: Record): Text {
    match r
    case Asset(_, _, _, _, _, _) => Units("ownex:asset:v1")
    case Identity(_, _, _, _, _) => Units("ownex:identity:v1")
    case Organization(_, _, _) => Units("ownex:organization:v1")
    case Application(_, _, _) => Units("ownex:application:v1")
  }

  function DomainText(domain: Text, payload: Js): Text {
    domain + [':' as int] + CanonicalJson(payload)
  }

  function Preimage(lower: Text -> Text, r: Record): Text {
    DomainText(Domain(r), Obj(Payload(lower, r)))
  }

  /** The bytes keccak256 is applied to. */
  function PreimageBytes(lower: Text -> Text, r: Record): Bytes {
    Encode(Preimage(lower, r))
  }

  // ---- when two records count as the same ----

  function NormalOptional(o: Optional): Optional {
    if o.Given? then Given(Trim(o.text)) else Nullish
  }

  /** The record with texts trimmed, the email also lowercased, and missing read as null. */
  function Normal(lower: Text -> Text, r: Record): Record {
    match r
    case Asset(orgId, name, assetType, serial, invoice, department) =>
      Asset(orgId, Trim(name), Trim(assetType),
            NormalOptional(serial), NormalOptional(invoice), NormalOptional(department))
    case Identity(displayName, email, phone, jobTitle, department) =>
      Identity(Trim(displayName),
               if email.Given? then Given(lower(Trim(email.text))) else Nullish,
               NormalOptional(phone), NormalOptional(jobTitle), NormalOptional(department))
    case Organization(name, industry, website) =>
      Organization(Trim(name), NormalOptional(industry), NormalOptional(website))
    case Application(slug, name, url) =>
      Application(Trim(slug), Trim(name), Trim(url))
  }

  ghost predicate SameKind(r: Record, s: Record) {
    || (r.Asset? && s.Asset?) || (r.Identity? && s.Identity?)
    || (r.Organization? && s.Organization?) || (r.Application? && s.Application?)
  }

  // ---- faithfulness ----

  /** A payload: scalars under distinct keys. */
  ghost predicate Flat(fs: seq<Field>) {
    && UniqueKeys(fs)
    && forall i | 0 <= i < |fs| :: fs[i].value.Str? || fs[i].value.Num? || fs[i].value.Null?
  }

  lemma KeysDistinct(r: Record)
    ensures Distinct(Keys(r))
  {
    var ks := Keys(r);
    match r
    case Asset(_, _, _, _, _, _) =>
      assert |ks[0]| == 5 && |ks[1]| == 4 && |ks[2]| == 9 && |ks[3]| == 12 && |ks[4]| == 16 && |ks[5]| == 10;
    case Identity(_, _, _, _, _) =>
      assert |ks[0]| == 11 && |ks[1]| == 5 && |ks[2]| == 5 && |ks[3]| == 8 && |ks[4]| == 10;
      assert ks[1][0] == 'e' as int && ks[2][0] == 'p' as int;
    case Organization(_, _, _) =>
      assert |ks[0]| == 4 && |ks[1]| == 8 && |ks[2]| == 7;
    case Application(_, _, _) =>
      assert |ks[0]| == 4 && |ks[1]| == 4 && |ks[2]| == 3;
      assert ks[0][0] == 's' as int && ks[1][0] == 'n' as int;
  }

  lemma FieldsFlat(ks: seq<Text>, vs: seq<Scalar>)
    requires Distinct(ks) && |ks| == |vs|
    ensures Flat(Fields(ks, vs)) && Valid(Obj(Fields(ks, vs)))
  {
  }

  /** Under the same keys, equal meaning is equality field by field. */
  lemma FlatMeaning(fs: seq<Field>, gs: seq<Field>)
    requires Flat(fs) && Flat(gs) && |fs| == |gs|
    requires forall i | 0 <= i < |fs| :: fs[i].key == gs[i].key
    ensures Meaning(Obj(fs)) == Meaning(Obj(gs)) <==> fs == gs
  {
    if MeaningFields(fs) == MeaningFields(gs) {
      MeaningFieldsAt(fs);
      MeaningFieldsAt(gs);
      forall i | 0 <= i < |fs| ensures fs[i] == gs[i] {
        assert Meaning(fs[i].value) == Meaning(gs[i].value);
      }
    }
  }

  lemma OptionalByNormal(a: Optional, b: Optional)
    ensures TrimOr(a) == TrimOr(b) <==> NormalOptional(a) == NormalOptional(b)
  {
  }

  lemma AssetValues(lower: Text -> Text, r: Record, s: Record)
    requires r.Asset? && s.Asset?
    ensures Values(lower, r) == Values(lower, s) <==> Normal(lower, r) == Normal(lower, s)
  {
    var vs, ws := Values(lower, r), Values(lower, s);
    OptionalByNormal(r.serialNumber, s.serialNumber);
    OptionalByNormal(r.invoiceReference, s.invoiceReference);
    OptionalByNormal(r.department, s.department);
    if vs == ws {
      assert vs[0] == ws[0] && vs[1] == ws[1] && vs[2] == ws[2] && vs[3] == ws[3] && vs[4] == ws[4] && vs[5] == ws[5];
    }
  }

  lemma IdentityValues(lower: Text -> Text, r: Record, s: Record)
    requires r.Identity? && s.Identity?
    ensures Values(lower, r) == Values(lower, s) <==> Normal(lower, r) == Normal(lower, s)
  {
    var vs, ws := Values(lower, r), Values(lower, s);
    OptionalByNormal(r.phone, s.phone);
    OptionalByNormal(r.jobTitle, s.jobTitle);
    OptionalByNormal(r.department, s.department);
    if vs == ws {
      assert vs[0] == ws[0] && vs[1] == ws[1] && vs[2] == ws[2] && vs[3] == ws[3] && vs[4] == ws[4];
    }
  }

  lemma OrganizationValues(lower: Text -> Text, r: Record, s: Record)
    requires r.Organization? && s.Organization?
    ensures Values(lower, r) == Values(lower, s) <==> Normal(lower, r) == Normal(lower, s)
  {
    var vs, ws := Values(lower, r), Values(lower, s);
    OptionalByNormal(r.industry, s.industry);
    OptionalByNormal(r.website, s.website);
    if vs == ws {
      assert vs[0] == ws[0] && vs[1] == ws[1] && vs[2] == ws[2];
    }
  }

  lemma ApplicationValues(lower: Text -> Text, r: Record, s: Record)
    requires r.Application? && s.Application?
    ensures Values(lower, r) == Values(lower, s) <==> Normal(lower, r) == Normal(lower, s)
  {
    var vs, ws := Values(lower, r), Values(lower, s);
    if vs == ws {
      assert vs[0] == ws[0] && vs[1] == ws[1] && vs[2] == ws[2];
    }
  }

  lemma ValuesByKind(lower: Text -> Text, r: Record, s: Record)
    requires SameKind(r, s)
    ensures Values(lower, r) == Values(lower, s) <==> Normal(lower, r) == Normal(lower, s)
  {
    match r
    case Asset(_, _, _, _, _, _) => AssetValues(lower, r, s);
    case Identity(_, _, _, _, _) => IdentityValues(lower, r, s);
    case Organization(_, _, _) => OrganizationValues(lower, r, s);
    case Application(_, _, _) => ApplicationValues(lower, r, s);
  }

  lemma FieldsInjective(ks: seq<Text>, vs: seq<Scalar>, ws: seq<Scalar>)
    requires |ks| == |vs| == |ws|
    ensures Fields(ks, vs) == Fields(ks, ws) <==> vs == ws
  {
    if Fields(ks, vs) == Fields(ks, ws) {
      forall i | 0 <= i < |ks| ensures vs[i] == ws[i] {
        assert Fields(ks, vs)[i].value == Fields(ks, ws)[i].value;
      }
    }
  }

  lemma DomainUnits(r: Record)
    ensures |Domain(r)| > 7 && NoSurrogates(Domain(r))
    ensures r.Asset? ==> Domain(r)[6] == 'a' as int && Domain(r)[7] == 's' as int
    ensures r.Application? ==> Domain(r)[6] == 'a' as int && Domain(r)[7] == 'p' as int
    ensures r.Identity? ==> Domain(r)[6] == 'i' as int
    ensures r.Organization? ==> Domain(r)[6] == 'o' as int
  {
  }

  lemma SixthUnits(d: Text, rest: Text)
    requires |d| > 7
    ensures (d + [':' as int] + rest)[6] == d[6] && (d + [':' as int] + rest)[7] == d[7]
  {
  }

  /** No two kinds of record ever hash the same text, whatever they contain. */
  lemma DomainSeparation(lower: Text -> Text, r: Record, s: Record)
    requires !SameKind(r, s)
    ensures Preimage(lower, r) != Preimage(lower, s)
  {
    DomainUnits(r);
    DomainUnits(s);
    SixthUnits(Domain(r), CanonicalJson(Obj(Payload(lower, r))));
    SixthUnits(Domain(s), CanonicalJson(Obj(Payload(lower, s))));
  }

  /** Within one domain and key list, the hashed text determines the values. */
  lemma HashedText(d: Text, ks: seq<Text>, vs: seq<Scalar>, ws: seq<Scalar>)
    requires Distinct(ks) && |ks| == |vs| == |ws|
    ensures DomainText(d, Obj(Fields(ks, vs))) == DomainText(d, Obj(Fields(ks, ws))) <==> vs == ws
  {
    var fs, gs := Fields(ks, vs), Fields(ks, ws);
    FieldsFlat(ks, vs);
    FieldsFlat(ks, ws);
    FieldsInjective(ks, vs, ws);
    FlatMeaning(fs, gs);
    CanonicalInjective(Obj(fs), Obj(gs));
    DropPrefix(d + [':' as int], CanonicalJson(Obj(fs)));
    DropPrefix(d + [':' as int], CanonicalJson(Obj(gs)));
  }

  /** Two pre-images are equal exactly when the records are of one kind and agree. */
  lemma AnchorsFaithful(lower: Text -> Text, r: Record, s: Record)
    ensures Preimage(lower, r) == Preimage(lower, s) <==> Normal(lower, r) == Normal(lower, s)
  {
    if SameKind(r, s) {
      KeysDistinct(r);
      ValuesByKind(lower, r, s);
      HashedText(Domain(r), Keys(r), Values(lower, r), Values(lower, s));
    } else {
      DomainSeparation(lower, r, s);
    }
  }

  lemma PreimageWellFormed(lower: Text -> Text, r: Record)
    ensures WellFormed(Preimage(lower, r))
  {
    DomainUnits(r);
    PlainWellFormed(Domain(r) + [':' as int]);
    CanonicalWellFormed(Obj(Payload(lower, r)));
    WellFormedConcat(Domain(r) + [':' as int], CanonicalJson(Obj(Payload(lower, r))));
  }

  /** The same statement about the hashed bytes, the form the chain compares. */
  lemma AnchorBytesFaithful(lower: Text -> Text, r: Record, s: Record)
    ensures PreimageBytes(lower, r) == PreimageBytes(lower, s) <==> Normal(lower, r) == Normal(lower, s)
  {
    AnchorsFaithful(lower, r, s);
    PreimageWellFormed(lower, r);
    PreimageWellFormed(lower, s);
    EncodeInjective(Preimage(lower, r), Preimage(lower, s));
  }

  // ---- what is hashed, written out ----

  /** A trimmed text, or null. */
  function Or(o: Optional): Value { if o.Given? then VStr(Trim(o.text)) else VNull }

  /** The names of the fields under the anchor of a record, and what each one holds. */
  function Names(r: Record): (ns: seq<Text>)
    ensures |ns| == Arity(r)
  {
    match r
    case Asset(_, _, _, _, _, _) =>
      [Units("orgId"), Units("name"), Units("assetType"),
       Units("serialNumber"), Units("invoiceReference"), Units("department")]
    case Identity(_, _, _, _, _) =>
      [Units("displayName"), Units("email"), Units("phone"), Units("jobTitle"), Units("department")]
    case Organization(_, _, _) => [Units("name"), Units("industry"), Units("website")]
    case Application(_, _, _) => [Units("slug"), Units("name"), Units("url")]
  }

  function Contents(lower: Text -> Text, r: Record): (vs: seq<Value>)
    ensures |vs| == Arity(r)
  {
    match r
    case Asset(orgId, name, assetType, serial, invoice, department) =>
      [VNum(orgId), VStr(Trim(name)), VStr(Trim(assetType)), Or(serial), Or(invoice), Or(department)]
    case Identity(displayName, email, phone, jobTitle, department) =>
      [VStr(Trim(displayName)), if email.Given? then VStr(lower(Trim(email.text))) else VNull,
       Or(phone), Or(jobTitle), Or(department)]
    case Organization(name, industry, website) => [VStr(Trim(name)), Or(industry), Or(website)]
    case Application(slug, name, url) => [VStr(Trim(slug)), VStr(Trim(name)), VStr(Trim(url))]
  }

  function ObjectOf(ns: seq<Text>, vs: seq<Value>): map<Text, Value>
    requires |ns| == |vs|
  {
    if ns == [] then map[] else ObjectOf(ns[1..], vs[1..])[ns[0] := vs[0]]
  }

  function Label(r: Record): string {
    match r
    case Asset(_, _, _, _, _, _) => "ownex:asset:v1:"
    case Identity(_, _, _, _, _) => "ownex:identity:v1:"
    case Organization(_, _, _) => "ownex:organization:v1:"
    case Application(_, _, _) => "ownex:application:v1:"
  }

  /** A payload means its keys with its values. */
  lemma {:induction false} PayloadMeaning(ks: seq<Text>, vs: seq<Scalar>, ms: seq<Value>)
    requires |ks| == |vs| == |ms|
    requires forall i | 0 <= i < |ks| :: ms[i] == Meaning(ToJs(vs[i]))
    ensures MeaningFields(Fields(ks, vs)) == ObjectOf(ks, ms)
  {
    if ks == [] {
    } else {
      PayloadMeaning(ks[1..], vs[1..], ms[1..]);
      assert Fields(ks, vs)[1..] == Fields(ks[1..], vs[1..]);
    }
  }

  /**
   The hashed text is the domain, a colon, and JSON that any reader takes for the object with
   the record's keys and trimmed values.
   */
  lemma AnchorText(lower: Text -> Text, r: Record) returns (body: Text)
    ensures Preimage(lower, r) == Units(Label(r)) + body
    ensures Json.Decode(body) == Some(VObj(ObjectOf(Names(r), Contents(lower, r))))
  {
    body := CanonicalJson(Obj(Payload(lower, r)));
    LabelText(r);
    KeysDistinct(r);
    FieldsFlat(Keys(r), Values(lower, r));
    NamesMatch(r);
    ContentsMatch(lower, r);
    hide Keys, Names, Values, Contents, Domain, Label;
    PayloadMeaning(Keys(r), Values(lower, r), Contents(lower, r));
    DecodePrinted(Obj(Payload(lower, r)));
  }

  lemma LabelText(r: Record)
    ensures Domain(r) + [':' as int] == Units(Label(r))
  {
  }

  lemma NamesMatch(r: Record)
    ensures Names(r) == Keys(r)
  {
  }

  lemma ContentsMatch(lower: Text -> Text, r: Record)
    ensures forall i | 0 <= i < Arity(r) :: Contents(lower, r)[i] == Meaning(ToJs(Values(lower, r)[i]))
  {
    hide Trim;
    var vs := Values(lower, r);
    forall i | 0 <= i < Arity(r) ensures Contents(lower, r)[i] == Read(vs[i]) {
      if r.Asset? {
        assert i == 0 || i == 1 || i == 2 || i == 3 || i == 4 || i == 5;
      } else if r.Identity? {
        assert i == 0 || i == 1 || i == 2 || i == 3 || i == 4;
      } else {
        assert i == 0 || i == 1 || i == 2;
      }
    }
    hide Values, Contents;
    forall i | 0 <= i < Arity(r) ensures Read(vs[i]) == Meaning(ToJs(vs[i])) { ReadExactly(vs[i]); }
  }

  function Read(v: Scalar): Value {
    match v
    case Nothing => VNull
    case Number(n) => VNum(n)
    case String(s) => VStr(s)
  }

  lemma ReadExactly(v: Scalar)
    ensures Meaning(ToJs(v)) == Read(v)
  {
  }
}
