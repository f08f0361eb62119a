/**
 The sign-in message of EIP-4361: its printer, its line parser, and exactly which messages
 the parser reads back. The parser takes the first line that starts with a label, so a
 header line that looks like a labelled one hides the real field.
 */
module Siwe {
  import opened Texts

  const LF: Unit := 0x0A

  /** The version is always "1"; a chain id is a natural number printed in decimal. */
  datatype Fields = Fields(domain: Text, address: Text, statement: Text, uri: Text, chainId: nat,
                           nonce: Text, issuedAt: Text, expirationTime: Text)

  /** " wants you to sign in with your Ethereum account:" */
  function Suffix(): Text {
    Units(" wants you") + Units(" to sign in") + Units(" with your") + Units(" Ethereum account:")
  }

  const LABELS := 6
  const CHAIN := 2

  function Label(k: nat): Text
    requires k < LABELS
  {
    match k
    case 0 => Units("URI: ")
    case 1 => Units("Version: ")
    case 2 => Units("Chain ID: ")
    case 3 => Units("Nonce: ")
    case 4 => Units("Issued At: ")
    case _ => Units("Expiration Time: ")
  }

  function Value(f: Fields, k: nat): Text
    requires k < LABELS
  {
    match k
    case 0 => f.uri
    case 1 => Units("1")
    case 2 => Decimal(f.chainId)
    case 3 => f.nonce
    case 4 => f.issuedAt
    case _ => f.expirationTime
  }

  function HeaderLines(f: Fields): seq<Text> { [f.domain + Suffix(), f.address, [], f.statement, []] }

  function LabelledLines(f: Fields): seq<Text> {
    seq(LABELS, k requires 0 <= k < LABELS => Label(k) + Value(f, k))
  }

  function Build(f: Fields): Text { Join(HeaderLines(f) + LabelledLines(f), LF) }

  /** The eleven lines, written out. */
  function Lines(f: Fields): seq<Text> {
    [f.domain + (Units(" wants you") + Units(" to sign in") + Units(" with your") + Units(" Ethereum account:")),
     f.address,
     [],
     f.statement,
     [],
     Units("URI: ") + f.uri,
     Units("Version: 1"),
     Units("Chain ID: ") + Decimal(f.chainId),
     Units("Nonce: ") + f.nonce,
     Units("Issued At: ") + f.issuedAt,
     Units("Expiration Time: ") + f.expirationTime]
  }

  /** The message is those lines, joined by line feeds. */
  lemma MessageText(f: Fields)
    ensures Build(f) == Join(Lines(f), 10)
  {
    LabelledText(f);
    hide Label, Value, LabelledLines;
    assert HeaderLines(f) + LabelledLines(f) == Lines(f);
  }

  lemma LabelledText(f: Fields)
    ensures |LabelledLines(f)| == 6
    ensures forall k | 0 <= k < 6 :: LabelledLines(f)[k] == Lines(f)[5 + k]
  {
    var ls := LabelledLines(f);
    assert Units("Version: ") + Units("1") == Units("Version: 1");
    assert ls[0] == Lines(f)[5] && ls[1] == Lines(f)[6] && ls[2] == Lines(f)[7];
    assert ls[3] == Lines(f)[8] && ls[4] == Lines(f)[9] && ls[5] == Lines(f)[10];
  }

  // ---- the parser ----

  /** What `.` does not match. */
  predicate LineEnd(u: Unit) { u == LF || u == 0x0D || u == 0x2028 || u == 0x2029 }

  predicate OneLine(s: Text) { forall i | 0 <= i < |s| :: !LineEnd(s[i]) }

  /** The capture of `/^(.+) wants you to sign in with your Ethereum account:$/`. */
  function DomainOf(line: Text, suffix: Text): (d: Option<Text>)
    ensures d.Some? ==> d.value != [] && OneLine(d.value) && line == d.value + suffix
  {
    if |line| <= |suffix| then None
    else
      var n := |line| - |suffix|;
      if line[n..] == suffix && OneLine(line[..n]) then Some(line[..n]) else None
  }

  /** The rest of the first line that starts with the label, trimmed. */
  function FirstWith(lines: seq<Text>, tag: Text): Option<Text> {
    if lines == [] then None
    else if tag <= lines[0] then Some(Trim(lines[0][|tag|..]))
    else FirstWith(lines[1..], tag)
  }

  /** A missing field and an empty one are refused alike. */
  function Field(lines: seq<Text>, k: nat): Text
    requires k < LABELS
  {
    match FirstWith(lines, Label(k))
    case Some(v) => v
    case None => []
  }

  function Parse(message: Text): Option<Fields> { ParseLines(Split(message, LF)) }

  function ParseLines(lines: seq<Text>): Option<Fields> {
    if |lines| < 11 then None
    else
      match DomainOf(lines[0], Suffix())
      case None => None
      case Some(domain) =>
        if (exists k: nat :: k < LABELS && Field(lines, k) == []) || Field(lines, 1) != Units("1") then None
        else
          match ToNumber(Field(lines, CHAIN))
          case None => None
          case Some(chainId) =>
            Some(Fields(domain, Trim(lines[1]), lines[3], Field(lines, 0), chainId,
                        Field(lines, 3), Field(lines, 4), Field(lines, 5)))
  }

  // ---- what the parser can return ----

  predicate ValueShape(v: Text) { v != [] && Trimmed(v) && LF !in v }

  /** No line feed, carriage return, or line or paragraph separator. */
  predicate Unbroken(s: Text) { forall i | 0 <= i < |s| :: s[i] !in {0x0A, 0x0D, 0x2028, 0x2029} }

  lemma UnbrokenExactly(s: Text)
    ensures OneLine(s) <==> Unbroken(s)
  {
  }

  predicate Shape(f: Fields) {
    && f.domain != [] && Unbroken(f.domain)
    && Trimmed(f.address) && LF !in f.address && LF !in f.statement
    && ValueShape(f.uri) && ValueShape(f.nonce) && ValueShape(f.issuedAt) && ValueShape(f.expirationTime)
  }

  ghost predicate NoBreaks(lines: seq<Text>) { forall i | 0 <= i < |lines| :: LF !in lines[i] }

  lemma TrimWithin(s: Text, u: Unit)
    requires u in Trim(s)
    ensures u in s
  {
  }

  lemma {:induction false} FirstWithShape(lines: seq<Text>, tag: Text)
    requires NoBreaks(lines) && FirstWith(lines, tag).Some?
    ensures LF !in FirstWith(lines, tag).value && Trimmed(FirstWith(lines, tag).value)
  {
    if tag <= lines[0] {
      var rest := lines[0][|tag|..];
      if LF in Trim(rest) { TrimWithin(rest, LF); }
    } else {
      FirstWithShape(lines[1..], tag);
    }
  }

  lemma FieldShape(lines: seq<Text>, k: nat)
    requires NoBreaks(lines) && k < LABELS && Field(lines, k) != []
    ensures ValueShape(Field(lines, k))
  {
    FirstWithShape(lines, Label(k));
  }

  /** Every parsed message has trimmed, non-empty, single-line fields. */
  lemma ParsedShape(message: Text)
    requires Parse(message).Some?
    ensures Shape(Parse(message).value)
  {
    hide Suffix, Label;
    var lines := Split(message, LF);
    UnbrokenExactly(Parse(message).value.domain);
    hide OneLine, Unbroken;
    assert NoBreaks(lines);
    forall k: nat | k < LABELS ensures ValueShape(Field(lines, k)) { FieldShape(lines, k); }
    if LF in Trim(lines[1]) { TrimWithin(lines[1], LF); }
  }

  // ---- reading a printed message ----

  lemma {:induction false} FirstWithConcat(a: seq<Text>, b: seq<Text>, tag: Text)
    ensures FirstWith(a + b, tag) == if FirstWith(a, tag).Some? then FirstWith(a, tag) else FirstWith(b, tag)
  {
    if a == [] {
      assert a + b == b;
    } else {
      assert (a + b)[1..] == a[1..] + b;
      FirstWithConcat(a[1..], b, tag);
    }
  }

  /** The six labels begin with six different letters. */
  lemma LabelHeads(j: nat, k: nat)
    requires j < LABELS && k < LABELS
    ensures Label(j) != [] && LF !in Label(j)
    ensures Label(j)[0] == Label(k)[0] ==> j == k
  {
  }

  lemma {:induction false} LabelledFrom(f: Fields, j: nat, k: nat)
    requires j <= k < LABELS
    ensures FirstWith(LabelledLines(f)[j..], Label(k)) == Some(Trim(Value(f, k)))
    decreases k - j
  {
    hide Label, Value;
    var lines := LabelledLines(f);
    LabelHeads(j, k);
    LabelHeads(k, k);
    assert lines[j..][0] == Label(j) + Value(f, j) && lines[j..][1..] == lines[j + 1..];
    if j == k {
      DropPrefix(Label(k), Value(f, k));
    } else {
      assert (Label(j) + Value(f, j))[0] == Label(j)[0];
      LabelledFrom(f, j + 1, k);
    }
  }

  lemma ValuesShape(f: Fields, k: nat)
    requires Shape(f) && k < LABELS
    ensures ValueShape(Value(f, k))
  {
  }

  lemma PrintedField(f: Fields, k: nat)
    requires Shape(f) && k < LABELS
    ensures Field(HeaderLines(f) + LabelledLines(f), k)
      == match FirstWith(HeaderLines(f), Label(k)) case Some(h) => h case None => Value(f, k)
  {
    hide Label, Value, HeaderLines;
    FirstWithConcat(HeaderLines(f), LabelledLines(f), Label(k));
    assert LabelledLines(f)[0..] == LabelledLines(f);
    LabelledFrom(f, 0, k);
    ValuesShape(f, k);
    TrimFixed(Value(f, k));
  }

  lemma SuffixStart()
    ensures LF !in Units(" wants you") && LF !in Units(" to sign in")
  {
  }

  lemma SuffixEnd()
    ensures LF !in Units(" with your") && LF !in Units(" Ethereum account:")
  {
  }

  lemma SuffixOneLine()
    ensures LF !in Suffix()
  {
    SuffixStart();
    SuffixEnd();
    hide Units;
  }

  lemma PrintedLines(f: Fields)
    requires Shape(f)
    ensures NoBreaks(HeaderLines(f) + LabelledLines(f))
    ensures Split(Build(f), LF) == HeaderLines(f) + LabelledLines(f)
  {
    hide Label, Value, Suffix;
    var lines := HeaderLines(f) + LabelledLines(f);
    SuffixOneLine();
    forall i | 0 <= i < |lines| ensures LF !in lines[i] {
      if i >= 5 {
        assert lines[i] == Label(i - 5) + Value(f, i - 5);
        LabelHeads(i - 5, i - 5);
        ValuesShape(f, i - 5);
      }
    }
    SplitJoin(lines, LF);
  }

  /** No header line gives the label another value. */
  predicate Unshadowed(f: Fields, k: nat)
    requires k < LABELS
  {
    match FirstWith(HeaderLines(f), Label(k))
    case None => true
    case Some(h) => if k == CHAIN then ToNumber(h) == Some(f.chainId) else h == Value(f, k)
  }

  lemma PrintedDomain(f: Fields, suffix: Text)
    requires Shape(f)
    ensures DomainOf(f.domain + suffix, suffix) == Some(f.domain)
  {
    DropPrefix(f.domain, suffix);
    assert |f.domain + suffix| - |suffix| == |f.domain|;
  }

  /** The lines give field k its own value. */
  predicate Reads(f: Fields, lines: seq<Text>, k: nat)
    requires k < LABELS
  {
    if k == CHAIN then ToNumber(Field(lines, k)) == Some(f.chainId) else Field(lines, k) == Value(f, k)
  }

  lemma ValueBack(f: Fields, k: nat)
    requires Shape(f) && k < LABELS
    ensures Unshadowed(f, k) <==> Reads(f, HeaderLines(f) + LabelledLines(f), k)
  {
    hide Label, HeaderLines, LabelledLines, FirstWith, Field;
    PrintedField(f, k);
    DecimalRoundTrip(f.chainId);
  }

  lemma HeaderBack(f: Fields)
    requires Shape(f)
    ensures var lines := HeaderLines(f) + LabelledLines(f);
      && |lines| == 11 && DomainOf(lines[0], Suffix()) == Some(f.domain)
      && Trim(lines[1]) == f.address && lines[3] == f.statement
  {
    hide Label, Value, Suffix, DomainOf, Trim;
    PrintedDomain(f, Suffix());
    TrimFixed(f.address);
  }

  lemma ReadBack(f: Fields, lines: seq<Text>)
    requires Shape(f) && |lines| == 11
    requires DomainOf(lines[0], Suffix()) == Some(f.domain) && Trim(lines[1]) == f.address && lines[3] == f.statement
    ensures ParseLines(lines) == Some(f) <==> forall k: nat | k < LABELS :: Reads(f, lines, k)
  {
    hide Label, Suffix, FirstWith, Field, DomainOf, Shape, Trim, Decimal, Units;
    if forall k: nat | k < LABELS :: Reads(f, lines, k) {
      forall k: nat | k < LABELS ensures Field(lines, k) != [] {
        assert Reads(f, lines, k);
        ValuesShape(f, k);
      }
      assert Reads(f, lines, 0) && Reads(f, lines, 1) && Reads(f, lines, 2);
      assert Reads(f, lines, 3) && Reads(f, lines, 4) && Reads(f, lines, 5);
    }
  }

  lemma ShapedRoundTrip(f: Fields)
    requires Shape(f)
    ensures Parse(Build(f)) == Some(f) <==> forall k: nat | k < LABELS :: Unshadowed(f, k)
  {
    hide Label, Suffix, HeaderLines, LabelledLines, Field, FirstWith, Unshadowed, Build, Reads, ParseLines;
    hide DomainOf, Trim, Shape;
    var lines := HeaderLines(f) + LabelledLines(f);
    PrintedLines(f);
    HeaderBack(f);
    ReadBack(f, lines);
    forall k: nat | k < LABELS
      ensures Unshadowed(f, k) <==> Reads(f, lines, k)
    {
      ValueBack(f, k);
    }
  }

  /**
   For every set of fields: parsing the printed message gives them back exactly when they
   are non-empty, trimmed and single-line as `Shape` says, and no header line hides a field.
   */
  lemma RoundTripExactly(f: Fields)
    ensures Parse(Build(f)) == Some(f) <==> Shape(f) && forall k: nat | k < LABELS :: Unshadowed(f, k)
  {
    if Shape(f) {
      ShapedRoundTrip(f);
    } else if Parse(Build(f)).Some? {
      ParsedShape(Build(f));
    }
  }

  predicate StartsWithLabel(s: Text) { exists k: nat :: k < LABELS && Label(k) <= s }

  /** A caller's test: no header line begins with a label. */
  lemma PlainHeadersRoundTrip(f: Fields)
    requires Shape(f)
    requires !StartsWithLabel(f.domain + Suffix()) && !StartsWithLabel(f.address) && !StartsWithLabel(f.statement)
    ensures Parse(Build(f)) == Some(f)
  {
    hide Suffix;
    forall k: nat | k < LABELS ensures Unshadowed(f, k) {
      hide Label;
      LabelHeads(k, k);
      PlainHeader(HeaderLines(f), Label(k));
    }
    RoundTripExactly(f);
  }

  lemma {:induction false} PlainHeader(lines: seq<Text>, tag: Text)
    requires forall i | 0 <= i < |lines| :: !(tag <= lines[i])
    ensures FirstWith(lines, tag).None?
  {
    if lines == [] {
    } else {
      PlainHeader(lines[1..], tag);
    }
  }

  function ColonDomain(): Text { Units("URI:") }

  lemma SuffixSpace()
    ensures |Suffix()| > 0 && Suffix()[0] == ' ' as int
  {
  }

  lemma ColonDomainLine()
    ensures forall k: nat | k < LABELS :: !(Label(k) <= ColonDomain())
    ensures Label(0) <= ColonDomain() + Suffix()
    ensures OneLine(ColonDomain()) && ColonDomain() != []
  {
    SuffixSpace();
    hide Suffix;
    assert forall i | 0 <= i < 5 :: Label(0)[i] == (ColonDomain() + Suffix())[i];
  }

  /**
   Looking at the domain alone is not enough: "URI:" starts with no label, yet its line
   does, and the text after it is then taken for the URI.
   */
  lemma ColonDomainFails(f: Fields)
    requires Shape(f) && f.domain == ColonDomain()
    requires f.uri != Trim((ColonDomain() + Suffix())[|Label(0)|..])
    ensures !StartsWithLabel(f.domain)
    ensures Parse(Build(f)) != Some(f)
  {
    ColonDomainLine();
    hide Label, Suffix, ColonDomain;
    assert FirstWith(HeaderLines(f), Label(0)) == Some(Trim(HeaderLines(f)[0][|Label(0)|..]));
    assert !Unshadowed(f, 0);
    RoundTripExactly(f);
  }
}
