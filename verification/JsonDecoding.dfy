/** The decoder undoes the canonical printer, so canonical text is unique up to meaning. */
module JsonDecoding {
  import opened Texts
  import opened Utf8
  import opened Json

  /** What may follow a number without becoming part of it. */
  predicate Stops(rest: Text) { rest == [] || !IsDigit(rest[0]) }

  lemma Bracketed(open: Unit, body: Text, close: Unit, rest: Text)
    ensures [open] + body + [close] + rest == [open] + (body + ([close] + rest))
    ensures body == [] ==> [open] + body + [close] + rest == [open, close] + rest
  {
  }

  lemma ParseHexRoundTrip(u: Unit)
    ensures ParseHex4(Hex4(u)) == Some(u)
  {
  }

  lemma ParseEscapedUnit(u: Unit, t: Text)
    ensures EscapeUnit(u) != [] && EscapeUnit(u)[0] != QUOTE
    ensures ParseUnit(EscapeUnit(u) + t) == Some(Parsed(u, t))
  {
    var e := EscapeUnit(u);
    var s := e + t;
    assert s[|e|..] == t;
    if |e| == 6 {
      assert e[2..] == Hex4(u);
      assert s[2..6] == Hex4(u);
      ParseHexRoundTrip(u);
    }
  }

  lemma {:induction false} ParseCharsStep(s: Text, u: Unit, tail: Text, t: Text, rest: Text)
    requires s != [] && s[0] != QUOTE && ParseUnit(s) == Some(Parsed(u, tail))
    requires ParseChars(tail) == Some(Parsed(t, rest))
    ensures ParseChars(s) == Some(Parsed([u] + t, rest))
  {
  }

  lemma {:induction false} ParseEscapedStep(u: Unit, tail: Text, t: Text, rest: Text)
    requires ParseChars(tail) == Some(Parsed(t, rest))
    ensures ParseChars(EscapeUnit(u) + tail) == Some(Parsed([u] + t, rest))
  {
    ParseEscapedUnit(u, tail);
    ParseCharsStep(EscapeUnit(u) + tail, u, tail, t, rest);
  }

  lemma {:induction false} ParseRawStep(u: Unit, tail: Text, t: Text, rest: Text)
    requires u >= 0x80 && ParseChars(tail) == Some(Parsed(t, rest))
    ensures ParseChars([u] + tail) == Some(Parsed([u] + t, rest))
  {
    assert ([u] + tail)[1..] == tail;
    ParseCharsStep([u] + tail, u, tail, t, rest);
  }

  lemma {:induction false} ParsePairStep(hi: Unit, lo: Unit, tail: Text, t: Text, rest: Text)
    requires High(hi) && Low(lo) && ParseChars(tail) == Some(Parsed(t, rest))
    ensures ParseChars([hi, lo] + tail) == Some(Parsed([hi, lo] + t, rest))
  {
    ParseRawStep(lo, tail, t, rest);
    ParseRawStep(hi, [lo] + tail, [lo] + t, rest);
    assert [hi] + ([lo] + tail) == [hi, lo] + tail;
    assert [hi] + ([lo] + t) == [hi, lo] + t;
  }

  lemma {:induction false} ParseEscape(s: Text, rest: Text)
    ensures ParseChars(Escape(s) + ([QUOTE] + rest)) == Some(Parsed(s, rest))
  {
    var close := [QUOTE] + rest;
    if s == [] {
      assert Escape(s) + close == close;
      assert close[1..] == rest;
    } else if StartsPair(s) {
      ParseEscape(s[2..], rest);
      ParsePairStep(s[0], s[1], Escape(s[2..]) + close, s[2..], rest);
      Assoc(s[..2], Escape(s[2..]), close);
      assert s[..2] == [s[0], s[1]] && s == s[..2] + s[2..];
    } else {
      ParseEscape(s[1..], rest);
      ParseEscapedStep(s[0], Escape(s[1..]) + close, s[1..], rest);
      Assoc(EscapeUnit(s[0]), Escape(s[1..]), close);
      assert s == [s[0]] + s[1..];
    }
  }

  lemma ParseQuoted(s: Text, rest: Text)
    ensures (Quote(s) + rest)[0] == QUOTE
    ensures ParseChars((Quote(s) + rest)[1..]) == Some(Parsed(s, rest))
  {
    ParseEscape(s, rest);
    Bracketed(QUOTE, Escape(s), QUOTE, rest);
    DropPrefix([QUOTE], Escape(s) + ([QUOTE] + rest));
  }

  lemma {:induction false} DigitCountStops(ds: Text, rest: Text)
    requires AllDigits(ds) && Stops(rest)
    ensures DigitCount(ds + rest) == |ds|
  {
    if ds == [] {
      assert ds + rest == rest;
    } else {
      assert (ds + rest)[1..] == ds[1..] + rest;
      DigitCountStops(ds[1..], rest);
    }
  }

  lemma {:induction false} ParseDigits(n: nat, rest: Text)
    requires Stops(rest)
    ensures var s := Decimal(n) + rest;
      && DigitCount(s) == |Decimal(n)| && DecimalValue(s[..|Decimal(n)|]) == n && s[|Decimal(n)|..] == rest
  {
    DigitCountStops(Decimal(n), rest);
    DecimalRoundTrip(n);
    DropPrefix(Decimal(n), rest);
  }

  lemma ParsePrintedInteger(n: int, rest: Text)
    requires Stops(rest)
    ensures ParseInteger(Integer(n) + rest) == Some(Parsed(n, rest))
  {
    if n < 0 {
      ParseDigits(-n, rest);
      Assoc(['-' as int], Decimal(-n), rest);
      DropPrefix(['-' as int], Decimal(-n) + rest);
    } else {
      ParseDigits(n, rest);
    }
  }

  /** The first unit tells the decoder which production to read. */
  lemma {:induction false} FirstUnit(v: Js)
    ensures var t := CanonicalJson(v); t != [] && match v
      case Undefined => t[0] == 'n' as int
      case Null => t[0] == 'n' as int
      case NotFinite => t[0] == 'n' as int
      case Bool(b) => t[0] == if b then 't' as int else 'f' as int
      case Num(n) => t[0] == '-' as int || IsDigit(t[0])
      case Str(_) => t[0] == QUOTE
      case Arr(_) => t[0] == '[' as int
      case Obj(_) => t[0] == '{' as int
  {
  }

  lemma ParseWordAt(word: Text, v: Value, rest: Text)
    requires word != []
    ensures ParseWord(word + rest, word, v) == Some(Parsed(v, rest))
  {
    assert (word + rest)[|word|..] == rest;
  }

  /** The meaning of the fields listed by ks. */
  function MapOf(ks: seq<Text>, fs: seq<Field>): map<Text, Value>
    requires forall i | 0 <= i < |ks| :: ks[i] in DefinedKeys(fs)
  {
    if ks == [] then map[]
    else MapOf(ks[1..], fs)[ks[0] := Meaning(fs[IndexOf(fs, ks[0])].value)]
  }

  lemma {:induction false} MapOfAt(ks: seq<Text>, fs: seq<Field>, k: Text)
    requires forall i | 0 <= i < |ks| :: ks[i] in DefinedKeys(fs)
    ensures k in MapOf(ks, fs) <==> k in ks
    ensures k in ks ==> MapOf(ks, fs)[k] == Meaning(fs[IndexOf(fs, k)].value)
  {
    if ks == [] {
    } else {
      MapOfAt(ks[1..], fs, k);
    }
  }

  /** Sorting and dropping undefined fields keeps exactly the meaning of an object. */
  lemma {:induction false} SortedFieldsMeaning(fs: seq<Field>)
    requires UniqueKeys(fs)
    ensures MapOf(Sort(DefinedKeys(fs)), fs) == MeaningFields(fs)
  {
    MeaningFieldsAt(fs);
    forall k ensures k in MapOf(Sort(DefinedKeys(fs)), fs) <==> k in MeaningFields(fs) {
      MapOfAt(Sort(DefinedKeys(fs)), fs, k);
    }
    forall k | k in MeaningFields(fs)
      ensures MapOf(Sort(DefinedKeys(fs)), fs)[k] == MeaningFields(fs)[k]
    {
      MapOfAt(Sort(DefinedKeys(fs)), fs, k);
    }
  }

  // One lemma for each production, so that each unfolds `ParseValue` once.

  lemma {:induction false} ParseAtom(v: Js, rest: Text)
    requires !v.Arr? && !v.Obj? && Stops(rest)
    ensures ParseValue(CanonicalJson(v) + rest) == Some(Parsed(Meaning(v), rest))
  {
    FirstUnit(v);
    assert (CanonicalJson(v) + rest)[0] == CanonicalJson(v)[0];
    match v
    case Undefined => ParseWordAt(Units("null"), VNull, rest);
    case Null => ParseWordAt(Units("null"), VNull, rest);
    case NotFinite => ParseWordAt(Units("null"), VNull, rest);
    case Bool(b) => ParseWordAt(if b then Units("true") else Units("false"), VBool(b), rest);
    case Num(n) => ParsePrintedInteger(n, rest);
    case Str(t) => ParseQuoted(t, rest);
  }

  lemma {:induction false} ParseArray(body: Text, vs: seq<Value>, rest: Text)
    requires body != [] && body[0] != ']' as int
    requires ParseItems(body) == Some(Parsed(vs, rest))
    ensures ParseValue(['[' as int] + body) == Some(Parsed(VArr(vs), rest))
  {
    DropPrefix(['[' as int], body);
  }

  lemma {:induction false} ParseEmptyArray(rest: Text)
    ensures ParseValue(['[' as int, ']' as int] + rest) == Some(Parsed(VArr([]), rest))
  {
    DropPrefix(['[' as int, ']' as int], rest);
  }

  lemma {:induction false} ParseObject(body: Text, m: map<Text, Value>, rest: Text)
    requires body != [] && body[0] != '}' as int
    requires ParseMembers(body) == Some(Parsed(m, rest))
    ensures ParseValue(['{' as int] + body) == Some(Parsed(VObj(m), rest))
  {
    DropPrefix(['{' as int], body);
  }

  lemma {:induction false} ParseEmptyObject(rest: Text)
    ensures ParseValue(['{' as int, '}' as int] + rest) == Some(Parsed(VObj(map[]), rest))
  {
    DropPrefix(['{' as int, '}' as int], rest);
  }

  /** The decoder reads back what was printed, whatever a document continues with. */
  lemma {:induction false} ParsePrinted(v: Js, rest: Text)
    requires Valid(v) && Stops(rest)
    ensures ParseValue(CanonicalJson(v) + rest) == Some(Parsed(Meaning(v), rest))
    decreases v, 1
  {
    match v
    case Arr(items) => ParsePrintedArray(items, rest);
    case Obj(fs) => ParsePrintedObject(fs, rest);
    case _ => ParseAtom(v, rest);
  }

  lemma {:induction false} ParsePrintedArray(items: seq<Js>, rest: Text)
    requires Valid(Arr(items))
    ensures ParseValue(CanonicalJson(Arr(items)) + rest) == Some(Parsed(VArr(MeaningItems(items)), rest))
    decreases items, 1
  {
    Bracketed('[' as int, Items(items), ']' as int, rest);
    if items == [] {
      ParseEmptyArray(rest);
    } else {
      ParsePrintedItems(items, rest);
      FirstUnit(items[0]);
      ParseArray(Items(items) + ([']' as int] + rest), MeaningItems(items), rest);
    }
  }

  lemma {:induction false} FirstOfMembers(ks: seq<Text>, fs: seq<Field>, rest: Text)
    requires |ks| > 0 && forall i | 0 <= i < |ks| :: ks[i] in DefinedKeys(fs)
    ensures Members(ks, fs) != [] && (Members(ks, fs) + rest)[0] == QUOTE
  {
  }

  lemma {:induction false} ParsePrintedObject(fs: seq<Field>, rest: Text)
    requires Valid(Obj(fs))
    ensures ParseValue(CanonicalJson(Obj(fs)) + rest) == Some(Parsed(VObj(MeaningFields(fs)), rest))
    decreases fs, 2
  {
    var ks := Sort(DefinedKeys(fs));
    var close := ['}' as int] + rest;
    Bracketed('{' as int, Members(ks, fs), '}' as int, rest);
    SortedFieldsMeaning(fs);
    if ks == [] {
      ParseEmptyObject(rest);
    } else {
      ParsePrintedMembers(ks, fs, rest);
      FirstOfMembers(ks, fs, close);
      ParseObject(Members(ks, fs) + close, MapOf(ks, fs), rest);
    }
  }

  lemma ParseLastItem(first: Text, v: Value, rest: Text)
    requires ParseValue(first + ([']' as int] + rest)) == Some(Parsed(v, [']' as int] + rest))
    ensures ParseItems(first + ([']' as int] + rest)) == Some(Parsed([v], rest))
  {
    DropPrefix([']' as int], rest);
  }

  lemma ParseNextItem(first: Text, v: Value, tail: Text, vs: seq<Value>, rest: Text)
    requires ParseValue(first + ([',' as int] + tail)) == Some(Parsed(v, [',' as int] + tail))
    requires ParseItems(tail) == Some(Parsed(vs, rest))
    ensures ParseItems(first + ([',' as int] + tail)) == Some(Parsed([v] + vs, rest))
  {
    DropPrefix([',' as int], tail);
  }

  lemma {:induction false} ParsePrintedItems(items: seq<Js>, rest: Text)
    requires |items| > 0
    requires forall i | 0 <= i < |items| :: Valid(items[i])
    ensures ParseItems(Items(items) + ([']' as int] + rest)) == Some(Parsed(MeaningItems(items), rest))
    decreases items, 0
  {
    var first, close := CanonicalJson(items[0]), [']' as int] + rest;
    if |items| == 1 {
      ParsePrinted(items[0], close);
      ParseLastItem(first, Meaning(items[0]), rest);
      assert MeaningItems(items) == [Meaning(items[0])];
      assert Items(items) == first;
    } else {
      var tail := Items(items[1..]) + close;
      ParsePrinted(items[0], [',' as int] + tail);
      ParsePrintedItems(items[1..], rest);
      ParseNextItem(first, Meaning(items[0]), tail, MeaningItems(items[1..]), rest);
      Assoc([',' as int], Items(items[1..]), close);
      Assoc(first, [',' as int] + Items(items[1..]), close);
    }
  }

  lemma {:induction false} ParseKeyValue(k: Text, body: Text, v: Value, rest: Text)
    requires ParseValue(body + rest) == Some(Parsed(v, rest))
    ensures ParseMember(Quote(k) + [':' as int] + body + rest) == Some(Parsed((k, v), rest))
  {
    var tail := [':' as int] + (body + rest);
    ParseQuoted(k, tail);
    Assoc(Quote(k) + [':' as int], body, rest);
    Assoc(Quote(k), [':' as int], body + rest);
    DropPrefix([':' as int], body + rest);
  }

  lemma {:induction false} ParsePrintedMember(k: Text, fs: seq<Field>, rest: Text)
    requires k in DefinedKeys(fs) && Stops(rest)
    requires forall i | 0 <= i < |fs| :: Valid(fs[i].value)
    ensures ParseMember(Member(k, fs) + rest) == Some(Parsed((k, Meaning(fs[IndexOf(fs, k)].value)), rest))
    decreases fs, 0
  {
    var v := fs[IndexOf(fs, k)].value;
    ParsePrinted(v, rest);
    ParseKeyValue(k, CanonicalJson(v), Meaning(v), rest);
  }

  lemma ParseLastMember(first: Text, k: Text, v: Value, rest: Text)
    requires ParseMember(first + (['}' as int] + rest)) == Some(Parsed((k, v), ['}' as int] + rest))
    ensures ParseMembers(first + (['}' as int] + rest)) == Some(Parsed(map[k := v], rest))
  {
    DropPrefix(['}' as int], rest);
  }

  lemma ParseNextMember(first: Text, k: Text, v: Value, tail: Text, m: map<Text, Value>, rest: Text)
    requires ParseMember(first + ([',' as int] + tail)) == Some(Parsed((k, v), [',' as int] + tail))
    requires ParseMembers(tail) == Some(Parsed(m, rest))
    ensures ParseMembers(first + ([',' as int] + tail)) == Some(Parsed(m[k := v], rest))
  {
    DropPrefix([',' as int], tail);
  }

  lemma {:induction false} MembersUnfold(ks: seq<Text>, fs: seq<Field>, close: Text)
    requires |ks| > 0 && forall i | 0 <= i < |ks| :: ks[i] in DefinedKeys(fs)
    ensures |ks| == 1 ==> Members(ks, fs) == Member(ks[0], fs)
    ensures |ks| > 1 ==>
      Members(ks, fs) + close == Member(ks[0], fs) + ([',' as int] + (Members(ks[1..], fs) + close))
  {
    if |ks| > 1 {
      Assoc([',' as int], Members(ks[1..], fs), close);
      Assoc(Member(ks[0], fs), [',' as int] + Members(ks[1..], fs), close);
    }
  }

  lemma {:induction false} ParsePrintedMembers(ks: seq<Text>, fs: seq<Field>, rest: Text)
    requires |ks| > 0
    requires forall i | 0 <= i < |ks| :: ks[i] in DefinedKeys(fs)
    requires forall i | 0 <= i < |fs| :: Valid(fs[i].value)
    ensures ParseMembers(Members(ks, fs) + (['}' as int] + rest)) == Some(Parsed(MapOf(ks, fs), rest))
    decreases fs, 1, |ks|
  {
    var first, close := Member(ks[0], fs), ['}' as int] + rest;
    var v := Meaning(fs[IndexOf(fs, ks[0])].value);
    MembersUnfold(ks, fs, close);
    if |ks| == 1 {
      ParsePrintedMember(ks[0], fs, close);
      ParseLastMember(first, ks[0], v, rest);
      assert MapOf(ks, fs) == map[ks[0] := v];
    } else {
      var tail := Members(ks[1..], fs) + close;
      ParsePrintedMember(ks[0], fs, [',' as int] + tail);
      ParsePrintedMembers(ks[1..], fs, rest);
      ParseNextMember(first, ks[0], v, tail, MapOf(ks[1..], fs), rest);
    }
  }

  /** Unique decodability: the anchor text of a record can be read back. */
  lemma {:induction false} DecodePrinted(v: Js)
    requires Valid(v)
    ensures Json.Decode(CanonicalJson(v)) == Some(Meaning(v))
  {
    ParsePrinted(v, []);
    assert CanonicalJson(v) + [] == CanonicalJson(v);
  }

  // ---- the converse: equal meaning prints equal text ----

  lemma {:induction false} PrintByMeaning(a: Js, b: Js)
    requires Valid(a) && Valid(b) && Meaning(a) == Meaning(b)
    ensures CanonicalJson(a) == CanonicalJson(b)
    decreases a
  {
    match (a, b)
    case (Arr(xs), Arr(ys)) =>
      PrintItemsByMeaning(xs, ys);
    case (Obj(fs), Obj(gs)) =>
      var ks := Sort(DefinedKeys(fs));
      SameKeys(fs, gs);
      PrintMembersByMeaning(ks, fs, gs);
    case _ =>
  }

  lemma {:induction false} PrintItemsByMeaning(xs: seq<Js>, ys: seq<Js>)
    requires forall i | 0 <= i < |xs| :: Valid(xs[i])
    requires forall i | 0 <= i < |ys| :: Valid(ys[i])
    requires MeaningItems(xs) == MeaningItems(ys)
    ensures Items(xs) == Items(ys)
    decreases xs
  {
    assert |MeaningItems(xs)| == |xs| == |ys|;
    if xs == [] {
    } else {
      assert MeaningItems(xs)[0] == MeaningItems(ys)[0];
      PrintByMeaning(xs[0], ys[0]);
      assert MeaningItems(xs)[1..] == MeaningItems(ys)[1..];
      PrintItemsByMeaning(xs[1..], ys[1..]);
    }
  }

  /** The sorted key list depends on the meaning alone. */
  lemma {:induction false} SameKeys(fs: seq<Field>, gs: seq<Field>)
    requires UniqueKeys(fs) && UniqueKeys(gs) && MeaningFields(fs) == MeaningFields(gs)
    ensures forall k :: k in DefinedKeys(fs) <==> k in DefinedKeys(gs)
    ensures Sort(DefinedKeys(fs)) == Sort(DefinedKeys(gs))
  {
    MeaningFieldsAt(fs);
    MeaningFieldsAt(gs);
    DefinedKeysDistinct(fs);
    DefinedKeysDistinct(gs);
    SortAscending(DefinedKeys(fs));
    SortAscending(DefinedKeys(gs));
    AscendingUnique(Sort(DefinedKeys(fs)), Sort(DefinedKeys(gs)));
  }

  lemma {:induction false} PrintMembersByMeaning(ks: seq<Text>, fs: seq<Field>, gs: seq<Field>)
    requires forall i | 0 <= i < |ks| :: ks[i] in DefinedKeys(fs) && ks[i] in DefinedKeys(gs)
    requires UniqueKeys(fs) && UniqueKeys(gs) && MeaningFields(fs) == MeaningFields(gs)
    requires forall i | 0 <= i < |fs| :: Valid(fs[i].value)
    requires forall i | 0 <= i < |gs| :: Valid(gs[i].value)
    ensures Members(ks, fs) == Members(ks, gs)
    decreases fs, |ks|
  {
    if ks == [] {
    } else {
      var i, j := IndexOf(fs, ks[0]), IndexOf(gs, ks[0]);
      MeaningFieldsAt(fs);
      MeaningFieldsAt(gs);
      assert Meaning(fs[i].value) == Meaning(gs[j].value);
      PrintByMeaning(fs[i].value, gs[j].value);
      PrintMembersByMeaning(ks[1..], fs, gs);
    }
  }

  /**
   The canonical text is injective up to meaning: two values print alike exactly when
   they agree after ignoring key order and dropping undefined fields.
   */
  lemma {:induction false} CanonicalInjective(a: Js, b: Js)
    requires Valid(a) && Valid(b)
    ensures CanonicalJson(a) == CanonicalJson(b) <==> Meaning(a) == Meaning(b)
  {
    if CanonicalJson(a) == CanonicalJson(b) {
      DecodePrinted(a);
      DecodePrinted(b);
    } else if Meaning(a) == Meaning(b) {
      PrintByMeaning(a, b);
    }
  }

  // ---- the canonical text is always well-formed UTF-16 ----

  lemma {:induction false} WellFormedConcat(s: Text, t: Text)
    requires WellFormed(s) && WellFormed(t)
    ensures WellFormed(s + t)
  {
    if s == [] {
      assert s + t == t;
    } else if StartsPair(s) {
      assert (s + t)[2..] == s[2..] + t;
      WellFormedConcat(s[2..], t);
    } else {
      assert (s + t)[1..] == s[1..] + t;
      WellFormedConcat(s[1..], t);
    }
  }

  predicate NoSurrogates(s: Text) { forall i | 0 <= i < |s| :: !High(s[i]) && !Low(s[i]) }

  lemma {:induction false} PlainWellFormed(s: Text)
    requires NoSurrogates(s)
    ensures WellFormed(s)
  {
    if s == [] {
    } else {
      PlainWellFormed(s[1..]);
    }
  }

  lemma {:induction false} EscapeWellFormed(s: Text)
    ensures WellFormed(Escape(s))
  {
    if s == [] {
    } else if StartsPair(s) {
      EscapeWellFormed(s[2..]);
      WellFormedConcat(s[..2], Escape(s[2..]));
    } else {
      EscapeWellFormed(s[1..]);
      PlainWellFormed(EscapeUnit(s[0]));
      WellFormedConcat(EscapeUnit(s[0]), Escape(s[1..]));
    }
  }

  lemma QuoteWellFormed(s: Text)
    ensures WellFormed(Quote(s))
  {
    EscapeWellFormed(s);
    WellFormedConcat([QUOTE], Escape(s));
    WellFormedConcat([QUOTE] + Escape(s), [QUOTE]);
  }

  /** However ill-formed the strings in a record, its canonical text can be hashed. */
  lemma {:induction false} CanonicalWellFormed(v: Js)
    ensures WellFormed(CanonicalJson(v))
    decreases v
  {
    match v
    case Str(s) => QuoteWellFormed(s);
    case Arr(items) =>
      ItemsWellFormed(items);
      WellFormedConcat(['[' as int], Items(items));
      WellFormedConcat(['[' as int] + Items(items), [']' as int]);
    case Obj(fs) =>
      var body := Members(Sort(DefinedKeys(fs)), fs);
      MembersWellFormed(Sort(DefinedKeys(fs)), fs);
      WellFormedConcat(['{' as int], body);
      WellFormedConcat(['{' as int] + body, ['}' as int]);
    case _ => PlainWellFormed(CanonicalJson(v));
  }

  lemma {:induction false} ItemsWellFormed(items: seq<Js>)
    ensures WellFormed(Items(items))
    decreases items
  {
    if items == [] {
    } else {
      CanonicalWellFormed(items[0]);
      ItemsWellFormed(items[1..]);
      var more := if |items| == 1 then [] else [',' as int] + Items(items[1..]);
      if |items| > 1 { WellFormedConcat([',' as int], Items(items[1..])); }
      WellFormedConcat(CanonicalJson(items[0]), more);
    }
  }

  lemma {:induction false} MembersWellFormed(ks: seq<Text>, fs: seq<Field>)
    requires forall i | 0 <= i < |ks| :: ks[i] in DefinedKeys(fs)
    ensures WellFormed(Members(ks, fs))
    decreases fs, |ks|
  {
    if ks == [] {
    } else {
      var v := fs[IndexOf(fs, ks[0])].value;
      QuoteWellFormed(ks[0]);
      CanonicalWellFormed(v);
      WellFormedConcat(Quote(ks[0]), [':' as int]);
      WellFormedConcat(Quote(ks[0]) + [':' as int], CanonicalJson(v));
      MembersWellFormed(ks[1..], fs);
      var more := if |ks| == 1 then [] else [',' as int] + Members(ks[1..], fs);
      if |ks| > 1 { WellFormedConcat([',' as int], Members(ks[1..], fs)); }
      WellFormedConcat(Member(ks[0], fs), more);
    }
  }
}
