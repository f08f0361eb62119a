/**
 The canonical JSON printer behind every integrity anchor, an independent decoder, and the
 proof that the printed text determines the record up to key order and dropped fields.
 */
module Json {
  import opened Texts
  import opened Utf8

  /**
   A JavaScript value as `canonicalJson` receives it. An object is its own fields in
   insertion order; a number is an integer or one of NaN and the infinities.
   */
  datatype Js =
    | Undefined
    | Null
    | NotFinite
    | Bool(b: bool)
    | Num(n: int)
    | Str(s: Text)
    | Arr(items: seq<Js>)
    | Obj(fields: seq<Field>)

  datatype Field = Field(key: Text, value: Js)

  /** An object holds a key at most once. */
  ghost predicate UniqueKeys(fs: seq<Field>) {
    forall i, j | 0 <= i < j < |fs| :: fs[i].key != fs[j].key
  }

  ghost predicate Valid(v: Js) {
    match v
    case Arr(items) => forall i | 0 <= i < |items| :: Valid(items[i])
    case Obj(fs) => UniqueKeys(fs) && forall i | 0 <= i < |fs| :: Valid(fs[i].value)
    case _ => true
  }

  // ---- what a value means: key order and undefined fields are gone ----

  datatype Value =
    | VNull
    | VBool(b: bool)
    | VNum(n: int)
    | VStr(s: Text)
    | VArr(items: seq<Value>)
    | VObj(fields: map<Text, Value>)

  function Meaning(v: Js): Value {
    match v
    case Undefined => VNull
    case Null => VNull
    case NotFinite => VNull
    case Bool(b) => VBool(b)
    case Num(n) => VNum(n)
    case Str(s) => VStr(s)
    case Arr(items) => VArr(MeaningItems(items))
    case Obj(fs) => VObj(MeaningFields(fs))
  }

  function MeaningItems(items: seq<Js>): (vs: seq<Value>)
    ensures |vs| == |items|
    ensures forall i | 0 <= i < |vs| :: vs[i] == Meaning(items[i])
  {
    if items == [] then [] else [Meaning(items[0])] + MeaningItems(items[1..])
  }

  function MeaningFields(fs: seq<Field>): map<Text, Value> {
    if fs == [] then map[]
    else
      var rest := MeaningFields(fs[1..]);
      if fs[0].value.Undefined? then rest else rest[fs[0].key := Meaning(fs[0].value)]
  }

  lemma {:induction false} MeaningFieldsAt(fs: seq<Field>)
    requires UniqueKeys(fs)
    ensures forall i | 0 <= i < |fs| && !fs[i].value.Undefined? ::
      fs[i].key in MeaningFields(fs) && MeaningFields(fs)[fs[i].key] == Meaning(fs[i].value)
    ensures forall k :: k in MeaningFields(fs) <==> k in DefinedKeys(fs)
  {
    if fs == [] {
    } else {
      MeaningFieldsAt(fs[1..]);
      forall k | k in DefinedKeys(fs[1..])
        ensures k != fs[0].key
      {
        DefinedKeysFrom(fs[1..], k);
      }
    }
  }

  // ---- key order ----

  /** The order of JavaScript's default `sort` on strings. */
  predicate Less(a: Text, b: Text) {
    b != [] && (a == [] || a[0] < b[0] || (a[0] == b[0] && Less(a[1..], b[1..])))
  }

  lemma {:induction false} LessTotal(a: Text, b: Text)
    ensures a == b <==> !Less(a, b) && !Less(b, a)
    ensures !(Less(a, b) && Less(b, a))
  {
    if a != [] && b != [] && a[0] == b[0] {
      LessTotal(a[1..], b[1..]);
      assert a == [a[0]] + a[1..] && b == [b[0]] + b[1..];
    }
  }

  lemma {:induction false} LessTransitive(a: Text, b: Text, c: Text)
    requires Less(a, b) && Less(b, c)
    ensures Less(a, c)
  {
    if a != [] && a[0] == b[0] == c[0] {
      LessTransitive(a[1..], b[1..], c[1..]);
    }
  }

  ghost predicate Ascending(ks: seq<Text>) {
    forall i, j | 0 <= i < j < |ks| :: Less(ks[i], ks[j])
  }

  function Insert(k: Text, ks: seq<Text>): (r: seq<Text>)
    ensures forall x :: x in r <==> x == k || x in ks
  {
    if ks == [] || Less(k, ks[0]) then [k] + ks else [ks[0]] + Insert(k, ks[1..])
  }

  function Sort(ks: seq<Text>): (r: seq<Text>)
    ensures forall x :: x in r <==> x in ks
  {
    if ks == [] then [] else Insert(ks[0], Sort(ks[1..]))
  }

  lemma {:induction false} InsertAscending(k: Text, ks: seq<Text>)
    requires Ascending(ks) && k !in ks
    ensures Ascending(Insert(k, ks))
  {
    if ks == [] {
    } else if Less(k, ks[0]) {
      forall j | 0 <= j < |ks| ensures Less(k, ks[j]) {
        if j > 0 { LessTransitive(k, ks[0], ks[j]); }
      }
    } else {
      LessTotal(k, ks[0]);
      InsertAscending(k, ks[1..]);
      var r := Insert(k, ks[1..]);
      forall j | 0 <= j < |r| ensures Less(ks[0], r[j]) {
        assert r[j] in r;
      }
    }
  }

  lemma {:induction false} SortAscending(ks: seq<Text>)
    requires Distinct(ks)
    ensures Ascending(Sort(ks))
  {
    if ks == [] {
    } else {
      SortAscending(ks[1..]);
      InsertAscending(ks[0], Sort(ks[1..]));
    }
  }

  lemma HasFirst(b: seq<Text>)
    ensures |b| > 0 ==> b[0] in b
  {
  }

  /** A set of keys has one ascending listing. */
  lemma {:induction false} AscendingUnique(a: seq<Text>, b: seq<Text>)
    requires Ascending(a) && Ascending(b)
    requires forall k :: k in a <==> k in b
    ensures a == b
  {
    if a == [] {
      HasFirst(b);
    } else {
      assert a[0] in b;
      assert b[0] in a;
      LessTotal(a[0], b[0]);
      forall k
        ensures k in a[1..] <==> k in b[1..]
      {
        LessTotal(k, k);
        assert k in a[1..] ==> k in a && k != a[0];
        assert k in b[1..] ==> k in b && k != b[0];
      }
      AscendingUnique(a[1..], b[1..]);
    }
  }

  // ---- the printer ----

  function DefinedKeys(fs: seq<Field>): seq<Text> {
    if fs == [] then []
    else (if fs[0].value.Undefined? then [] else [fs[0].key]) + DefinedKeys(fs[1..])
  }

  lemma {:induction false} DefinedKeysFrom(fs: seq<Field>, k: Text)
    ensures k in DefinedKeys(fs) <==> exists i :: 0 <= i < |fs| && fs[i].key == k && !fs[i].value.Undefined?
  {
    if fs == [] {
    } else {
      DefinedKeysFrom(fs[1..], k);
      if i :| 0 <= i < |fs| && fs[i].key == k && !fs[i].value.Undefined? {
        if i > 0 { assert fs[1..][i - 1] == fs[i]; }
      }
    }
  }

  lemma {:induction false} DefinedKeysDistinct(fs: seq<Field>)
    requires UniqueKeys(fs)
    ensures Distinct(DefinedKeys(fs))
  {
    if fs == [] {
    } else {
      DefinedKeysDistinct(fs[1..]);
      DefinedKeysFrom(fs[1..], fs[0].key);
    }
  }

  function IndexOf(fs: seq<Field>, k: Text): (i: nat)
    requires k in DefinedKeys(fs)
    ensures i < |fs| && fs[i].key == k && !fs[i].value.Undefined?
  {
    if fs[0].key == k && !fs[0].value.Undefined? then 0 else 1 + IndexOf(fs[1..], k)
  }

  function CanonicalJson(v: Js): Text
    decreases v
  {
    match v
    case Undefined => Units("null")
    case Null => Units("null")
    case NotFinite => Units("null")
    case Bool(b) => if b then Units("true") else Units("false")
    case Num(n) => Integer(n)
    case Str(s) => Quote(s)
    case Arr(items) => ['[' as int] + Items(items) + [']' as int]
    case Obj(fs) => ['{' as int] + Members(Sort(DefinedKeys(fs)), fs) + ['}' as int]
  }

  function Items(items: seq<Js>): Text
    decreases items
  {
    if items == [] then []
    else CanonicalJson(items[0]) + if |items| == 1 then [] else [',' as int] + Items(items[1..])
  }

  function Member(k: Text, fs: seq<Field>): Text
    requires k in DefinedKeys(fs)
    decreases fs, 0
  {
    Quote(k) + [':' as int] + CanonicalJson(fs[IndexOf(fs, k)].value)
  }

  function Members(ks: seq<Text>, fs: seq<Field>): Text
    requires forall i | 0 <= i < |ks| :: ks[i] in DefinedKeys(fs)
    decreases fs, 1, |ks|
  {
    if ks == [] then []
    else Member(ks[0], fs) + if |ks| == 1 then [] else [',' as int] + Members(ks[1..], fs)
  }

  function Integer(n: int): Text {
    if n < 0 then ['-' as int] + Decimal(-n) else Decimal(n)
  }

  function HexDigit(d: nat): Unit
    requires d < 16
  {
    if d < 10 then 48 + d else 87 + d
  }

  function Hex4(u: Unit): Text {
    [HexDigit(u / 16 / 16 / 16), HexDigit(u / 16 / 16 % 16), HexDigit(u / 16 % 16), HexDigit(u % 16)]
  }

  const QUOTE: Unit := 0x22
  const BACKSLASH: Unit := 0x5C

  /** `JSON.stringify` of one unit that is not part of a surrogate pair. */
  function EscapeUnit(u: Unit): Text {
    if u == QUOTE || u == BACKSLASH then [BACKSLASH, u]
    else if u == 0x08 then [BACKSLASH, 'b' as int]
    else if u == 0x09 then [BACKSLASH, 't' as int]
    else if u == 0x0A then [BACKSLASH, 'n' as int]
    else if u == 0x0C then [BACKSLASH, 'f' as int]
    else if u == 0x0D then [BACKSLASH, 'r' as int]
    else if u < 0x20 || High(u) || Low(u) then [BACKSLASH, 'u' as int] + Hex4(u)
    else [u]
  }

  function Escape(s: Text): Text {
    if s == [] then []
    else if StartsPair(s) then s[..2] + Escape(s[2..])
    else EscapeUnit(s[0]) + Escape(s[1..])
  }

  function Quote(s: Text): Text {
    [QUOTE] + Escape(s) + [QUOTE]
  }

  // ---- the decoder: JSON (RFC 8259) without insignificant white space ----

  datatype Parsed<+T> = Parsed(value: T, rest: Text)

  function HexValue(u: Unit): Option<nat> {
    if 48 <= u <= 57 then Some(u - 48)
    else if 'a' as int <= u <= 'f' as int then Some(u - 87)
    else if 'A' as int <= u <= 'F' as int then Some(u - 55)
    else None
  }

  function ParseHex4(s: Text): (r: Option<Unit>)
    requires |s| == 4
  {
    match (HexValue(s[0]), HexValue(s[1]), HexValue(s[2]), HexValue(s[3]))
    case (Some(a), Some(b), Some(c), Some(d)) =>
      var n: int := ((a * 16 + b) * 16 + c) * 16 + d;
      if n < 0x1_0000 then Some(n) else None
    case _ => None
  }

  function SimpleEscape(u: Unit): Option<Unit> {
    if u == QUOTE || u == BACKSLASH || u == '/' as int then Some(u)
    else if u == 'b' as int then Some(0x08)
    else if u == 't' as int then Some(0x09)
    else if u == 'n' as int then Some(0x0A)
    else if u == 'f' as int then Some(0x0C)
    else if u == 'r' as int then Some(0x0D)
    else None
  }

  /** One string unit at the head of s, and how much of s it took. */
  function ParseUnit(s: Text): (r: Option<Parsed<Unit>>)
    requires s != [] && s[0] != QUOTE
    ensures r.Some? ==> |r.value.rest| < |s|
  {
    if s[0] == BACKSLASH then
      if |s| >= 6 && s[1] == 'u' as int then
        match ParseHex4(s[2..6])
        case Some(u) => Some(Parsed(u, s[6..]))
        case None => None
      else if |s| >= 2 then
        match SimpleEscape(s[1])
        case Some(u) => Some(Parsed(u, s[2..]))
        case None => None
      else None
    else if s[0] < 0x20 then None
    else Some(Parsed(s[0], s[1..]))
  }

  /** The rest of a string literal whose opening quote has been read. */
  function ParseChars(s: Text): (r: Option<Parsed<Text>>)
    ensures r.Some? ==> |r.value.rest| < |s|
    decreases |s|
  {
    if s == [] then None
    else if s[0] == QUOTE then Some(Parsed([], s[1..]))
    else
      match ParseUnit(s)
      case None => None
      case Some(Parsed(u, rest)) =>
        match ParseChars(rest)
        case None => None
        case Some(Parsed(t, rest')) => Some(Parsed([u] + t, rest'))
  }

  function DigitCount(s: Text): (n: nat)
    ensures n <= |s| && AllDigits(s[..n])
  {
    if s != [] && IsDigit(s[0]) then 1 + DigitCount(s[1..]) else 0
  }

  function ParseInteger(s: Text): (r: Option<Parsed<int>>)
    ensures r.Some? ==> |r.value.rest| < |s|
  {
    var negative := s != [] && s[0] == '-' as int;
    var body := if negative then s[1..] else s;
    var n := DigitCount(body);
    if n == 0 then None
    else
      var value: int := DecimalValue(body[..n]);
      Some(Parsed(if negative then 0 - value else value, body[n..]))
  }

  function ParseWord(s: Text, word: Text, v: Value): (r: Option<Parsed<Value>>)
    requires word != []
    ensures r.Some? ==> |r.value.rest| < |s|
  {
    if word <= s then Some(Parsed(v, s[|word|..])) else None
  }

  function ParseValue(s: Text): (r: Option<Parsed<Value>>)
    ensures r.Some? ==> |r.value.rest| < |s|
    decreases |s|, 1
  {
    if s == [] then None
    else if s[0] == 'n' as int then ParseWord(s, Units("null"), VNull)
    else if s[0] == 't' as int then ParseWord(s, Units("true"), VBool(true))
    else if s[0] == 'f' as int then ParseWord(s, Units("false"), VBool(false))
    else if s[0] == QUOTE then
      match ParseChars(s[1..])
      case Some(Parsed(t, rest)) => Some(Parsed(VStr(t), rest))
      case None => None
    else if s[0] == '[' as int then
      if |s| > 1 && s[1] == ']' as int then Some(Parsed(VArr([]), s[2..]))
      else
        match ParseItems(s[1..])
        case Some(Parsed(vs, rest)) => Some(Parsed(VArr(vs), rest))
        case None => None
    else if s[0] == '{' as int then
      if |s| > 1 && s[1] == '}' as int then Some(Parsed(VObj(map[]), s[2..]))
      else
        match ParseMembers(s[1..])
        case Some(Parsed(m, rest)) => Some(Parsed(VObj(m), rest))
        case None => None
    else
      match ParseInteger(s)
      case Some(Parsed(n, rest)) => Some(Parsed(VNum(n), rest))
      case None => None
  }

  /** Comma-separated values up to and with the closing bracket. */
  function ParseItems(s: Text): (r: Option<Parsed<seq<Value>>>)
    ensures r.Some? ==> |r.value.rest| < |s|
    decreases |s|, 2
  {
    match ParseValue(s)
    case None => None
    case Some(Parsed(v, rest)) =>
      if rest == [] then None
      else if rest[0] == ']' as int then Some(Parsed([v], rest[1..]))
      else if rest[0] == ',' as int then
        match ParseItems(rest[1..])
        case Some(Parsed(vs, rest')) => Some(Parsed([v] + vs, rest'))
        case None => None
      else None
  }

  /** One `"key":value`. */
  function ParseMember(s: Text): (r: Option<Parsed<(Text, Value)>>)
    ensures r.Some? ==> |r.value.rest| < |s|
    decreases |s|, 2
  {
    if s == [] || s[0] != QUOTE then None
    else
      match ParseChars(s[1..])
      case None => None
      case Some(Parsed(k, rest)) =>
        if rest == [] || rest[0] != ':' as int then None
        else
          match ParseValue(rest[1..])
          case Some(Parsed(v, rest')) => Some(Parsed((k, v), rest'))
          case None => None
  }

  function ParseMembers(s: Text): (r: Option<Parsed<map<Text, Value>>>)
    ensures r.Some? ==> |r.value.rest| < |s|
    decreases |s|, 3
  {
    match ParseMember(s)
    case None => None
    case Some(Parsed(kv, rest)) =>
      if rest == [] then None
      else if rest[0] == '}' as int then Some(Parsed(map[kv.0 := kv.1], rest[1..]))
      else if rest[0] == ',' as int then
        match ParseMembers(rest[1..])
        case Some(Parsed(m, rest')) => Some(Parsed(m[kv.0 := kv.1], rest'))
        case None => None
      else None
  }

  function Decode(s: Text): Option<Value> {
    match ParseValue(s)
    case Some(Parsed(v, rest)) => if rest == [] then Some(v) else None
    case None => None
  }
}
