/**
 What the printed text looks like, beyond what it means: keys in code-unit order, the escapes of
 `JSON.stringify`, and numbers without leading zeros.
 */
module JsonText {
  import opened Texts
  import opened Utf8
  import opened Json
  import opened JsonDecoding

  // ---- key order ----

  /** a sorts before b: at the first place where they differ a ends, or has the smaller code unit. */
  ghost predicate Before(a: Text, b: Text) { exists n: nat :: DiffersAt(a, b, n) }

  predicate DiffersAt(a: Text, b: Text, n: nat) {
    && n <= |a| && n < |b| && a[..n] == b[..n]
    && (n == |a| || a[n] < b[n])
  }

  lemma {:induction false} LessDiffers(a: Text, b: Text)
    requires Less(a, b)
    ensures Before(a, b)
  {
    if a == [] || a[0] != b[0] {
      assert DiffersAt(a, b, 0);
    } else {
      LessDiffers(a[1..], b[1..]);
      var n: nat :| DiffersAt(a[1..], b[1..], n);
      assert a[..n + 1] == [a[0]] + a[1..][..n] && b[..n + 1] == [b[0]] + b[1..][..n];
      assert DiffersAt(a, b, n + 1);
    }
  }

  /** The keys of an object's text, in the order they stand there, up to and with the closing brace. */
  function ReadKeys(s: Text): (r: Option<Parsed<seq<Text>>>)
    ensures r.Some? ==> |r.value.rest| < |s|
    decreases |s|
  {
    match ParseMember(s)
    case None => None
    case Some(Parsed(kv, rest)) =>
      if rest == [] then None
      else if rest[0] == '}' as int then Some(Parsed([kv.0], rest[1..]))
      else if rest[0] == ',' as int then
        match ReadKeys(rest[1..])
        case Some(Parsed(ks, rest')) => Some(Parsed([kv.0] + ks, rest'))
        case None => None
      else None
  }

  function KeysOf(s: Text): Option<seq<Text>> {
    if s == Units("{}") then Some([])
    else if s == [] || s[0] != '{' as int then None
    else
      match ReadKeys(s[1..])
      case Some(Parsed(ks, rest)) => if rest == [] then Some(ks) else None
      case None => None
  }

  lemma ReadLastKey(first: Text, k: Text, v: Value, rest: Text)
    requires ParseMember(first + (['}' as int] + rest)) == Some(Parsed((k, v), ['}' as int] + rest))
    ensures ReadKeys(first + (['}' as int] + rest)) == Some(Parsed([k], rest))
  {
    DropPrefix(['}' as int], rest);
  }

  lemma ReadNextKey(first: Text, k: Text, v: Value, tail: Text, ks: seq<Text>, rest: Text)
    requires ParseMember(first + ([',' as int] + tail)) == Some(Parsed((k, v), [',' as int] + tail))
    requires ReadKeys(tail) == Some(Parsed(ks, rest))
    ensures ReadKeys(first + ([',' as int] + tail)) == Some(Parsed([k] + ks, rest))
  {
    DropPrefix([',' as int], tail);
  }

  lemma {:induction false} ReadPrintedKeys(ks: seq<Text>, fs: seq<Field>, rest: Text)
    requires |ks| > 0
    requires forall i | 0 <= i < |ks| :: ks[i] in DefinedKeys(fs)
    requires forall i | 0 <= i < |fs| :: Valid(fs[i].value)
    ensures ReadKeys(Members(ks, fs) + (['}' as int] + rest)) == Some(Parsed(ks, rest))
    decreases |ks|
  {
    var first, close := Member(ks[0], fs), ['}' as int] + rest;
    var v := Meaning(fs[IndexOf(fs, ks[0])].value);
    MembersUnfold(ks, fs, close);
    if |ks| == 1 {
      ParsePrintedMember(ks[0], fs, close);
      ReadLastKey(first, ks[0], v, rest);
      assert ks == [ks[0]];
    } else {
      var tail := Members(ks[1..], fs) + close;
      ParsePrintedMember(ks[0], fs, [',' as int] + tail);
      ReadPrintedKeys(ks[1..], fs, rest);
      ReadNextKey(first, ks[0], v, tail, ks[1..], rest);
      assert ks == [ks[0]] + ks[1..];
    }
  }

  /** Every object prints its defined keys, each once, in ascending code-unit order. */
  lemma {:induction false} PrintedKeyOrder(fs: seq<Field>) returns (ks: seq<Text>)
    requires Valid(Obj(fs))
    ensures KeysOf(CanonicalJson(Obj(fs))) == Some(ks)
    ensures forall k :: k in ks <==> exists i :: 0 <= i < |fs| && fs[i].key == k && !fs[i].value.Undefined?
    ensures forall i, j | 0 <= i < j < |ks| :: Before(ks[i], ks[j])
  {
    ks := SortedKeys(fs);
    var body := Members(ks, fs);
    assert CanonicalJson(Obj(fs)) == ['{' as int] + body + ['}' as int];
    hide Sort, Before, DefinedKeys, CanonicalJson, KeysOf;
    if ks != [] {
      ReadPrintedKeys(ks, fs, []);
      FirstOfMembers(ks, fs, ['}' as int]);
    }
    assert ks == [] ==> body == [];
    hide Members;
    KeysInBraces(body, ks);
  }

  lemma KeysInBraces(body: Text, ks: seq<Text>)
    requires ks == [] ==> body == []
    requires ks != [] ==>
      (body != [] && (body + ['}' as int])[0] == QUOTE
       && ReadKeys(body + (['}' as int] + [])) == Some(Parsed(ks, [])))
    ensures KeysOf(['{' as int] + body + ['}' as int]) == Some(ks)
  {
    hide ReadKeys;
    var s := ['{' as int] + body + ['}' as int];
    if ks == [] {
      assert s == Units("{}");
    } else {
      assert s[1..] == body + (['}' as int] + []);
      assert s[1] == (body + ['}' as int])[0];
    }
  }

  lemma {:induction false} SortedKeys(fs: seq<Field>) returns (ks: seq<Text>)
    requires UniqueKeys(fs)
    ensures ks == Sort(DefinedKeys(fs))
    ensures forall k :: k in ks <==> exists i :: 0 <= i < |fs| && fs[i].key == k && !fs[i].value.Undefined?
    ensures forall i, j | 0 <= i < j < |ks| :: Before(ks[i], ks[j])
  {
    ks := Sort(DefinedKeys(fs));
    DefinedKeysDistinct(fs);
    SortAscending(DefinedKeys(fs));
    hide Before;
    forall i, j | 0 <= i < j < |ks| ensures Before(ks[i], ks[j]) { LessDiffers(ks[i], ks[j]); }
    forall k ensures k in ks <==> exists i :: 0 <= i < |fs| && fs[i].key == k && !fs[i].value.Undefined? {
      DefinedKeysFrom(fs, k);
    }
  }

  // ---- escapes ----

  /** How `JSON.stringify` writes one code unit that is not half of a surrogate pair. */
  predicate Written(u: Unit, t: Text) {
    if u == 0x22 then t == Units("\\\"")
    else if u == 0x5C then t == Units("\\\\")
    else if u == 0x08 then t == Units("\\b")
    else if u == 0x09 then t == Units("\\t")
    else if u == 0x0A then t == Units("\\n")
    else if u == 0x0C then t == Units("\\f")
    else if u == 0x0D then t == Units("\\r")
    else if u < 0x20 || 0xD800 <= u <= 0xDFFF then
      var digits := Units("0123456789abcdef");
      t == Units("\\u") + [digits[u / 4096], digits[u / 256 % 16], digits[u / 16 % 16], digits[u % 16]]
    else t == [u]
  }

  predicate PairAt(s: Text, i: nat) { i + 1 < |s| && 0xD800 <= s[i] <= 0xDBFF && 0xDC00 <= s[i + 1] <= 0xDFFF }

  /** The pieces of a string literal: whole pairs as they are, every other unit on its own. */
  ghost predicate Pieces(s: Text, ps: seq<Text>)
    decreases |s|
  {
    if s == [] then ps == []
    else if ps == [] then false
    else if PairAt(s, 0) then ps[0] == s[..2] && Pieces(s[2..], ps[1..])
    else Written(s[0], ps[0]) && Pieces(s[1..], ps[1..])
  }

  function Flat(ps: seq<Text>): Text { if ps == [] then [] else ps[0] + Flat(ps[1..]) }

  lemma HexDigitText(d: nat)
    requires d < 16
    ensures HexDigit(d) == Units("0123456789abcdef")[d]
  {
  }

  lemma EscapeWritten(u: Unit)
    ensures Written(u, EscapeUnit(u))
  {
    Hex4Written(u);
    assert Units("\\u") == [BACKSLASH, 'u' as int];
    hide Hex4;
  }

  lemma Hex4Written(u: Unit)
    ensures var digits := Units("0123456789abcdef");
      Hex4(u) == [digits[u / 4096], digits[u / 256 % 16], digits[u / 16 % 16], digits[u % 16]]
  {
    assert u / 16 / 16 / 16 == u / 4096 && u / 16 / 16 % 16 == u / 256 % 16;
    hide HexDigit;
    HexDigitText(u / 4096);
    HexDigitText(u / 256 % 16);
    HexDigitText(u / 16 % 16);
    HexDigitText(u % 16);
  }

  /** A printed string is its pieces between two quotes. */
  lemma {:induction false} QuotePieces(s: Text) returns (ps: seq<Text>)
    ensures Pieces(s, ps) && Quote(s) == Units("\"") + Flat(ps) + Units("\"")
  {
    ps := EscapePieces(s);
    assert Units("\"") == [QUOTE];
  }

  lemma {:induction false} EscapePieces(s: Text) returns (ps: seq<Text>)
    ensures Pieces(s, ps) && Escape(s) == Flat(ps)
    decreases |s|
  {
    if s == [] {
      ps := [];
    } else if StartsPair(s) {
      var rest := EscapePieces(s[2..]);
      ps := [s[..2]] + rest;
      assert ps[1..] == rest;
    } else {
      EscapeWritten(s[0]);
      hide EscapeUnit, Written;
      var rest := EscapePieces(s[1..]);
      ps := [EscapeUnit(s[0])] + rest;
      assert ps[1..] == rest;
    }
  }

  // ---- numbers ----

  /** A number prints its digits without a leading zero, after a sign if it is negative. */
  lemma {:induction false} IntegerWritten(n: int)
    ensures CanonicalJson(Num(n)) == Units(if n < 0 then "-" else "") + Decimal(if n < 0 then -n else n)
  {
    assert Units("-") == ['-' as int] && Units("") == [];
  }

  lemma {:induction false} DecimalWritten(n: nat)
    ensures forall i | 0 <= i < |Decimal(n)| :: Units("0")[0] <= Decimal(n)[i] <= Units("9")[0]
    ensures n > 0 ==> Decimal(n)[0] != Units("0")[0]
    ensures n == 0 ==> Decimal(n) == Units("0")
    ensures DecimalValue(Decimal(n)) == n
  {
    DecimalRoundTrip(n);
    if n < 10 {
    } else {
      DecimalWritten(n / 10);
    }
  }
}
