/**
 The UTF-8 codec behind `Buffer.from(text)`, `buffer.toString("utf8")` and the byte
 form that is hashed. Encoding replaces a lone surrogate by U+FFFD; decoding replaces
 every maximal ill-formed subpart by U+FFFD.
 */
module Utf8 {
  import opened Texts

  type Byte = b: int | 0 <= b < 256
  type Bytes = seq<Byte>

  const REPLACEMENT: Unit := 0xFFFD

  predicate High(u: Unit) { 0xD800 <= u < 0xDC00 }

  predicate Low(u: Unit) { 0xDC00 <= u < 0xE000 }

  predicate StartsPair(s: Text) { |s| > 1 && High(s[0]) && Low(s[1]) }

  /** No surrogate stands alone. */
  predicate WellFormed(s: Text) {
    if s == [] then true
    else if StartsPair(s) then WellFormed(s[2..])
    else !High(s[0]) && !Low(s[0]) && WellFormed(s[1..])
  }

  /** The text with every lone surrogate replaced. */
  function Scrub(s: Text): (t: Text)
    ensures |t| == |s|
  {
    if s == [] then []
    else if StartsPair(s) then s[..2] + Scrub(s[2..])
    else ScrubUnit(s[0]) + Scrub(s[1..])
  }

  function ScrubUnit(u: Unit): (t: Text)
    ensures |t| == 1
  {
    [if High(u) || Low(u) then REPLACEMENT else u]
  }

  lemma {:induction false} ScrubOne(s: Text)
    requires s != [] && !StartsPair(s)
    ensures Scrub(s) == ScrubUnit(s[0]) + Scrub(s[1..])
  {
  }

  function EncodeUnit(u: Unit): Bytes {
    if u < 0x80 then [u]
    else if u < 0x800 then [0xC0 + u / 64, 0x80 + u % 64]
    else [0xE0 + u / 64 / 64, 0x80 + u / 64 % 64, 0x80 + u % 64]
  }

  function EncodePair(hi: Unit, lo: Unit): Bytes
    requires High(hi) && Low(lo)
  {
    var c := 0x1_0000 + (hi - 0xD800) * 0x400 + (lo - 0xDC00);
    [0xF0 + c / 64 / 64 / 64, 0x80 + c / 64 / 64 % 64, 0x80 + c / 64 % 64, 0x80 + c % 64]
  }

  function Encode(s: Text): Bytes {
    if s == [] then []
    else if StartsPair(s) then EncodePair(s[0], s[1]) + Encode(s[2..])
    else if High(s[0]) || Low(s[0]) then EncodeUnit(REPLACEMENT) + Encode(s[1..])
    else EncodeUnit(s[0]) + Encode(s[1..])
  }

  predicate Continuation(b: Byte) { 0x80 <= b < 0xC0 }

  /** The second byte a lead byte admits. */
  predicate SecondByte(lead: Byte, b: Byte) {
    (if lead == 0xE0 then 0xA0 else if lead == 0xF0 then 0x90 else 0x80) <= b
      <= (if lead == 0xED then 0x9F else if lead == 0xF4 then 0x8F else 0xBF)
  }

  function CodePoint(lead: int, b1: int, b2: int, b3: int): int {
    (lead - 0xF0) * 0x4_0000 + (b1 - 0x80) * 4096 + (b2 - 0x80) * 64 + (b3 - 0x80)
  }

  function Decode(bs: Bytes): Text {
    if bs == [] then []
    else
      var lead := bs[0];
      if lead < 0x80 then [lead] + Decode(bs[1..])
      else if 0xC2 <= lead < 0xE0 then
        if |bs| > 1 && Continuation(bs[1]) then
          [(lead - 0xC0) * 64 + (bs[1] - 0x80)] + Decode(bs[2..])
        else [REPLACEMENT] + Decode(bs[1..])
      else if 0xE0 <= lead < 0xF5 then
        if |bs| <= 1 || !SecondByte(lead, bs[1]) then [REPLACEMENT] + Decode(bs[1..])
        else if |bs| <= 2 || !Continuation(bs[2]) then [REPLACEMENT] + Decode(bs[2..])
        else if lead < 0xF0 then
          [(lead - 0xE0) * 4096 + (bs[1] - 0x80) * 64 + (bs[2] - 0x80)] + Decode(bs[3..])
        else if |bs| <= 3 || !Continuation(bs[3]) then [REPLACEMENT] + Decode(bs[3..])
        else
          var c := CodePoint(lead, bs[1], bs[2], bs[3]);
          [0xD800 + (c - 0x1_0000) / 0x400, 0xDC00 + (c - 0x1_0000) % 0x400] + Decode(bs[4..])
      else [REPLACEMENT] + Decode(bs[1..])
  }

  lemma {:induction false} DecodeUnit(u: Unit, rest: Bytes)
    requires !High(u) && !Low(u)
    ensures Decode(EncodeUnit(u) + rest) == [u] + Decode(rest)
  {
    var bs := EncodeUnit(u) + rest;
    assert bs[|EncodeUnit(u)|..] == rest;
  }

  lemma PairArithmetic(hi: Unit, lo: Unit)
    requires High(hi) && Low(lo)
    ensures var bs := EncodePair(hi, lo);
      && CodePoint(bs[0], bs[1], bs[2], bs[3]) == 0x1_0000 + (hi - 0xD800) * 0x400 + (lo - 0xDC00)
      && 0xF0 <= bs[0] < 0xF5 && SecondByte(bs[0], bs[1]) && Continuation(bs[2]) && Continuation(bs[3])
  {
  }

  lemma {:induction false} DecodePair(hi: Unit, lo: Unit, rest: Bytes)
    requires High(hi) && Low(lo)
    ensures Decode(EncodePair(hi, lo) + rest) == [hi, lo] + Decode(rest)
  {
    PairArithmetic(hi, lo);
    var head := EncodePair(hi, lo);
    var bs := head + rest;
    assert bs[0] == head[0] && bs[1] == head[1] && bs[2] == head[2] && bs[3] == head[3];
    assert bs[4..] == rest;
    var c := CodePoint(bs[0], bs[1], bs[2], bs[3]);
    assert Decode(bs) == [0xD800 + (c - 0x1_0000) / 0x400, 0xDC00 + (c - 0x1_0000) % 0x400] + Decode(rest);
    assert c - 0x1_0000 == (hi - 0xD800) * 0x400 + (lo - 0xDC00);
  }

  lemma {:induction false} DecodeEncode(s: Text)
    ensures Decode(Encode(s)) == Scrub(s)
  {
    if s == [] {
    } else if StartsPair(s) {
      DecodeEncode(s[2..]);
      DecodePair(s[0], s[1], Encode(s[2..]));
    } else {
      DecodeEncode(s[1..]);
      DecodeUnit(if High(s[0]) || Low(s[0]) then REPLACEMENT else s[0], Encode(s[1..]));
    }
  }

  lemma {:induction false} ScrubPair(s: Text)
    requires StartsPair(s)
    ensures Scrub(s) == s[..2] + Scrub(s[2..])
  {
  }

  lemma {:induction false} PairFirst(s: Text, t: Text)
    requires StartsPair(s) && Scrub(s[2..] + t) == Scrub(s[2..]) + Scrub(t)
    ensures Scrub(s + t) == Scrub(s) + Scrub(t)
  {
    assert StartsPair(s + t) && (s + t)[2..] == s[2..] + t && (s + t)[..2] == s[..2];
    ScrubPair(s + t);
    ScrubPair(s);
    hide *;
    Assoc(s[..2], Scrub(s[2..]), Scrub(t));
  }

  lemma NoPairAcross(s: Text, t: Text)
    requires s != [] && !StartsPair(s) && t != [] && !Low(t[0])
    ensures !StartsPair(s + t) && (s + t)[0] == s[0] && (s + t)[1..] == s[1..] + t
  {
  }

  lemma {:induction false} OneFirst(s: Text, t: Text)
    requires s != [] && !StartsPair(s) && t != [] && !Low(t[0])
    requires Scrub(s[1..] + t) == Scrub(s[1..]) + Scrub(t)
    ensures Scrub(s + t) == Scrub(s) + Scrub(t)
  {
    hide *;
    NoPairAcross(s, t);
    ScrubOne(s + t);
    ScrubOne(s);
    Assoc(ScrubUnit(s[0]), Scrub(s[1..]), Scrub(t));
  }

  /** Scrubbing works piecewise wherever the cut does not split a surrogate pair. */
  lemma {:induction false} ScrubConcat(s: Text, t: Text)
    requires t != [] && !Low(t[0])
    ensures Scrub(s + t) == Scrub(s) + Scrub(t)
  {
    if s == [] {
      assert s + t == t;
    } else if StartsPair(s) {
      ScrubConcat(s[2..], t);
      PairFirst(s, t);
    } else {
      ScrubConcat(s[1..], t);
      OneFirst(s, t);
    }
  }

  /** Scrubbing changes a text exactly when a surrogate stands alone in it. */
  lemma {:induction false} ScrubFixed(s: Text)
    ensures Scrub(s) == s <==> WellFormed(s)
  {
    if s == [] {
    } else if StartsPair(s) {
      ScrubFixed(s[2..]);
      assert s == s[..2] + s[2..];
      assert Scrub(s)[2..] == Scrub(s[2..]);
    } else {
      ScrubFixed(s[1..]);
      assert s == [s[0]] + s[1..];
      assert Scrub(s)[0] == (if High(s[0]) || Low(s[0]) then REPLACEMENT else s[0]);
      assert Scrub(s)[1..] == Scrub(s[1..]);
    }
  }

  /** UTF-8 is injective on well-formed text, so hashing bytes is hashing text. */
  lemma {:induction false} EncodeInjective(s: Text, t: Text)
    requires WellFormed(s) && WellFormed(t)
    ensures Encode(s) == Encode(t) <==> s == t
  {
    DecodeEncode(s);
    DecodeEncode(t);
    ScrubFixed(s);
    ScrubFixed(t);
  }
}
