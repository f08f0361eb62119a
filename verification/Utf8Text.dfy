/**
 UTF-8 as the Unicode standard describes it: which bytes a scalar value has, and what any
 sequence of bytes, well-formed or not, is read as.
 */
module Utf8Text {
  import opened Texts
  import opened TextFacts
  import opened Utf8

  /** The code units of one scalar value. */
  predicate Scalar(t: Text) {
    || (|t| == 1 && !(0xD800 <= t[0] <= 0xDFFF))
    || (|t| == 2 && 0xD800 <= t[0] <= 0xDBFF && 0xDC00 <= t[1] <= 0xDFFF)
  }

  function ValueOf(t: Text): nat
    requires Scalar(t)
  {
    if |t| == 1 then t[0] else 65536 + (t[0] as int - 0xD800) * 1024 + (t[1] as int - 0xDC00)
  }

  /** Six bits to a byte after the first. */
  lemma {:induction false} EncodeExactly(t: Text)
    requires Scalar(t)
    ensures var c := ValueOf(t);
      Encode(t) ==
        if c < 128 then [c]
        else if c < 2048 then [192 + c / 64, 128 + c % 64]
        else if c < 65536 then [224 + c / 4096, 128 + c / 64 % 64, 128 + c % 64]
        else [240 + c / 262144, 128 + c / 4096 % 64, 128 + c / 64 % 64, 128 + c % 64]
  {
    var c := ValueOf(t);
    assert Encode([]) == [];
    if |t| == 1 {
      assert c / 64 / 64 == c / 4096;
      assert Encode(t) == EncodeUnit(t[0]) + Encode(t[1..]);
    } else {
      assert c / 64 / 64 == c / 4096 && c / 64 / 64 / 64 == c / 262144;
      assert Encode(t) == EncodePair(t[0], t[1]) + Encode(t[2..]);
    }
  }

  predicate Tail(b: int) { 128 <= b <= 191 }

  /** The second bytes of a three-byte form: none too short, and no surrogate. */
  predicate ThreeHead(a: int, b: int) {
    224 <= a <= 239 && (if a == 224 then 160 else 128) <= b <= (if a == 237 then 159 else 191)
  }

  /** Those of a four-byte form: none too short, and none above U+10FFFF. */
  predicate FourHead(a: int, b: int) {
    240 <= a <= 244 && (if a == 240 then 144 else 128) <= b <= (if a == 244 then 143 else 191)
  }

  predicate Form(e: Bytes) {
    || (|e| == 1 && e[0] < 128)
    || (|e| == 2 && 194 <= e[0] <= 223 && Tail(e[1]))
    || (|e| == 3 && ThreeHead(e[0], e[1]) && Tail(e[2]))
    || (|e| == 4 && FourHead(e[0], e[1]) && Tail(e[2]) && Tail(e[3]))
  }

  lemma {:induction false} EncodedForm(t: Text)
    requires Scalar(t)
    ensures Form(Encode(t))
  {
    EncodeExactly(t);
    var c := ValueOf(t);
    if c >= 65536 {
      assert c <= 1114111;
    } else if c >= 2048 {
      assert c < 55296 || c > 57343;
    }
  }

  lemma FormEncoded(e: Bytes) returns (t: Text)
    requires Form(e)
    ensures Scalar(t) && Encode(t) == e
  {
    hide Encode;
    if |e| == 1 {
      t := [e[0]];
      EncodeExactly(t);
    } else if |e| == 2 {
      t := FormTwo(e[0], e[1]);
    } else if |e| == 3 {
      t := FormThree(e[0], e[1], e[2]);
    } else {
      t := FormFour(e[0], e[1], e[2], e[3]);
    }
  }

  lemma FormTwo(a: Byte, b: Byte) returns (t: Text)
    requires 194 <= a <= 223 && Tail(b)
    ensures Scalar(t) && Encode(t) == [a, b]
  {
    hide Encode;
    SixBits(a as int - 192, b as int - 128);
    t := [64 * (a as int - 192) + (b as int - 128)];
    EncodeExactly(t);
  }

  lemma FormThree(a: Byte, b: Byte, x: Byte) returns (t: Text)
    requires ThreeHead(a, b) && Tail(x)
    ensures Scalar(t) && Encode(t) == [a, b, x]
  {
    hide Encode;
    ThreeValue(a, b, x);
    t := [(a as int - 224) * 4096 + (b as int - 128) * 64 + (x as int - 128)];
    EncodeExactly(t);
  }

  lemma FormFour(a: Byte, b: Byte, x: Byte, y: Byte) returns (t: Text)
    requires FourHead(a, b) && Tail(x) && Tail(y)
    ensures Scalar(t) && Encode(t) == [a, b, x, y]
  {
    hide Encode;
    var c := (a as int - 240) * 262144 + (b as int - 128) * 4096 + (x as int - 128) * 64 + (y as int - 128);
    FourValue(a, b, x, y);
    t := [0xD800 + (c - 65536) / 1024, 0xDC00 + (c - 65536) % 1024];
    assert ValueOf(t) == c;
    EncodeExactly(t);
  }

  lemma ThreeValue(a: int, b: int, x: int)
    requires ThreeHead(a, b) && Tail(x)
    ensures var c := (a - 224) * 4096 + (b - 128) * 64 + (x - 128);
      && 2048 <= c < 65536 && !(0xD800 <= c <= 0xDFFF)
      && c / 4096 == a - 224 && c / 64 % 64 == b - 128 && c % 64 == x - 128
  {
    var k := 64 * (a - 224) + (b - 128);
    SixBits(a - 224, b - 128);
    SixBits(k, x - 128);
    var c := 64 * k + (x - 128);
    assert c / 4096 == c / 64 / 64;
  }

  lemma FourValue(a: int, b: int, x: int, y: int)
    requires FourHead(a, b) && Tail(x) && Tail(y)
    ensures var c := (a - 240) * 262144 + (b - 128) * 4096 + (x - 128) * 64 + (y - 128);
      && 65536 <= c <= 1114111
      && c / 262144 == a - 240 && c / 4096 % 64 == b - 128 && c / 64 % 64 == x - 128 && c % 64 == y - 128
  {
    var k1 := 64 * (a - 240) + (b - 128);
    var k2 := 64 * k1 + (x - 128);
    var c := 64 * k2 + (y - 128);
    SixBits(a - 240, b - 128);
    SixBits(k1, x - 128);
    SixBits(k2, y - 128);
    assert c / 4096 == c / 64 / 64 && c / 262144 == c / 4096 / 64;
  }

  /** The bytes begin the form of some scalar value. */
  ghost predicate Begins(p: Bytes) { exists t :: Scalar(t) && p <= Encode(t) }

  /** The first n bytes are the longest beginning of a form, or one byte that begins none. */
  ghost predicate Subpart(bs: Bytes, n: nat) {
    1 <= n <= |bs| && (n == 1 || Begins(bs[..n])) && (n < |bs| ==> !Begins(bs[..n + 1]))
  }

  lemma BeginsForm(p: Bytes, e: Bytes)
    requires Form(e) && p <= e
    ensures Begins(p)
  {
    var t := FormEncoded(e);
  }

  /** What a beginning of two or more bytes looks like. */
  lemma BeginsExactly(p: Bytes)
    requires Begins(p)
    ensures |p| <= 4
    ensures |p| == 2 ==> Form(p) || ThreeHead(p[0], p[1]) || FourHead(p[0], p[1])
    ensures |p| == 3 ==> Form(p) || (FourHead(p[0], p[1]) && Tail(p[2]))
    ensures |p| == 4 ==> Form(p)
  {
    var t :| Scalar(t) && p <= Encode(t);
    EncodedForm(t);
    var e := Encode(t);
    hide Encode, Scalar;
    assert forall i | 0 <= i < |p| :: p[i] == e[i];
  }

  lemma {:induction false} EncodeScalar(t: Text)
    requires Scalar(t)
    ensures Encode(t) == if |t| == 1 then EncodeUnit(t[0]) else EncodePair(t[0], t[1])
  {
    var none: Text := [];
    assert Encode(none) == [];
    if |t| == 1 { assert t[1..] == none; } else { assert t[2..] == none; }
  }

  /** A form at the front is read as its scalar value. */
  lemma {:induction false} DecodesForm(bs: Bytes, t: Text)
    requires Scalar(t) && Encode(t) <= bs
    ensures Decode(bs) == t + Decode(bs[|Encode(t)|..])
  {
    var rest := bs[|Encode(t)|..];
    assert bs == Encode(t) + rest;
    EncodeScalar(t);
    if |t| == 1 { DecodeUnit(t[0], rest); } else { DecodePair(t[0], t[1], rest); }
    hide Encode, Decode, EncodeUnit, EncodePair;
    assert t == if |t| == 1 then [t[0]] else [t[0], t[1]];
  }

  /** How many bytes one replacement stands for. */
  function BadLength(bs: Bytes): nat
    requires bs != []
  {
    if |bs| > 1 && (ThreeHead(bs[0], bs[1]) || FourHead(bs[0], bs[1])) then
      if |bs| > 2 && FourHead(bs[0], bs[1]) && Tail(bs[2]) then 3 else 2
    else 1
  }

  /** No form at the front, byte by byte. */
  predicate Formless(bs: Bytes)
    requires bs != []
  {
    && bs[0] >= 128
    && (|bs| > 1 ==> !(194 <= bs[0] <= 223 && Tail(bs[1])))
    && (|bs| > 2 ==> !(ThreeHead(bs[0], bs[1]) && Tail(bs[2])))
    && (|bs| > 3 ==> !(FourHead(bs[0], bs[1]) && Tail(bs[2]) && Tail(bs[3])))
  }

  lemma NoForm(bs: Bytes)
    requires bs != [] && forall n | 1 <= n <= 4 && n <= |bs| :: !Form(bs[..n])
    ensures Formless(bs)
  {
    assert !Form(bs[..1]);
    assert |bs| > 1 ==> !Form(bs[..2]);
    assert |bs| > 2 ==> !Form(bs[..3]);
    assert |bs| > 3 ==> !Form(bs[..4]);
  }

  lemma {:induction false} DecodesBad(bs: Bytes)
    requires bs != [] && Formless(bs)
    ensures Decode(bs) == [0xFFFD] + Decode(bs[BadLength(bs)..])
  {
  }

  lemma BadSubpart(bs: Bytes)
    requires bs != [] && Formless(bs)
    ensures Subpart(bs, BadLength(bs))
  {
    var n := BadLength(bs);
    if n == 2 {
      BeginsForm(bs[..2], if ThreeHead(bs[0], bs[1]) then [bs[0], bs[1], 128] else [bs[0], bs[1], 128, 128]);
    } else if n == 3 {
      BeginsForm(bs[..3], [bs[0], bs[1], bs[2], 128]);
    }
    if n < |bs| && Begins(bs[..n + 1]) { BeginsExactly(bs[..n + 1]); }
  }

  /**
   Any bytes are read as the Unicode standard recommends: a form at the front as its scalar
   value, otherwise its longest beginning, or the one byte that begins none, as U+FFFD.
   */
  lemma {:induction false} DecodeExactly(bs: Bytes)
    requires bs != []
    ensures forall t | Scalar(t) && Encode(t) <= bs :: Decode(bs) == t + Decode(bs[|Encode(t)|..])
    ensures (forall t | Scalar(t) :: !(Encode(t) <= bs)) ==>
      exists n: nat :: Subpart(bs, n) && Decode(bs) == [0xFFFD] + Decode(bs[n..])
  {
    forall t | Scalar(t) && Encode(t) <= bs ensures Decode(bs) == t + Decode(bs[|Encode(t)|..]) { DecodesForm(bs, t); }
    if forall t | Scalar(t) :: !(Encode(t) <= bs) {
      forall n | 1 <= n <= 4 && n <= |bs| ensures !Form(bs[..n]) {
        if Form(bs[..n]) { var t := FormEncoded(bs[..n]); }
      }
      NoForm(bs);
      DecodesBad(bs);
      BadSubpart(bs);
    }
  }
}
