/**
 Base64 of RFC 4648: the padded alphabet of section 4 and the unpadded URL alphabet of
 section 5, as Node prints them, and Node's decoder, which reads both alphabets and skips
 every other character.
 */
module Base64 {
  import opened Texts
  import opened Utf8

  type Sextet = d: int | 0 <= d < 64

  function StandardDigit(d: Sextet): Unit {
    if d < 26 then 'A' as int + d
    else if d < 52 then 'a' as int + (d - 26)
    else if d < 62 then '0' as int + (d - 52)
    else if d == 62 then '+' as int
    else '/' as int
  }

  function UrlDigit(d: Sextet): Unit {
    if d == 62 then '-' as int else if d == 63 then '_' as int else StandardDigit(d)
  }

  function DigitValue(u: Unit): Option<Sextet> {
    if 'A' as int <= u <= 'Z' as int then Some(u - 'A' as int)
    else if 'a' as int <= u <= 'z' as int then Some(u - 'a' as int + 26)
    else if '0' as int <= u <= '9' as int then Some(u - '0' as int + 52)
    else if u == '+' as int || u == '-' as int then Some(62)
    else if u == '/' as int || u == '_' as int then Some(63)
    else None
  }

  /** Bytes regrouped into six-bit digits, the last one padded with zero bits. */
  function Sextets(bs: Bytes): seq<Sextet> {
    if bs == [] then []
    else if |bs| == 1 then [bs[0] / 4, bs[0] % 4 * 16]
    else if |bs| == 2 then [bs[0] / 4, bs[0] % 4 * 16 + bs[1] / 16, bs[1] % 16 * 4]
    else
      [bs[0] / 4, bs[0] % 4 * 16 + bs[1] / 16, bs[1] % 16 * 4 + bs[2] / 64, bs[2] % 64] + Sextets(bs[3..])
  }

  // The three bytes four digits carry.
  function FirstOctet(a: int, b: int): int { a * 4 + b / 16 }
  function SecondOctet(b: int, c: int): int { b % 16 * 16 + c / 4 }
  function ThirdOctet(c: int, d: int): int { c % 4 * 64 + d }

  /** The inverse regrouping; a lone trailing digit carries no byte. */
  function Octets(ds: seq<Sextet>): Bytes {
    if |ds| <= 1 then []
    else if |ds| == 2 then [FirstOctet(ds[0], ds[1])]
    else if |ds| == 3 then [FirstOctet(ds[0], ds[1]), SecondOctet(ds[1], ds[2])]
    else
      [FirstOctet(ds[0], ds[1]), SecondOctet(ds[1], ds[2]), ThirdOctet(ds[2], ds[3])] + Octets(ds[4..])
  }

  function Digits(ds: seq<Sextet>, url: bool): (t: Text)
    ensures |t| == |ds|
    ensures forall i | 0 <= i < |t| :: t[i] == if url then UrlDigit(ds[i]) else StandardDigit(ds[i])
  {
    seq(|ds|, i requires 0 <= i < |ds| => if url then UrlDigit(ds[i]) else StandardDigit(ds[i]))
  }

  function Padding(n: nat): Text {
    if n % 3 == 0 then [] else if n % 3 == 1 then ['=' as int, '=' as int] else ['=' as int]
  }

  /** `buffer.toString("base64")`. */
  function Print(bs: Bytes): Text { Digits(Sextets(bs), false) + Padding(|bs|) }

  /** `buffer.toString("base64url")`. */
  function PrintUrl(bs: Bytes): Text { Digits(Sextets(bs), true) }

  function Readable(t: Text): seq<Sextet> {
    if t == [] then []
    else
      match DigitValue(t[0])
      case Some(d) => [d] + Readable(t[1..])
      case None => Readable(t[1..])
  }

  /** `Buffer.from(text, "base64")` and `Buffer.from(text, "base64url")`. */
  function Parse(t: Text): Bytes { Octets(Readable(t)) }

  lemma Regroup(a: Byte, b: Byte, c: Byte)
    ensures FirstOctet(a / 4, a % 4 * 16 + b / 16) == a
    ensures SecondOctet(a % 4 * 16 + b / 16, b % 16 * 4 + c / 64) == b
    ensures ThirdOctet(b % 16 * 4 + c / 64, c % 64) == c
  {
  }

  lemma {:induction false} OctetsSextets(bs: Bytes)
    ensures Octets(Sextets(bs)) == bs
  {
    if |bs| >= 3 {
      OctetsSextets(bs[3..]);
      Regroup(bs[0], bs[1], bs[2]);
      var ds := Sextets(bs);
      assert ds[4..] == Sextets(bs[3..]);
      assert Octets(ds) == [bs[0], bs[1], bs[2]] + bs[3..];
    } else if |bs| == 2 {
      Regroup(bs[0], bs[1], 0);
    } else if |bs| == 1 {
      Regroup(bs[0], 0, 0);
    }
  }

  lemma {:induction false} ReadableDigits(ds: seq<Sextet>, url: bool, pad: Text)
    requires forall i | 0 <= i < |pad| :: DigitValue(pad[i]).None?
    ensures Readable(Digits(ds, url) + pad) == ds
  {
    var t := Digits(ds, url) + pad;
    if ds != [] {
      ReadableDigits(ds[1..], url, pad);
      assert t[1..] == Digits(ds[1..], url) + pad;
    } else if pad != [] {
      assert Digits([], url) + pad[1..] == pad[1..] == t[1..];
      ReadableDigits([], url, pad[1..]);
    }
  }

  lemma RoundTrip(bs: Bytes)
    ensures Parse(Print(bs)) == bs
    ensures Parse(PrintUrl(bs)) == bs
  {
    OctetsSextets(bs);
    ReadableDigits(Sextets(bs), false, Padding(|bs|));
    ReadableDigits(Sextets(bs), true, []);
    assert PrintUrl(bs) + [] == PrintUrl(bs);
  }

  /** What a printed text is made of, and that it is empty only for no bytes. */
  lemma PrintedUnits(bs: Bytes)
    ensures forall i | 0 <= i < |Print(bs)| :: DigitValue(Print(bs)[i]).Some? || Print(bs)[i] == '=' as int
    ensures forall i | 0 <= i < |PrintUrl(bs)| :: DigitValue(PrintUrl(bs)[i]).Some?
    ensures bs != [] ==> Print(bs) != [] && PrintUrl(bs) != []
  {
  }
}
