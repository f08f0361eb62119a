/** What base64 text is made of, letter by letter. */
module Base64Text {
  import opened Texts
  import opened TextFacts
  import opened Utf8
  import opened Base64

  function Capitals(): Text { Units("ABCDEFGHIJKLM") + Units("NOPQRSTUVWXYZ") }

  function Smalls(): Text { Units("abcdefghijklm") + Units("nopqrstuvwxyz") }

  function Others(url: bool): Text { Units("0123456789") + Units(if url then "-_" else "+/") }

  /** The 64 letters of section 4 of RFC 4648, or of section 5. */
  function Letters(url: bool): Text { Capitals() + Smalls() + Others(url) }

  lemma Lengths(url: bool)
    ensures |Capitals()| == 26 && |Smalls()| == 26 && |Others(url)| == 12 && |Letters(url)| == 64
  {
  }

  function Letter(url: bool, v: nat): Unit {
    Lengths(url);
    Letters(url)[v % 64]
  }

  lemma LetterAt(url: bool, d: Sextet)
    ensures |Capitals()| == 26 && |Smalls()| == 26 && |Others(url)| == 12
    ensures Letter(url, d) == if d < 26 then Capitals()[d] else if d < 52 then Smalls()[d - 26] else Others(url)[d - 52]
  {
    Lengths(url);
    hide Capitals, Smalls, Others;
  }

  lemma LettersExactly(d: Sextet)
    ensures StandardDigit(d) == Letter(false, d)
    ensures UrlDigit(d) == Letter(true, d)
  {
    hide Capitals, Smalls, Others, Letter;
    LetterAt(false, d);
    LetterAt(true, d);
    if d < 26 {
      CapitalLetter(d);
    } else if d < 52 {
      SmallLetter(d - 26);
    } else {
      LastLetter(false, d - 52);
      LastLetter(true, d - 52);
    }
  }

  lemma CapitalLetter(d: nat)
    requires d < 26
    ensures Capitals()[d] == 65 + d
  {
    var a, b := Units("ABCDEFGHIJKLM"), Units("NOPQRSTUVWXYZ");
    assert Capitals()[d] == if d < 13 then a[d] else b[d - 13];
  }

  lemma SmallLetter(d: nat)
    requires d < 26
    ensures Smalls()[d] == 97 + d
  {
    var a, b := Units("abcdefghijklm"), Units("nopqrstuvwxyz");
    assert Smalls()[d] == if d < 13 then a[d] else b[d - 13];
  }

  lemma LastLetter(url: bool, d: nat)
    requires d < 12
    ensures Others(url)[d] == if d < 10 then 48 + d else if d == 10 then (if url then 45 else 43)
                              else if url then 95 else 47
  {
    var a, b := Units("0123456789"), Units(if url then "-_" else "+/");
    assert Others(url)[d] == if d < 10 then a[d] else b[d - 10];
  }

  /** A letter is read as its place in either alphabet; no other unit is read. */
  lemma DigitExactly(u: Unit, d: Sextet)
    ensures DigitValue(u) == Some(d) <==> Letter(false, d) == u || Letter(true, d) == u
  {
    LettersExactly(d);
    hide Letter;
  }

  /** Three bytes as one number, missing ones as zero. */
  function Group(bs: Bytes): nat
    requires bs != []
  {
    bs[0] as int * 65536 + (if |bs| > 1 then bs[1] as int * 256 else 0) + (if |bs| > 2 then bs[2] as int else 0)
  }

  /** In either alphabet. */
  function Printed(bs: Bytes, url: bool): Text { if url then PrintUrl(bs) else Print(bs) }

  lemma {:induction false} PrintedDigits(bs: Bytes, url: bool)
    ensures Printed(bs, url) == Digits(Sextets(bs), url) + (if url then [] else Padding(|bs|))
  {
    hide Digits, Sextets, Padding;
  }

  lemma PaddingThree(n: nat)
    ensures Padding(n + 3) == Padding(n)
  {
  }

  /** Every three bytes print as the four letters of their number. */
  lemma {:induction false} PrintMore(bs: Bytes, url: bool)
    requires |bs| > 2
    ensures var n := Group(bs);
      Printed(bs, url) == [Letter(url, n / 262144), Letter(url, n / 4096), Letter(url, n / 64), Letter(url, n)]
                          + Printed(bs[3..], url)
  {
    hide Group, Letter, Sextets, Padding, Printed, Digits;
    var n, ds := Group(bs), Sextets(bs);
    PrintedDigits(bs, url);
    PrintedDigits(bs[3..], url);
    MoreSextets(bs);
    PaddingThree(|bs[3..]|);
    DigitsCut(ds, 4, url);
    FourLetters(n, url, ds[..4]);
    var head := [Letter(url, n / 262144), Letter(url, n / 4096), Letter(url, n / 64), Letter(url, n)];
    Assoc(head, Digits(ds[4..], url), if url then [] else Padding(|bs|));
  }

  /** Two bytes print as three letters and one byte as two, padded to four except in the URL form. */
  lemma {:induction false} PrintTwo(bs: Bytes, url: bool)
    requires |bs| == 2
    ensures var n := Group(bs);
      Printed(bs, url)
        == [Letter(url, n / 262144), Letter(url, n / 4096), Letter(url, n / 64)] + (if url then [] else [61])
  {
    assert Padding(|bs|) == [61];
    hide Group, Letter, Sextets, Printed, Digits, Padding;
    PrintedDigits(bs, url);
    FewSextets(bs);
    FourLetters(Group(bs), url, Sextets(bs));
  }

  lemma {:induction false} PrintOne(bs: Bytes, url: bool)
    requires |bs| == 1
    ensures var n := Group(bs);
      Printed(bs, url) == [Letter(url, n / 262144), Letter(url, n / 4096)] + (if url then [] else [61, 61])
  {
    assert Padding(|bs|) == [61, 61];
    hide Group, Letter, Sextets, Printed, Digits, Padding;
    PrintedDigits(bs, url);
    FewSextets(bs);
    FourLetters(Group(bs), url, Sextets(bs));
  }

  lemma DigitLetter(ds: seq<Sextet>, url: bool, i: nat)
    requires i < |ds|
    ensures Digits(ds, url)[i] == Letter(url, ds[i])
  {
    LettersExactly(ds[i]);
    hide Letter, StandardDigit, UrlDigit;
  }

  /** The first digits of a number, as letters. */
  lemma FourLetters(n: nat, url: bool, ds: seq<Sextet>)
    requires n < 16777216 && 2 <= |ds| <= 4 && ds[0] == n / 262144 % 64 && ds[1] == n / 4096 % 64
    requires (|ds| > 2 ==> ds[2] == n / 64 % 64) && (|ds| > 3 ==> ds[3] == n % 64)
    ensures |ds| == 2 ==> Digits(ds, url) == [Letter(url, n / 262144), Letter(url, n / 4096)]
    ensures |ds| == 3 ==> Digits(ds, url) == [Letter(url, n / 262144), Letter(url, n / 4096), Letter(url, n / 64)]
    ensures |ds| == 4 ==>
      Digits(ds, url) == [Letter(url, n / 262144), Letter(url, n / 4096), Letter(url, n / 64), Letter(url, n)]
  {
    hide Letter, StandardDigit, UrlDigit;
    SameLetter(url, n / 262144);
    SameLetter(url, n / 4096);
    SameLetter(url, n / 64);
    SameLetter(url, n);
    DigitLetter(ds, url, 0);
    DigitLetter(ds, url, 1);
    if |ds| > 2 { DigitLetter(ds, url, 2); }
    if |ds| > 3 { DigitLetter(ds, url, 3); }
    hide Digits;
  }

  lemma SameLetter(url: bool, v: nat)
    ensures Letter(url, v) == Letter(url, v % 64)
  {
    hide Letters;
  }

  lemma DigitsCut(ds: seq<Sextet>, k: nat, url: bool)
    requires k <= |ds|
    ensures Digits(ds, url) == Digits(ds[..k], url) + Digits(ds[k..], url)
  {
    hide StandardDigit, UrlDigit;
  }

  lemma {:induction false} MoreSextets(bs: Bytes)
    requires |bs| > 2
    ensures var n, ds := Group(bs), Sextets(bs);
      && n < 16777216 && |ds| >= 4 && ds[4..] == Sextets(bs[3..])
      && ds[0] == n / 262144 % 64 && ds[1] == n / 4096 % 64 && ds[2] == n / 64 % 64 && ds[3] == n % 64
  {
    GroupDigits(bs[0], bs[1], bs[2]);
    var head: seq<Sextet> := [bs[0] / 4, bs[0] % 4 * 16 + bs[1] / 16, bs[1] % 16 * 4 + bs[2] / 64, bs[2] % 64];
    assert Sextets(bs) == head + Sextets(bs[3..]);
  }

  lemma {:induction false} FewSextets(bs: Bytes)
    requires 1 <= |bs| <= 2
    ensures var n := Group(bs);
      n < 16777216
      && |Sextets(bs)| == |bs| + 1
      && Sextets(bs)[0] == n / 262144 % 64 && Sextets(bs)[1] == n / 4096 % 64
      && (|bs| == 2 ==> Sextets(bs)[2] == n / 64 % 64)
  {
    GroupDigits(bs[0], if |bs| > 1 then bs[1] else 0, 0);
  }

  lemma GroupDigits(a: Byte, b: Byte, c: Byte)
    ensures var n := a as int * 65536 + b as int * 256 + c as int;
      && n / 262144 % 64 == a / 4 && n / 4096 % 64 == a % 4 * 16 + b / 16
      && n / 64 % 64 == b % 16 * 4 + c / 64 && n % 64 == c % 64
  {
    var d0, d1 := a as int / 4, a as int % 4 * 16 + b as int / 16;
    var d2, d3 := b as int % 16 * 4 + c as int / 64, c as int % 64;
    var n := a as int * 65536 + b as int * 256 + c as int;
    assert n == 64 * (64 * (64 * d0 + d1) + d2) + d3;
    SixBits(d0, d1);
    SixBits(64 * d0 + d1, d2);
    SixBits(64 * (64 * d0 + d1) + d2, d3);
    assert n / 4096 == n / 64 / 64 && n / 262144 == n / 4096 / 64;
  }
}
