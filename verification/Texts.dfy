/**
 JavaScript text: sequences of UTF-16 code units, with the string operations the
 repository uses on them (trim, split, join, decimal printing).
 */
module Texts {
  type Unit = u: int | 0 <= u < 0x1_0000
  type Text = seq<Unit>

  datatype Option<+T> = None | Some(value: T)

  /** A source literal. Every literal of the source modelled here is ASCII. */
  function Units(s: string): (t: Text)
    requires forall i | 0 <= i < |s| :: s[i] < '\U{0080}'
    ensures |t| == |s| && forall i | 0 <= i < |s| :: t[i] == s[i] as int
  {
    seq(|s|, i requires 0 <= i < |s| => s[i] as int)
  }

  // ---- sequences ----

  lemma Assoc<T>(a: seq<T>, b: seq<T>, c: seq<T>)
    ensures (a + b) + c == a + (b + c)
  {
  }

  lemma DropPrefix<T>(a: seq<T>, b: seq<T>)
    ensures (a + b)[|a|..] == b && (a + b)[..|a|] == a
  {
  }

  ghost predicate Distinct<T>(s: seq<T>) {
    forall i, j | 0 <= i < j < |s| :: s[i] != s[j]
  }

  // ---- numbers ----

  function Min(a: int, b: int): int { if a < b then a else b }

  function Max(a: int, b: int): int { if a > b then a else b }

  // ---- trimming ----

  /** WhiteSpace and LineTerminator of ECMAScript, the set `trim` and `\s` use. */
  predicate IsSpace(u: Unit) {
    || 0x09 <= u <= 0x0D || u == 0x20 || u == 0xA0 || u == 0x1680
    || 0x2000 <= u <= 0x200A || u == 0x2028 || u == 0x2029
    || u == 0x202F || u == 0x205F || u == 0x3000 || u == 0xFEFF
  }

  function TrimStart(s: Text): (t: Text)
    ensures |t| <= |s| && t == s[|s| - |t|..]
    ensures t == [] || !IsSpace(t[0])
  {
    if s != [] && IsSpace(s[0]) then TrimStart(s[1..]) else s
  }

  function TrimEnd(s: Text): (t: Text)
    ensures |t| <= |s| && t == s[..|t|]
    ensures t == [] || !IsSpace(t[|t| - 1])
  {
    if s != [] && IsSpace(s[|s| - 1]) then TrimEnd(s[..|s| - 1]) else s
  }

  function Trim(s: Text): (t: Text)
    ensures Trimmed(t)
    ensures |t| <= |s|
  {
    TrimEnd(TrimStart(s))
  }

  predicate Trimmed(s: Text) {
    s == [] || (!IsSpace(s[0]) && !IsSpace(s[|s| - 1]))
  }

  lemma TrimFixed(s: Text)
    requires Trimmed(s)
    ensures Trim(s) == s
  {
  }

  // ---- splitting and joining ----

  function Join<T>(parts: seq<seq<T>>, sep: T): seq<T> {
    if |parts| == 0 then []
    else if |parts| == 1 then parts[0]
    else parts[0] + [sep] + Join(parts[1..], sep)
  }

  function Split<T(==)>(s: seq<T>, sep: T): (parts: seq<seq<T>>)
    ensures |parts| > 0
    ensures forall i | 0 <= i < |parts| :: sep !in parts[i]
  {
    if s == [] then [[]]
    else
      var rest := Split(s[1..], sep);
      if s[0] == sep then [[]] + rest
      else [[s[0]] + rest[0]] + rest[1..]
  }

  /** A part without the separator is what `Split` peels off first. */
  lemma {:induction false} SplitFirst<T>(p: seq<T>, sep: T, rest: seq<T>)
    requires sep !in p
    ensures Split(p, sep) == [p]
    ensures Split(p + [sep] + rest, sep) == [p] + Split(rest, sep)
  {
    if p == [] {
      assert p + [sep] + rest == [sep] + rest;
      assert ([sep] + rest)[1..] == rest;
    } else {
      SplitFirst(p[1..], sep, rest);
      var s := p + [sep] + rest;
      assert s[1..] == p[1..] + [sep] + rest;
      assert [s[0]] + p[1..] == p;
    }
  }

  lemma {:induction false} JoinedNotEmpty<T>(parts: seq<seq<T>>, sep: T)
    requires |parts| >= 2
    ensures Join(parts, sep) != []
  {
  }

  lemma {:induction false} SplitJoin<T>(parts: seq<seq<T>>, sep: T)
    requires |parts| > 0
    requires forall i | 0 <= i < |parts| :: sep !in parts[i]
    ensures Split(Join(parts, sep), sep) == parts
  {
    if |parts| == 1 {
      SplitFirst(parts[0], sep, []);
    } else {
      SplitFirst(parts[0], sep, Join(parts[1..], sep));
      SplitJoin(parts[1..], sep);
    }
  }

  /** Splitting loses nothing. */
  lemma {:induction false} JoinSplit<T>(s: seq<T>, sep: T)
    ensures Join(Split(s, sep), sep) == s
  {
    if s == [] {
    } else {
      JoinSplit(s[1..], sep);
      var rest := Split(s[1..], sep);
      if s[0] == sep {
        assert Join([[]] + rest, sep) == [sep] + Join(rest, sep);
      } else {
        var parts := [[s[0]] + rest[0]] + rest[1..];
        assert parts[1..] == rest[1..];
        assert Join(parts, sep) == [s[0]] + Join(rest, sep);
      }
    }
  }

  // ---- decimal numbers ----

  predicate IsDigit(u: Unit) { 48 <= u <= 57 }

  predicate AllDigits(s: Text) { forall i | 0 <= i < |s| :: IsDigit(s[i]) }

  function Decimal(n: nat): (t: Text)
    ensures |t| > 0 && AllDigits(t)
  {
    if n < 10 then [48 + n] else Decimal(n / 10) + [48 + n % 10]
  }

  function DecimalValue(s: Text): nat
    requires AllDigits(s)
  {
    if s == [] then 0 else 10 * DecimalValue(s[..|s| - 1]) + (s[|s| - 1] - 48)
  }

  lemma {:induction false} DecimalRoundTrip(n: nat)
    ensures DecimalValue(Decimal(n)) == n
  {
    if n < 10 {
      var t: Text := [48 + n];
      assert t[..0] == [];
      assert DecimalValue(t) == 10 * DecimalValue(t[..0]) + n;
    } else {
      DecimalRoundTrip(n / 10);
      var t := Decimal(n);
      assert t[..|t| - 1] == Decimal(n / 10);
    }
  }

  /**
   `Number(text)` on decimal digit strings. None stands for every other text, which
   no caller modelled here accepts.
   */
  function ToNumber(s: Text): Option<nat> {
    if s != [] && AllDigits(s) then Some(DecimalValue(s)) else None
  }

  // ---- ASCII case ----

  function LowerUnit(u: Unit): Unit {
    if 'A' as int <= u <= 'Z' as int then u + 32 else u
  }

  /** `toLowerCase` on ASCII text; every other unit is kept. */
  function LowerAscii(s: Text): (t: Text)
    ensures |t| == |s|
    ensures forall i | 0 <= i < |s| :: t[i] == LowerUnit(s[i])
  {
    seq(|s|, i requires 0 <= i < |s| => LowerUnit(s[i]))
  }
}
