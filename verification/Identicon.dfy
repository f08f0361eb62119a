/**
 The identicon: a 32-bit FNV-1a hash computed with JavaScript's signed shifts, a xorshift
 generator, and the mirrored 5x5 grid drawn from it.
 */
module Identicon {
  import opened Texts

  const TWO32: int := 0x1_0000_0000

  type Word = w: int | 0 <= w < 0x1_0000_0000

  // ---- FNV-1a ----

  /** ToInt32 of ECMAScript: the signed reading of the low 32 bits. */
  function ToInt32(x: int): (r: int)
    ensures -0x8000_0000 <= r < 0x8000_0000
  {
    var low := x % TWO32;
    if low >= 0x8000_0000 then low - TWO32 else low
  }

  /** `x >>> 0` */
  function ToUint32(x: int): Word { x % TWO32 }

  /** `x << k` where factor is 2 to the k. */
  function ShiftLeft(x: int, factor: int): int { ToInt32(ToInt32(x) * factor) }

  /** `x >>> k` where factor is 2 to the k. */
  function ShiftRight(x: int, factor: int): Word
    requires factor > 0
  {
    ToUint32(x) / factor
  }

  /** Bitwise exclusive or of two n-bit numbers. */
  function XorBits(a: nat, b: nat, n: nat): (r: nat)
    requires a < Power2(n) && b < Power2(n)
    ensures r < Power2(n)
  {
    if n == 0 then 0 else 2 * XorBits(a / 2, b / 2, n - 1) + (a + b) % 2
  }

  function Power2(n: nat): (p: nat)
    ensures p > 0
  {
    if n == 0 then 1 else 2 * Power2(n - 1)
  }

  lemma Power32()
    ensures Power2(32) == 0x1_0000_0000
  {
    assert Power2(8) == 0x100;
    assert Power2(16) == 0x1_0000;
    assert Power2(24) == 0x100_0000;
  }

  function XorWords(a: Word, b: Word): Word {
    Power32();
    XorBits(a, b, 32)
  }

  /** `a ^ b` */
  function JsXor(a: int, b: int): int { ToInt32(XorWords(ToUint32(a), ToUint32(b))) }

  const OFFSET_BASIS: Word := 0x811c9dc5
  const FNV_PRIME: int := 16777619

  /** FNV-1a over code units, with the multiplication modulo 2^32 written out. */
  function Fnv(input: Text): Word {
    if input == [] then OFFSET_BASIS
    else ToUint32(XorWords(Fnv(input[..|input| - 1]), input[|input| - 1]) * FNV_PRIME)
  }

  function ShiftedSum(h: int): int {
    ShiftLeft(h, 0x2) + ShiftLeft(h, 0x10) + ShiftLeft(h, 0x80) + ShiftLeft(h, 0x100) + ShiftLeft(h, 0x100_0000)
  }

  /** How many multiples of 2^32 ToInt32 takes away. */
  function Wraps(x: int): (k: int)
    ensures x == ToInt32(x) + k * TWO32
  {
    var low := x % TWO32;
    if low >= 0x8000_0000 then x / TWO32 + 1 else x / TWO32
  }

  lemma SameResidue(a: int, b: int, k: int)
    requires a == b + k * TWO32
    ensures a % TWO32 == b % TWO32
  {
  }

  lemma ShiftWraps(h: int, factor: int)
    requires -0x8000_0000 <= h < 0x8000_0000
    ensures ShiftLeft(h, factor) == h * factor - Wraps(h * factor) * TWO32
    ensures -0x8000_0000 <= ShiftLeft(h, factor) < 0x8000_0000
  {
    assert ToInt32(h) == h;
  }

  /**
   Adding the five shifts to a signed word multiplies it by the FNV prime modulo 2^32, and
   the intermediate sum is small enough to be exact in a double.
   */
  lemma ShiftsMultiply(h: int)
    requires -0x8000_0000 <= h < 0x8000_0000
    ensures ToUint32(h + ShiftedSum(h)) == h * 16777619 % 0x1_0000_0000
    ensures -0x20_0000_0000_0000 < h + ShiftedSum(h) < 0x20_0000_0000_0000
  {
    ShiftWraps(h, 0x2);
    ShiftWraps(h, 0x10);
    ShiftWraps(h, 0x80);
    ShiftWraps(h, 0x100);
    ShiftWraps(h, 0x100_0000);
    var k := Wraps(h * 0x2) + Wraps(h * 0x10) + Wraps(h * 0x80) + Wraps(h * 0x100) + Wraps(h * 0x100_0000);
    SameResidue(h * FNV_PRIME, h + ShiftedSum(h), k);
  }

  /** The same for an unsigned word read as signed, which is what `^=` leaves behind. */
  lemma SignedStep(w: Word)
    ensures ToUint32(ToInt32(w) + ShiftedSum(ToInt32(w))) == w * 16777619 % 0x1_0000_0000
  {
    var k := Wraps(w);
    ShiftsMultiply(ToInt32(w));
    SameResidue(w * FNV_PRIME, ToInt32(w) * FNV_PRIME, k * FNV_PRIME);
  }

  lemma FnvStep(h: Word, u: Unit)
    ensures var x := JsXor(h, u); ToUint32(x + ShiftedSum(x)) == ToUint32(XorWords(h, u) * FNV_PRIME)
  {
    hide XorWords, ShiftedSum;
    SignedStep(XorWords(h, u));
  }

  lemma FnvNext(input: Text, i: nat)
    requires i < |input|
    ensures Fnv(input[..i + 1]) == ToUint32(XorWords(Fnv(input[..i]), input[i]) * FNV_PRIME)
  {
    assert input[..i + 1][..i] == input[..i];
  }

  /** FNV-1a: from the 32-bit basis, each unit is xored in and the word multiplied by the prime. */
  lemma {:induction false} HashExactly(input: Text, u: Unit)
    ensures Fnv([]) == 2166136261
    ensures Fnv(input + [u]) == XorWords(Fnv(input), u) * 16777619 % 4294967296
    ensures forall i: nat | i < 32 :: Bit(XorWords(Fnv(input), u), i) == (Bit(Fnv(input), i) != Bit(u, i))
  {
    assert (input + [u])[..|input|] == input;
    hide XorWords, Fnv;
    forall i: nat | i < 32 ensures Bit(XorWords(Fnv(input), u), i) == (Bit(Fnv(input), i) != Bit(u, i)) {
      BitOfXorWords(Fnv(input), u, i);
    }
  }

  /** The shift-and-add loop computes FNV-1a. */
  method Fnv1a(input: Text) returns (hash: int)
    ensures hash == Fnv(input)
  {
    hash := OFFSET_BASIS;
    for i := 0 to |input|
      invariant hash == Fnv(input[..i])
    {
      FnvNext(input, i);
      hide XorWords, JsXor, ShiftedSum;
      FnvStep(hash, input[i]);
      hash := JsXor(hash, input[i]);
      hash := hash + ShiftedSum(hash);
      hash := ToUint32(hash);
    }
    assert input[..|input|] == input;
  }

  // ---- bit patterns ----

  /** A 32-bit pattern, lowest bit first. */
  type Bits = b: seq<bool> | |b| == 32 witness seq(32, _ => false)

  const ZERO: Bits := seq(32, _ => false)

  predicate Bit(w: nat, i: nat) { if i == 0 then w % 2 == 1 else Bit(w / 2, i - 1) }

  function BitsOf(w: nat, n: nat): (b: seq<bool>)
    ensures |b| == n
  {
    seq(n, i requires 0 <= i < n => Bit(w, i))
  }

  function ValueOf(b: seq<bool>): nat {
    if b == [] then 0 else (if b[0] then 1 else 0) + 2 * ValueOf(b[1..])
  }

  lemma {:induction false} ValueOfBits(w: nat, n: nat)
    requires w < Power2(n)
    ensures ValueOf(BitsOf(w, n)) == w
  {
    if n == 0 {
    } else {
      ValueOfBits(w / 2, n - 1);
      assert BitsOf(w, n)[1..] == BitsOf(w / 2, n - 1);
    }
  }

  lemma {:induction false} BitsOfValue(b: seq<bool>)
    ensures ValueOf(b) < Power2(|b|)
    ensures BitsOf(ValueOf(b), |b|) == b
  {
    if b == [] {
    } else {
      BitsOfValue(b[1..]);
      forall i | 0 <= i < |b| ensures Bit(ValueOf(b), i) == b[i] {
        if i > 0 { assert BitsOf(ValueOf(b[1..]), |b| - 1)[i - 1] == b[1..][i - 1]; }
      }
    }
  }

  // ---- word operators on patterns ----

  lemma XorHalves(a: nat, b: nat, n: nat)
    requires a < Power2(n) && b < Power2(n) && n > 0
    ensures a / 2 < Power2(n - 1) && b / 2 < Power2(n - 1)
    ensures XorBits(a, b, n) / 2 == XorBits(a / 2, b / 2, n - 1)
    ensures XorBits(a, b, n) % 2 == (a + b) % 2
  {
  }

  lemma {:induction false} BitOfXor(a: nat, b: nat, n: nat, i: nat)
    requires a < Power2(n) && b < Power2(n) && i < n
    ensures Bit(XorBits(a, b, n), i) == (Bit(a, i) != Bit(b, i))
  {
    hide XorBits, Power2;
    XorHalves(a, b, n);
    if i == 0 {
    } else {
      BitOfXor(a / 2, b / 2, n - 1, i - 1);
    }
  }

  lemma {:induction false} BitOfProduct(w: nat, k: nat, i: nat)
    ensures Bit(w * Power2(k), i) == (i >= k && Bit(w, i - k))
  {
    if k == 0 {
    } else {
      var half := w * Power2(k - 1);
      assert w * Power2(k) == 2 * half;
      if i > 0 { BitOfProduct(w, k - 1, i - 1); }
    }
  }

  lemma {:induction false} BitOfQuotient(w: nat, k: nat, q: nat, r: nat, i: nat)
    requires w == q * Power2(k) + r && r < Power2(k)
    ensures Bit(q, i) == Bit(w, i + k)
  {
    if k == 0 {
    } else {
      assert q * Power2(k) == 2 * (q * Power2(k - 1));
      BitOfQuotient(w / 2, k - 1, q, r / 2, i);
    }
  }

  lemma {:induction false} BitOfRemainder(w: nat, n: nat, q: nat, r: nat, i: nat)
    requires w == q * Power2(n) + r && r < Power2(n) && i < n
    ensures Bit(r, i) == Bit(w, i)
  {
    assert q * Power2(n) == 2 * (q * Power2(n - 1));
    if i == 0 {
    } else {
      BitOfRemainder(w / 2, n - 1, q, r / 2, i - 1);
    }
  }

  lemma {:induction false} HighBits(w: nat, n: nat, i: nat)
    requires w < Power2(n) && n <= i
    ensures !Bit(w, i)
  {
    if n == 0 {
      ZeroBits(i);
    } else {
      HighBits(w / 2, n - 1, i - 1);
    }
  }

  lemma {:induction false} ZeroBits(i: nat)
    ensures !Bit(0, i)
  {
    if i == 0 {
    } else {
      ZeroBits(i - 1);
    }
  }

  // ---- xorshift32 ----

  /** `x ^= x << k` */
  function XorLeft(x: Bits, k: nat): Bits {
    seq(32, i requires 0 <= i < 32 => x[i] != (i >= k && x[i - k]))
  }

  /** `x ^= x >>> k` */
  function XorRight(x: Bits, k: nat): Bits {
    seq(32, i requires 0 <= i < 32 => x[i] != (i + k < 32 && x[i + k]))
  }

  /** The low n bits of the pattern that `x ^= x << k` takes to y. */
  function UndoLeft(y: Bits, k: nat, n: nat): (x: seq<bool>)
    requires 0 < k && n <= 32
    ensures |x| == n
  {
    if n == 0 then []
    else
      var low := UndoLeft(y, k, n - 1);
      low + [y[n - 1] != (n - 1 >= k && low[n - 1 - k])]
  }

  lemma {:induction false} UndoLeftSolves(y: Bits, k: nat, n: nat, i: nat)
    requires 0 < k && i < n <= 32
    ensures var x := UndoLeft(y, k, n); y[i] == (x[i] != (i >= k && x[i - k]))
  {
    if i == n - 1 {
    } else {
      UndoLeftSolves(y, k, n - 1, i);
      assert UndoLeft(y, k, n)[..n - 1] == UndoLeft(y, k, n - 1);
    }
  }

  lemma {:induction false} UndoLeftAt(x: Bits, k: nat, n: nat)
    requires 0 < k && n <= 32
    ensures UndoLeft(XorLeft(x, k), k, n) == x[..n]
  {
    if n == 0 {
    } else {
      UndoLeftAt(x, k, n - 1);
      assert x[..n] == x[..n - 1] + [x[n - 1]];
    }
  }

  lemma {:induction false} XorLeftUndone(x: Bits, k: nat)
    requires 0 < k
    ensures UndoLeft(XorLeft(x, k), k, 32) == x
    ensures XorLeft(UndoLeft(x, k, 32), k) == x
  {
    UndoLeftAt(x, k, 32);
    assert x[..32] == x;
    var u: Bits := UndoLeft(x, k, 32);
    forall i | 0 <= i < 32 ensures XorLeft(u, k)[i] == x[i] {
      UndoLeftSolves(x, k, 32, i);
    }
  }

  /** A right shift by half the word or more undoes itself. */
  lemma XorRightUndone(x: Bits, k: nat)
    requires 16 <= k
    ensures XorRight(XorRight(x, k), k) == x
  {
  }

  /** One draw of the generator. */
  function XorShift(x: Bits): Bits { XorLeft(XorRight(XorLeft(x, 13), 17), 5) }

  function Unshift(y: Bits): Bits { UndoLeft(XorRight(UndoLeft(y, 5, 32), 17), 13, 32) }

  lemma ZeroFixed()
    ensures XorShift(ZERO) == ZERO
  {
    assert XorLeft(ZERO, 13) == ZERO && XorRight(ZERO, 17) == ZERO && XorLeft(ZERO, 5) == ZERO;
  }

  lemma XorShiftInverse(x: Bits)
    ensures Unshift(XorShift(x)) == x && XorShift(Unshift(x)) == x
  {
    var a := XorLeft(x, 13);
    XorLeftUndone(x, 13);
    XorRightUndone(a, 17);
    XorLeftUndone(XorRight(a, 17), 5);
    var b := UndoLeft(x, 5, 32);
    XorLeftUndone(x, 5);
    XorRightUndone(b, 17);
    XorLeftUndone(XorRight(b, 17), 13);
  }

  /** The word of a pattern. */
  function WordOf(b: Bits): Word {
    BitsOfValue(b);
    Power32();
    ValueOf(b)
  }

  function NextWord(x: Word): Word { WordOf(XorShift(BitsOf(x, 32))) }

  function PreviousWord(y: Word): Word { WordOf(Unshift(BitsOf(y, 32))) }

  lemma WordBits(w: Word)
    ensures WordOf(BitsOf(w, 32)) == w
  {
    Power32();
    ValueOfBits(w, 32);
  }

  lemma ZeroWord()
    ensures BitsOf(0, 32) == ZERO
  {
    forall i | 0 <= i < 32 ensures !BitsOf(0, 32)[i] { ZeroBits(i); }
  }

  /** A draw is a bijection on 32-bit words, and takes zero alone to zero. */
  lemma DrawBijective(x: Word)
    ensures PreviousWord(NextWord(x)) == x
    ensures NextWord(PreviousWord(x)) == x
    ensures NextWord(x) == 0 <==> x == 0
  {
    hide XorShift, Unshift;
    var b := BitsOf(x, 32);
    XorShiftInverse(b);
    BitsOfValue(XorShift(b));
    BitsOfValue(Unshift(b));
    WordBits(x);
    WordBits(0);
    ZeroWord();
    ZeroFixed();
    XorShiftInverse(ZERO);
  }

  lemma UnsignedXor(a: int, b: int)
    ensures ToUint32(JsXor(a, b)) == XorWords(ToUint32(a), ToUint32(b))
  {
  }

  lemma UnsignedShift(x: int, factor: int)
    ensures ToUint32(ShiftLeft(x, factor)) == ToUint32(x) * factor % TWO32
  {
    var k := if ToInt32(x) == ToUint32(x) then 0 else 1;
    assert ToUint32(x) == ToInt32(x) + k * TWO32;
    SameResidue(ToUint32(x) * factor, ToInt32(x) * factor, k * factor);
  }

  lemma {:induction false} BitOfXorWords(a: Word, b: Word, i: nat)
    requires i < 32
    ensures Bit(XorWords(a, b), i) == (Bit(a, i) != Bit(b, i))
  {
    hide XorBits, Bit;
    Power32();
    BitOfXor(a, b, 32, i);
  }

  lemma {:induction false} LowBit(w: nat, i: nat)
    requires i < 32
    ensures Bit(w % TWO32, i) == Bit(w, i)
  {
    hide Bit;
    Power32();
    BitOfRemainder(w, 32, w / TWO32, w % TWO32, i);
  }

  lemma {:induction false} HighBit(w: Word, i: nat)
    requires 32 <= i
    ensures !Bit(w, i)
  {
    hide Bit;
    Power32();
    HighBits(w, 32, i);
  }

  /** Whether x is read as signed or not, `x ^= x << k` works the pattern as `XorLeft` does. */
  lemma {:induction false} XorLeftOnWords(x: int, k: nat)
    ensures BitsOf(ToUint32(JsXor(x, ShiftLeft(x, Power2(k)))), 32) == XorLeft(BitsOf(ToUint32(x), 32), k)
  {
    hide XorWords, JsXor, ShiftLeft, Power2, Bit;
    var w, f := ToUint32(x), Power2(k);
    UnsignedXor(x, ShiftLeft(x, f));
    UnsignedShift(x, f);
    forall i | 0 <= i < 32 ensures Bit(XorWords(w, w * f % TWO32), i) == XorLeft(BitsOf(w, 32), k)[i] {
      BitOfXorWords(w, w * f % TWO32, i);
      LowBit(w * f, i);
      BitOfProduct(w, k, i);
    }
  }

  lemma {:induction false} XorRightOnWords(x: int, k: nat)
    ensures BitsOf(ToUint32(JsXor(x, ShiftRight(x, Power2(k)))), 32) == XorRight(BitsOf(ToUint32(x), 32), k)
  {
    hide XorWords, JsXor, Power2, Bit;
    var w, f := ToUint32(x), Power2(k);
    UnsignedXor(x, ShiftRight(x, f));
    forall i | 0 <= i < 32 ensures Bit(XorWords(w, w / f), i) == XorRight(BitsOf(w, 32), k)[i] {
      BitOfXorWords(w, w / f, i);
      BitOfQuotient(w, k, w / f, w % f, i);
      if i + k >= 32 { HighBit(w, i + k); }
    }
  }

  lemma Factors()
    ensures Power2(13) == 0x2000 && Power2(17) == 0x2_0000 && Power2(5) == 0x20
  {
    assert Power2(5) == 0x20;
    assert Power2(13) == 0x2000;
    assert Power2(17) == 0x2_0000;
  }

  /** One draw on words: shift and xor by 13 to the left, 17 to the right and 5 to the left. */
  lemma DrawExactly(x: Word)
    ensures var a := XorWords(x, x * 8192 % 4294967296);
      var b := XorWords(a, a / 131072);
      NextWord(x) == XorWords(b, b * 32 % 4294967296)
  {
    Factors();
    hide Power2, XorWords, JsXor, ShiftLeft, XorLeft, XorRight, WordOf, BitsOf;
    var a := XorWords(x, x * 8192 % 4294967296);
    LeftWord(x, 13, 8192);
    var b := XorWords(a, a / 131072);
    assert ShiftRight(a, 131072) == a / 131072;
    RightWord(a, 17, 131072);
    LeftWord(b, 5, 32);
    WordBits(XorWords(b, (b as int) * 32 % 4294967296));
  }

  lemma {:induction false} LeftWord(x: Word, k: nat, f: int)
    requires f == Power2(k)
    ensures BitsOf(XorWords(x, x * f % 4294967296), 32) == XorLeft(BitsOf(x, 32), k)
  {
    XorLeftOnWords(x, k);
    UnsignedXor(x, ShiftLeft(x, f));
    UnsignedShift(x, f);
    hide XorWords, JsXor, ShiftLeft, Power2, XorLeft, BitsOf;
  }

  lemma {:induction false} RightWord(x: Word, k: nat, f: int)
    requires f == Power2(k) && f > 0
    ensures BitsOf(XorWords(x, ShiftRight(x, f)), 32) == XorRight(BitsOf(x, 32), k)
  {
    hide XorWords, JsXor, Power2, XorRight, BitsOf, ShiftRight;
    XorRightOnWords(x, k);
    UnsignedXor(x, ShiftRight(x, f));
    assert ToUint32(ShiftRight(x, f)) == ShiftRight(x, f);
  }

  /** The seeded generator's state after n draws. */
  function State(seed: Word, n: nat): Word {
    if n == 0 then if seed == 0 then 0x9e37_79b9 else seed else NextWord(State(seed, n - 1))
  }

  /** The generator starts at the seed, or at a constant for zero, and never gets stuck at zero. */
  lemma {:induction false} DrawNonZero(seed: Word, n: nat)
    ensures State(seed, 0) == if seed == 0 then 2654435769 else seed
    ensures State(seed, n) != 0
  {
    hide NextWord, PreviousWord;
    if n == 0 {
    } else {
      DrawNonZero(seed, n - 1);
      DrawBijective(State(seed, n - 1));
    }
  }

  /** The closure over `x`. */
  class XorShift32 {
    var x: int

    constructor (seed: Word)
      ensures x == State(seed, 0)
    {
      x := if seed == 0 then 0x9e37_79b9 else seed;
    }

    /** The shifts and xors on signed numbers make one draw. */
    method Next() returns (draw: int)
      modifies this
      ensures draw == x == NextWord(ToUint32(old(x)))
    {
      hide JsXor, ShiftLeft, ShiftRight, Power2, XorLeft, XorRight, BitsOf, WordOf;
      Factors();
      ghost var b0: Bits := BitsOf(ToUint32(x), 32);
      XorLeftOnWords(x, 13);
      x := JsXor(x, ShiftLeft(x, 0x2000));
      x := ToUint32(x);
      XorRightOnWords(x, 17);
      x := JsXor(x, ShiftRight(x, 0x2_0000));
      XorLeftOnWords(x, 5);
      x := JsXor(x, ShiftLeft(x, 0x20));
      x := ToUint32(x);
      assert BitsOf(x, 32) == XorShift(b0);
      WordBits(x);
      draw := ToUint32(x);
    }
  }

  // ---- the grid ----

  datatype Cell = Cell(x: int, y: int)

  /** The stored column a drawn column mirrors. */
  function Half(x: int): int { if x <= 2 then x else 4 - x }

  predicate Covers(filled: seq<bool>, c: Cell)
    requires |filled| == 15
  {
    0 <= c.x < 5 && 0 <= c.y < 5 && filled[c.y * 3 + Half(c.x)]
  }

  function Count(filled: seq<bool>): nat {
    if filled == [] then 0 else Count(filled[..|filled| - 1]) + if filled[|filled| - 1] then 1 else 0
  }

  lemma {:induction false} CountUpdate(f: seq<bool>, i: nat)
    requires i < |f| && !f[i]
    ensures Count(f[i := true]) == Count(f) + 1
  {
    var n := |f| - 1;
    if i < n {
      CountUpdate(f[..n], i);
      assert f[i := true][..n] == f[..n][i := true];
    } else {
      assert f[i := true][..n] == f[..n];
    }
  }

  lemma {:induction false} CountAllTrue(f: seq<bool>)
    requires forall i | 0 <= i < |f| :: f[i]
    ensures Count(f) == |f|
  {
    if f == [] {
    } else {
      CountAllTrue(f[..|f| - 1]);
    }
  }

  lemma {:induction false} CountMonotone(f: seq<bool>, n: nat)
    requires n <= |f|
    ensures Count(f[..n]) <= Count(f)
  {
    if n < |f| {
      CountMonotone(f[..|f| - 1], n);
      assert f[..|f| - 1][..n] == f[..n];
    } else {
      assert f[..n] == f;
    }
  }

  method CountFilled(filled: array<bool>) returns (count: nat)
    ensures count == Count(filled[..])
  {
    count := 0;
    for i := 0 to filled.Length
      invariant count == Count(filled[..i])
    {
      assert filled[..i + 1][..i] == filled[..i];
      if filled[i] { count := count + 1; }
    }
    assert filled[..filled.Length] == filled[..];
  }

  /**
   Tops a grid up to five cells in place: the first unfilled cells are filled, none is
   cleared, and a grid that already has five is left alone.
   */
  method TopUp(filled: array<bool>)
    requires filled.Length == 15
    modifies filled
    ensures Count(filled[..]) == if Count(old(filled[..])) < 5 then 5 else Count(old(filled[..]))
    ensures forall i | 0 <= i < 15 :: old(filled[i]) ==> filled[i]
    ensures forall i, j | 0 <= i < j < 15 :: filled[j] && !old(filled[j]) ==> filled[i]
  {
    var count := CountFilled(filled);
    var i := 0;
    while count < 5 && i < 15
      invariant 0 <= i <= 15
      invariant count == Count(filled[..])
      invariant Count(old(filled[..])) <= count
      invariant count <= 5 || count == Count(old(filled[..]))
      invariant forall j | 0 <= j < i :: filled[j]
      invariant forall j | i <= j < 15 :: filled[j] == old(filled[j])
    {
      if !filled[i] {
        CountUpdate(filled[..], i);
        assert filled[..][i := true] == filled[..i] + [true] + filled[i + 1..];
        filled[i] := true;
        count := count + 1;
        assert filled[..] == filled[..i] + [true] + filled[i + 1..];
      }
      i := i + 1;
    }
    if count < 5 { CountAllTrue(filled[..]); }
  }

  /** The rectangles of one stored cell: itself and, left of the centre column, its mirror image. */
  function RectsOf(k: nat): seq<Cell> {
    var row, col := k / 3, k % 3;
    if col < 2 then [Cell(col, row), Cell(4 - col, row)] else [Cell(col, row)]
  }

  /** The rectangles of the first n stored cells. */
  function RectsUpTo(filled: seq<bool>, n: nat): seq<Cell>
    requires n <= |filled|
  {
    if n == 0 then [] else RectsUpTo(filled, n - 1) + (if filled[n - 1] then RectsOf(n - 1) else [])
  }

  /** The stored cell a rectangle of the grid is drawn for. */
  function StoredAt(c: Cell): int { c.y * 3 + Half(c.x) }

  lemma RectsOfExactly(k: nat, c: Cell)
    requires k < 15
    ensures c in RectsOf(k) <==> 0 <= c.x < 5 && 0 <= c.y < 5 && StoredAt(c) == k
  {
    if 0 <= c.x < 5 && 0 <= c.y < 5 && StoredAt(c) == k { assert k / 3 == c.y && k % 3 == Half(c.x); }
  }

  lemma {:induction false} RectsCover(filled: seq<bool>, n: nat, c: Cell)
    requires |filled| == 15 && n <= 15
    ensures c in RectsUpTo(filled, n) <==> Covers(filled, c) && StoredAt(c) < n
  {
    if n == 0 {
    } else {
      hide RectsOf;
      RectsCover(filled, n - 1, c);
      RectsOfExactly(n - 1, c);
    }
  }

  lemma {:induction false} RectsDistinct(filled: seq<bool>, n: nat)
    requires |filled| == 15 && n <= 15
    ensures Distinct(RectsUpTo(filled, n)) && |RectsUpTo(filled, n)| >= Count(filled[..n])
  {
    if n == 0 {
    } else {
      var before, more := RectsUpTo(filled, n - 1), RectsOf(n - 1);
      RectsDistinct(filled, n - 1);
      assert filled[..n][..n - 1] == filled[..n - 1];
      forall i | 0 <= i < |before| ensures before[i] !in more {
        RectsCover(filled, n - 1, before[i]);
        RectsOfExactly(n - 1, before[i]);
      }
    }
  }

  /** The rectangles of a grid: every covered cell once, and nothing else. */
  method Rectangles(filled: seq<bool>) returns (rects: seq<Cell>)
    requires |filled| == 15
    ensures forall c :: c in rects <==> Covers(filled, c)
    ensures Distinct(rects)
    ensures |rects| >= Count(filled)
  {
    rects := [];
    for row := 0 to 5
      invariant rects == RectsUpTo(filled, row * 3)
    {
      for col := 0 to 3
        invariant rects == RectsUpTo(filled, row * 3 + col)
      {
        assert (row * 3 + col) / 3 == row && (row * 3 + col) % 3 == col;
        if !filled[row * 3 + col] { continue; }
        rects := rects + [Cell(col, row)];
        if col < 2 { rects := rects + [Cell(4 - col, row)]; }
      }
    }
    hide RectsUpTo, Count;
    forall c ensures c in rects <==> Covers(filled, c) { RectsCover(filled, 15, c); }
    RectsDistinct(filled, 15);
    assert filled[..15] == filled;
  }

  /** The mark of fifteen drawn cells: legible, mirror symmetric, no rectangle twice. */
  method Grid(filled: array<bool>) returns (rects: seq<Cell>)
    requires filled.Length == 15
    modifies filled
    ensures |rects| >= 5 && Distinct(rects)
    ensures forall c :: c in rects ==> 0 <= c.x < 5 && 0 <= c.y < 5
    ensures forall c :: c in rects <==> Cell(4 - c.x, c.y) in rects
    ensures forall c :: Covers(old(filled[..]), c) ==> c in rects
    ensures Count(old(filled[..])) >= 5 ==> forall c :: c in rects ==> Covers(old(filled[..]), c)
  {
    ghost var drawn := filled[..];
    TopUp(filled);
    rects := Rectangles(filled[..]);
    TopUpUnchanged(drawn, filled[..]);
  }

  /** The fifteen cells drawn from a seed, before any topping up. */
  function Drawn(seed: Word): (f: seq<bool>)
    ensures |f| == 15
  {
    seq(15, i requires 0 <= i < 15 => State(seed, i + 1) % 100 < 52)
  }

  lemma {:induction false} DrawnExactly(seed: Word)
    ensures forall i | 0 <= i < 15 :: Drawn(seed)[i] <==> State(seed, i + 1) % 100 < 52
  {
    hide State;
  }

  method DrawCells(seed: Word) returns (filled: array<bool>)
    ensures fresh(filled) && filled[..] == Drawn(seed)
  {
    hide NextWord;
    filled := new bool[15];
    var next := new XorShift32(seed);
    for i := 0 to 15
      invariant fresh(next) && next.x == State(seed, i)
      invariant forall j | 0 <= j < i :: filled[j] == Drawn(seed)[j]
    {
      var draw := next.Next();
      filled[i] := draw % 100 < 52;
    }
  }

  /** `Identicon`: the mark drawn from the hash of a text. */
  method Mark(value: Text, lower: Text -> Text) returns (rects: seq<Cell>)
    ensures |rects| >= 5 && Distinct(rects)
    ensures forall c :: c in rects ==> 0 <= c.x < 5 && 0 <= c.y < 5
    ensures forall c :: c in rects <==> Cell(4 - c.x, c.y) in rects
    ensures var f := Drawn(Fnv(lower(Trim(value))));
      && (forall i | 0 <= i < 15 :: f[i] <==> State(Fnv(lower(Trim(value))), i + 1) % 100 < 52)
      && (forall c :: Covers(f, c) ==> c in rects) && (Count(f) >= 5 ==> forall c :: c in rects ==> Covers(f, c))
  {
    hide State, Drawn, Trim, NextWord;
    var hash := Fnv1a(lower(Trim(value)));
    DrawnExactly(hash);
    var filled := DrawCells(hash);
    rects := Grid(filled);
  }

  /** Filling cells without changing the count fills none. */
  lemma {:induction false} TopUpUnchanged(before: seq<bool>, after: seq<bool>)
    requires |before| == |after|
    requires forall i | 0 <= i < |before| :: before[i] ==> after[i]
    ensures Count(before) <= Count(after)
    ensures Count(before) == Count(after) ==> before == after
  {
    if before == [] {
    } else {
      var n := |before| - 1;
      TopUpUnchanged(before[..n], after[..n]);
      assert before == before[..n] + [before[n]] && after == after[..n] + [after[n]];
    }
  }
}
