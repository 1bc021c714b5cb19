/** Coefficient arithmetic: point transforms (section G.1.2 of ITU-T T.81), magnitude
    categories (section F.1.2) and the sign extension of figure F.12. */
module Coefficients {
  import opened Bits

  /** A block of 64 coefficients in zigzag order. */
  type Block = b: seq<int> | |b| == 64 witness seq(64, _ => 0)

  /** s << n for a signed s */
  function Scale(s: int, n: nat): int {
    if n == 0 then s else 2 * Scale(s, n - 1)
  }

  /** The arithmetic shift c >> n, which rounds down. */
  function Sar(c: int, n: nat): int
    decreases n
  {
    if n == 0 then c else Sar(c / 2, n - 1)
  }

  /** The AC point transform, which rounds towards zero. */
  function Shrink(c: int, n: nat): int {
    if c < 0 then 0 - Shr(-c, n) else Shr(c, n)
  }

  /** What a decoder holds for coefficient c at zigzag index k once bits Al and up are known. */
  function Level(c: int, k: nat, Al: nat): int {
    if k == 0 then Scale(Sar(c, Al), Al) else Scale(Shrink(c, Al), Al)
  }

  /** Conversion to the 16-bit type JCOEF. */
  function Short(x: int): (r: int)
    ensures -32768 <= r < 32768
    ensures -32768 <= x < 32768 ==> r == x
  {
    (x + 32768) % 65536 - 32768
  }

  function Magnitude(v: int): nat {
    if v < 0 then -v else v
  }

  /** Bit Al of the two's-complement representation of x. */
  predicate Bit(x: int, Al: nat) {
    Sar(x, Al) % 2 == 1
  }

  /** The bits sent after the size symbol: v, or the complement of its magnitude. */
  function MagBits(v: int): (b: int) {
    if v >= 0 then v else v + Pow2(NBits(-v)) - 1
  }

  /** HUFF_EXTEND */
  function Extend(x: nat, s: nat): int
    requires s > 0
  {
    if x < Pow2(s - 1) then x - Pow2(s) + 1 else x
  }

  /** Sign extension undoes the magnitude coding. */
  lemma ExtendMag(v: int)
    requires v != 0
    ensures 0 <= MagBits(v) < Pow2(NBits(Magnitude(v))) && NBits(Magnitude(v)) > 0
    ensures Extend(MagBits(v), NBits(Magnitude(v))) == v
  {}

  lemma {:induction false} ScaleBounds(c: int, n: nat)
    ensures c < 0 ==> c <= Scale(Shrink(c, n), n) <= 0
    ensures c >= 0 ==> 0 <= Scale(Shrink(c, n), n) <= c
    ensures Scale(Sar(c, n), n) <= c
    ensures c >= -32768 && n <= 15 ==> Scale(Sar(c, n), n) >= -32768
  {
    ShrinkBounds(c, n);
    SarBounds(c, n);
    if c >= -32768 && n <= 15 { SarAbove(c, 15, n); Pow2Values(); }
  }

  lemma {:induction false} ShrinkBounds(c: int, n: nat)
    ensures c < 0 ==> c <= Scale(0 - Shr(-c, n), n) <= 0
    ensures c >= 0 ==> 0 <= Scale(Shr(c, n), n) <= c
    decreases n
  {
    if n > 0 {
      if c >= 0 { ShrinkBounds(c / 2, n - 1); } else { ShrinkBounds(-((-c) / 2), n - 1); ScaleZero(n - 1); }
    }
  }

  lemma {:induction false} ScaleZero(n: nat)
    ensures Scale(0, n) == 0
  {
    if n > 0 { ScaleZero(n - 1); }
  }

  lemma {:induction false} SarBounds(c: int, n: nat)
    ensures Scale(Sar(c, n), n) <= c
    decreases n
  {
    if n > 0 { SarBounds(c / 2, n - 1); }
  }

  lemma {:induction false} SarAbove(c: int, m: nat, n: nat)
    requires c + Pow2(m) >= 0 && n <= m
    ensures Scale(Sar(c, n), n) >= 0 - Pow2(m)
    decreases n
  {
    if n > 0 { SarAbove(c / 2, m - 1, n - 1); }
  }

  /** Levels of 16-bit coefficients are 16-bit values. */
  lemma LevelShort(c: int, k: nat, Al: nat)
    requires -32768 <= c < 32768 && Al <= 15
    ensures -32768 <= Level(c, k, Al) < 32768
  {
    ScaleBounds(c, Al);
  }

  /** The DC step of successive approximation: one more bit of the two's-complement value. */
  lemma {:induction false} DcBit(c: int, n: nat)
    ensures Sar(c, n) == 2 * Sar(c, n + 1) + (if Bit(c, n) then 1 else 0)
    decreases n
  {
    if n > 0 { DcBit(c / 2, n - 1); }
  }

  lemma {:induction false} ScaleAdd(a: int, b: int, n: nat)
    ensures Scale(a + b, n) == Scale(a, n) + Scale(b, n)
  {
    if n > 0 { ScaleAdd(a, b, n - 1); }
  }

  lemma {:induction false} ScaleOne(n: nat)
    ensures Scale(1, n) == Pow2(n) && Scale(-1, n) == 0 - Pow2(n)
  {
    if n > 0 { ScaleOne(n - 1); }
  }

  lemma {:induction false} ScaleTwice(a: int, n: nat)
    ensures Scale(2 * a, n) == Scale(a, n + 1)
  {
    if n > 0 { ScaleTwice(a, n - 1); }
  }

  /** A multiple of 2^(n+1) has bit n clear; adding +-2^n sets it. */
  lemma {:induction false} BitOfMultiple(a: int, n: nat)
    ensures !Bit(Scale(a, n + 1), n)
    ensures Bit(Scale(a, n + 1) + Pow2(n), n) && Bit(Scale(a, n + 1) - Pow2(n), n)
    decreases n
  {
    if n > 0 {
      BitOfMultiple(a, n - 1);
      assert Scale(a, n + 1) / 2 == Scale(a, n);
      assert (Scale(a, n + 1) + Pow2(n)) / 2 == Scale(a, n) + Pow2(n - 1);
      assert (Scale(a, n + 1) - Pow2(n)) / 2 == Scale(a, n) - Pow2(n - 1);
    }
  }

  /** "coef |= p1" with p1 = 1 << Al */
  function SetBit(x: int, Al: nat): int {
    if Bit(x, Al) then x else x + Pow2(Al)
  }

  /** A DC refinement scan adds exactly the bit it transmits. */
  lemma DcRefined(c: int, n: nat)
    ensures Level(c, 0, n) == (if Bit(c, n) then SetBit(Level(c, 0, n + 1), n) else Level(c, 0, n + 1))
  {
    DcBit(c, n);
    var h := Sar(c, n + 1);
    ScaleTwice(h, n);
    ScaleAdd(2 * h, 1, n);
    ScaleOne(n);
    BitOfMultiple(h, n);
  }

  /** The correction step of decode_mcu_AC_refine for a coefficient that is already nonzero. */
  function Correct(x: int, Al: nat): int {
    if Bit(x, Al) then x else if x >= 0 then Short(x + Pow2(Al)) else Short(x - Pow2(Al))
  }

  lemma {:induction false} ShrStep(c: nat, n: nat)
    ensures Shr(c, n) == 2 * Shr(c, n + 1) + Shr(c, n) % 2
  {
    if n > 0 { ShrStep(c / 2, n - 1); }
  }

  lemma {:induction false} ScaleSign(a: int, n: nat)
    ensures a > 0 ==> Scale(a, n) > 0
    ensures a < 0 ==> Scale(a, n) < 0
    ensures a == 0 ==> Scale(a, n) == 0
  {
    if n > 0 { ScaleSign(a, n - 1); }
  }

  lemma {:induction false} ScaleNeg(a: int, n: nat)
    ensures Scale(-a, n) == -Scale(a, n)
  {
    if n > 0 { ScaleNeg(a, n - 1); }
  }

  /** An AC refinement scan: a coefficient whose transformed magnitude exceeds 1 was already
      nonzero and gets the low bit of that magnitude; one whose magnitude is 1 is new. */
  lemma AcRefined(c: int, k: nat, n: nat)
    requires k > 0 && -32768 <= c < 32768 && n <= 14
    ensures var a := Shr(Magnitude(c), n); var x := Level(c, k, n + 1);
      && (x != 0 <==> a > 1)
      && (a > 1 ==> Level(c, k, n) == if a % 2 == 1 then Correct(x, n) else x)
      && (a == 1 ==> Level(c, k, n) == if c < 0 then 0 - Pow2(n) else Pow2(n))
      && (a == 0 ==> Level(c, k, n) == 0)
  {
    hide Scale, Shr, Bit, Short, Pow2, Level, Magnitude;
    var h: int, b := Shr(Magnitude(c), n + 1), Shr(Magnitude(c), n) % 2;
    ShrStep(Magnitude(c), n);
    ScaleSign(h, n + 1);
    ScaleBit(h, b, n);
    SignedLevel(c, k, n);
    SignedLevel(c, k, n + 1);
    ScaleNeg(h, n + 1);
    BitOfMultiple(h, n);
    BitOfMultiple(-h, n);
    LevelShort(c, k, n);
  }

  lemma {:induction false} SignedLevel(c: int, k: nat, n: nat)
    requires k > 0
    ensures Level(c, k, n) == var x := Scale(Shr(Magnitude(c), n), n); if c < 0 then -x else x
  {
    hide Scale, Shr;
    ScaleNeg(Shr(Magnitude(c), n), n);
  }

  lemma ScaleBit(h: int, b: nat, n: nat)
    requires b < 2
    ensures Scale(2 * h + b, n) == Scale(h, n + 1) + b * Pow2(n)
  {
    ScaleTwice(h, n);
    ScaleAdd(2 * h, b, n);
    ScaleOne(n);
    ScaleZero(n);
  }
}
