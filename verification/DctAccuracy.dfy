/** How far the integer forward DCT of jfdctint.c may be from the cosine sums that define the transform
    (section A.3.3 of ITU-T T.81). */
module DctAccuracy {
  import opened ForwardDct

  /** 2^13 times the factor of frequency f at sample i: sqrt(2) * cos((2 * i + 1) * f * pi / 16), or 1 for f = 0. */
  function Term(f: nat, i: nat): int {
    Cosine(if f == 0 then 4 else f * (2 * i + 1))
  }

  /** 2^13 times coefficient f of the eight values x. */
  function Sum(f: nat, x: seq<int>): int
    requires |x| == 8
  {
    Term(f, 0) * x[0] + Term(f, 1) * x[1] + Term(f, 2) * x[2] + Term(f, 3) * x[3]
    + Term(f, 4) * x[4] + Term(f, 5) * x[5] + Term(f, 6) * x[6] + Term(f, 7) * x[7]
  }

  /** 2^26 times eight times coefficient (v, u) of a block: the sum over the rows of the sums over each row. */
  function DoubleSum(w: seq<int>, v: nat, u: nat): int
    requires |w| == 64
  {
    Sum(v, seq(8, r requires 0 <= r < 8 => Sum(u, RowOf(w, r))))
  }

  // ---- The factors as numbers ----

  /** The sum, with the factors written out. */
  function SumOf(f: nat, x: seq<int>): int
    requires f < 8 && |x| == 8
  {
    var t0, t1, t2, t3 := x[0] + x[7], x[1] + x[6], x[2] + x[5], x[3] + x[4];
    var d0, d1, d2, d3 := x[0] - x[7], x[1] - x[6], x[2] - x[5], x[3] - x[4];
    match f
    case 0 => 8192 * t0 + 8192 * t1 + 8192 * t2 + 8192 * t3
    case 1 => 11363 * d0 + 9633 * d1 + 6436 * d2 + 2260 * d3
    case 2 => 10703 * t0 + 4433 * t1 - 4433 * t2 - 10703 * t3
    case 3 => 9633 * d0 - 2260 * d1 - 11363 * d2 - 6436 * d3
    case 4 => 8192 * t0 - 8192 * t1 - 8192 * t2 + 8192 * t3
    case 5 => 6436 * d0 - 11363 * d1 + 2260 * d2 + 9633 * d3
    case 6 => 4433 * t0 - 10703 * t1 + 10703 * t2 - 4433 * t3
    case _ => 2260 * d0 - 6436 * d1 + 9633 * d2 - 11363 * d3
  }

  /** One step of the period. */
  lemma Period(n: nat)
    ensures Cosine(n + 32) == Cosine(n)
  {
    if n == 0 { assert Cosine(32) == Cosine(0); }
  }

  lemma Factors0(x: seq<int>)
    requires |x| == 8
    ensures Sum(0, x) == SumOf(0, x)
  {
    assert Term(0, 0) == 8192 && Term(0, 1) == 8192 && Term(0, 2) == 8192 && Term(0, 3) == 8192;
    assert Term(0, 4) == 8192 && Term(0, 5) == 8192 && Term(0, 6) == 8192 && Term(0, 7) == 8192;
  }

  lemma Factors1(x: seq<int>)
    requires |x| == 8
    ensures Sum(1, x) == SumOf(1, x)
  {
    assert Term(1, 0) == 11363 && Term(1, 1) == 9633 && Term(1, 2) == 6436 && Term(1, 3) == 2260;
    assert Term(1, 4) == -2260 && Term(1, 5) == -6436 && Term(1, 6) == -9633 && Term(1, 7) == -11363;
  }

  lemma Factors2(x: seq<int>)
    requires |x| == 8
    ensures Sum(2, x) == SumOf(2, x)
  {
    assert Cosine(18) == -10703 && Cosine(22) == -4433 && Cosine(26) == 4433 && Cosine(30) == 10703;
    assert Term(2, 0) == 10703 && Term(2, 1) == 4433 && Term(2, 2) == -4433 && Term(2, 3) == -10703;
    assert Term(2, 4) == -10703 && Term(2, 5) == -4433 && Term(2, 6) == 4433 && Term(2, 7) == 10703;
  }

  lemma Factors3(x: seq<int>)
    requires |x| == 8
    ensures Sum(3, x) == SumOf(3, x)
  {
    assert Cosine(21) == -6436 && Cosine(27) == 6436;
    Period(1);
    Period(7);
    Period(13);
    assert Term(3, 0) == 9633 && Term(3, 1) == -2260 && Term(3, 2) == -11363 && Term(3, 3) == -6436;
    assert Term(3, 4) == 6436 && Term(3, 5) == 11363 && Term(3, 6) == 2260 && Term(3, 7) == -9633;
  }

  lemma Factors4(x: seq<int>)
    requires |x| == 8
    ensures Sum(4, x) == SumOf(4, x)
  {
    assert Cosine(20) == -8192 && Cosine(28) == 8192;
    Period(4);
    Period(12);
    Period(20);
    Period(28);
    assert Term(4, 0) == 8192 && Term(4, 1) == -8192 && Term(4, 2) == -8192 && Term(4, 3) == 8192;
    assert Term(4, 4) == 8192 && Term(4, 5) == -8192 && Term(4, 6) == -8192 && Term(4, 7) == 8192;
  }

  lemma Factors5(x: seq<int>)
    requires |x| == 8
    ensures Sum(5, x) == SumOf(5, x)
  {
    assert Cosine(23) == -2260 && Cosine(25) == 2260;
    Period(1);
    Period(3);
    Period(11);
    Period(13);
    Period(23);
    Period(33);
    Period(43);
    assert Term(5, 0) == 6436 && Term(5, 1) == -11363 && Term(5, 2) == 2260 && Term(5, 3) == 9633;
    assert Term(5, 4) == -9633 && Term(5, 5) == -2260 && Term(5, 6) == 11363 && Term(5, 7) == -6436;
  }

  lemma Factors6(x: seq<int>)
    requires |x| == 8
    ensures Sum(6, x) == SumOf(6, x)
  {
    assert Cosine(18) == -10703 && Cosine(22) == -4433 && Cosine(26) == 4433 && Cosine(30) == 10703;
    Period(2);
    Period(10);
    Period(14);
    Period(22);
    Period(26);
    Period(34);
    Period(46);
    Period(58);
    assert Term(6, 0) == 4433 && Term(6, 1) == -10703 && Term(6, 2) == 10703 && Term(6, 3) == -4433;
    assert Term(6, 4) == -4433 && Term(6, 5) == 10703 && Term(6, 6) == -10703 && Term(6, 7) == 4433;
  }

  lemma Factors7(x: seq<int>)
    requires |x| == 8
    ensures Sum(7, x) == SumOf(7, x)
  {
    assert Cosine(17) == -11363 && Cosine(21) == -6436 && Cosine(27) == 6436 && Cosine(31) == 11363;
    Period(3);
    Period(9);
    Period(13);
    Period(17);
    Period(27);
    Period(31);
    Period(41);
    Period(45);
    Period(59);
    Period(73);
    assert Term(7, 0) == 2260 && Term(7, 1) == -6436 && Term(7, 2) == 9633 && Term(7, 3) == -11363;
    assert Term(7, 4) == 11363 && Term(7, 5) == -9633 && Term(7, 6) == 6436 && Term(7, 7) == -2260;
  }

  lemma Factors(f: nat, x: seq<int>)
    requires f < 8 && |x| == 8
    ensures Sum(f, x) == SumOf(f, x)
  {
    hide Sum, SumOf;
    match f {
      case 0 => Factors0(x);
      case 1 => Factors1(x);
      case 2 => Factors2(x);
      case 3 => Factors3(x);
      case 4 => Factors4(x);
      case 5 => Factors5(x);
      case 6 => Factors6(x);
      case _ => Factors7(x);
    }
  }

  // ---- One pass ----

  /** The descaling step rounds to the nearest integer. */
  lemma NearestInteger(x: int, d: nat)
    requires d == 4 || d == 2048 || d == 32768
    ensures 0 - d / 2 <= d * Rounded(x, d) - x <= d / 2
  {}

  /** The integer products, against values of at most m. */
  lemma ProductNear(f: nat, x: seq<int>, m: int)
    requires f < 8 && |x| == 8 && Within(x, 0 - m, m)
    ensures f == 0 || f == 4 ==> 8192 * Product(f, x) == SumOf(f, x)
    ensures -8 * m <= Product(f, x) - SumOf(f, x) <= 8 * m || f == 0 || f == 4
  {}

  /** An output of the first pass is four times the sum, to within one unit. */
  lemma RowNear(f: nat, x: seq<int>)
    requires f < 8 && |x| == 8 && Within(x, -128, 127)
    ensures -2048 <= 2048 * RowOut(f, x) - Sum(f, x) <= 2048
  {
    hide Product, Rounded, Sum, SumOf;
    Factors(f, x);
    ProductNear(f, x, 128);
    NearestInteger(Product(f, x), 2048);
  }

  /** An output of the second pass is a quarter of the sum, to within one unit and a half. */
  lemma ColumnNear(f: nat, x: seq<int>)
    requires f < 8 && |x| == 8 && Within(x, -4096, 4096)
    ensures -49152 <= 32768 * ColumnOut(f, x) - Sum(f, x) <= 49152
  {
    hide Product, Rounded, Sum, SumOf;
    Factors(f, x);
    ProductNear(f, x, 4096);
    NearestInteger(Product(f, x), 32768);
    NearestInteger(Product(f, x), 4);
  }

  /** Errors of one unit in each of the eight values. */
  lemma SpreadError(f: nat, y: seq<int>, z: seq<int>)
    requires f < 8 && |y| == |z| == 8 && forall i :: 0 <= i < 8 ==> -2048 <= 2048 * y[i] - z[i] <= 2048
    ensures -0x800_0000 <= 2048 * SumOf(f, y) - SumOf(f, z) <= 0x800_0000
  {}

  // ---- Both passes ----

  lemma InnerRows(w: seq<int>, u: nat, r: nat)
    requires Centered(w) && u < 8 && r < 8
    ensures Within(RowOf(w, r), -128, 127)
    ensures -2048 <= 2048 * ColumnOf(RowPass(w), u)[r] - Sum(u, RowOf(w, r)) <= 2048
    ensures -4096 <= ColumnOf(RowPass(w), u)[r] <= 4096
  {
    hide RowOut, Sum, RowPass, ColumnOf;
    RowPassAt(w, r, u);
    RowNear(u, RowOf(w, r));
    RowBounds(u, RowOf(w, r));
  }

  lemma OutputPlace(w: seq<int>, v: nat, u: nat)
    requires |w| == 64 && v < 8 && u < 8
    ensures Transform(w)[8 * v + u] == ColumnOut(v, ColumnOf(RowPass(w), u))
  {
    hide ColumnOut, RowPass, ColumnOf;
    RowIndex(v, u);
  }

  /** Whatever the samples: every output of the transform is eight times the coefficient that the cosines define, to
      within three units and a half, that is, less than half a coefficient. */
  lemma TransformAccurate(w: seq<int>, v: nat, u: nat)
    requires Centered(w) && v < 8 && u < 8
    ensures -0xE00_0000 <= 0x400_0000 * Transform(w)[8 * v + u] - DoubleSum(w, v, u) <= 0xE00_0000
  {
    hide ColumnOut, RowPass, ColumnOf, Transform, RowOf, Sum, SumOf;
    var y := ColumnOf(RowPass(w), u);
    var z := seq(8, r requires 0 <= r < 8 => Sum(u, RowOf(w, r)));
    forall r | 0 <= r < 8 ensures -2048 <= 2048 * y[r] - z[r] <= 2048 && -4096 <= y[r] <= 4096 {
      InnerRows(w, u, r);
    }
    OutputPlace(w, v, u);
    ColumnNear(v, y);
    Factors(v, y);
    Factors(v, z);
    SpreadError(v, y, z);
  }

  /** The quantised block of 8x8 samples, with steps quantval: each stored value times its step is the coefficient that
      the cosines define to within half a step and half a unit. */
  method CodeBlock(sample_data: seq<seq<nat>>, quantval: seq<nat>, row: nat, col: nat, output: array<int>)
    requires |quantval| == 64 && forall i :: 0 <= i < 64 ==> 1 <= quantval[i] <= 65535
    requires Bytes(sample_data) && Covers(sample_data, row, col + 8) && output.Length == 64
    modifies output
    ensures forall v, u :: 0 <= v < 8 && 0 <= u < 8 ==>
      CloseTo(output[8 * v + u], quantval[8 * v + u], DoubleSum(SampleBlock(sample_data, row, col), v, u))
  {
    hide QuantizedBlock, Nearest, Transform, DoubleSum, SampleBlock, Bytes, Centered;
    var divisors := StartPass(quantval);
    OneBlock(sample_data, divisors, output, row, col);
    BlockCentered(sample_data, row, col);
    ghost var w := SampleBlock(sample_data, row, col);
    forall v, u | 0 <= v < 8 && 0 <= u < 8
      ensures CloseTo(output[8 * v + u], quantval[8 * v + u], DoubleSum(w, v, u))
    {
      StoredNear(w, divisors, output[..], quantval[8 * v + u], v, u);
    }
  }

  /** 2^29 times the product is within 2^28 times the step, and 2^28, of 2^26 times eight times the coefficient. */
  ghost predicate CloseTo(c: int, step: nat, sum: int) {
    -0x1000_0000 * step - 0x1000_0000 <= 0x2000_0000 * (c * step) - sum <= 0x1000_0000 * step + 0x1000_0000
  }

  lemma StoredNear(w: seq<int>, divisors: seq<int32>, blk: seq<int>, step: nat, v: nat, u: nat)
    requires Centered(w) && Divisors(divisors) && QuantizedBlock(w, divisors, blk) && v < 8 && u < 8
    requires divisors[8 * v + u] as int == 8 * step && step > 0
    ensures CloseTo(blk[8 * v + u], step, DoubleSum(w, v, u))
  {
    hide Transform, Nearest, DoubleSum;
    TransformAccurate(w, v, u);
    var i := 8 * v + u;
    NearestMultiple(Transform(w)[i], 8 * step, blk[i]);
    BothErrors(Transform(w)[i], blk[i], step, DoubleSum(w, v, u));
  }

  lemma BothErrors(t: int, c: int, step: nat, sum: int)
    requires -0xE00_0000 <= 0x400_0000 * t - sum <= 0xE00_0000
    requires -(8 * step) <= 2 * (t - c * (8 * step)) <= 8 * step
    ensures CloseTo(c, step, sum)
  {
    assert c * (8 * step) == 8 * (c * step);
  }
}
