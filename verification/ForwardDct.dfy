/** The accurate integer forward DCT (jfdctint.c) and the quantiser of jcdctmgr.c: the factored
    transform is a matrix product, no intermediate leaves 32 bits, and the coefficients of 8-bit
    samples are always within the range that the Huffman coders accept. */
module ForwardDct {
  import opened NaturalOrder

  /** INT32 and DCTELEM; every operation below is checked to stay within it. */
  newtype int32 = x: int | -0x8000_0000 <= x < 0x8000_0000

  const DCTSIZE: nat := 8
  const DCTSIZE2: nat := 64
  const CENTERJSAMPLE: int := 128

  // ---- The transform as a matrix ----

  /** Row k of the transform; rows 0 and 4 are plain sums, the others are scaled by 2^13. */
  function Coef(k: nat, i: nat): int
    requires k < 8
  {
    match k
    case 0 => 1
    case 1 => Pick(11363, 9633, 6437, 2260, -2260, -6437, -9633, -11363, i)
    case 2 => Pick(10703, 4433, -4433, -10703, -10703, -4433, 4433, 10703, i)
    case 3 => Pick(9633, -2259, -11362, -6436, 6436, 11362, 2259, -9633, i)
    case 4 => Pick(1, -1, -1, 1, 1, -1, -1, 1, i)
    case 5 => Pick(6437, -11362, 2261, 9633, -9633, -2261, 11362, -6437, i)
    case 6 => Pick(4433, -10704, 10704, -4433, -4433, 10704, -10704, 4433, i)
    case _ => Pick(2260, -6436, 9633, -11363, 11363, -9633, 6436, -2260, i)
  }

  /** 2^13 * sqrt(2) * cos(n * pi / 16), rounded: of period 32, even about 16, odd about 8. */
  function Cosine(n: nat): int
    decreases n
  {
    if n > 32 then Cosine(n - 32)
    else if n > 16 then Cosine(32 - n)
    else if n > 8 then -Cosine(16 - n)
    else if n == 8 then 0
    else Pick(11585, 11363, 10703, 9633, 8192, 6436, 4433, 2260, n)
  }

  /** Entry (k, i) of the transform is that of the DCT, to within one unit of the 13-bit constants;
      rows 0 and 4 are exact. */
  predicate NearDct(k: nat, i: nat)
    requires k < 8
  {
    if k == 0 || k == 4 then 8192 * Coef(k, i) == Cosine(if k == 0 then 4 else k * (2 * i + 1))
    else -1 <= Coef(k, i) - Cosine(k * (2 * i + 1)) <= 1
  }

  lemma Rows0And1(i: nat)
    requires i < 8
    ensures NearDct(0, i) && NearDct(1, i)
  {
    assert NearDct(0, 0) && NearDct(0, 1) && NearDct(0, 2) && NearDct(0, 3)
      && NearDct(0, 4) && NearDct(0, 5) && NearDct(0, 6) && NearDct(0, 7);
    assert NearDct(1, 0) && NearDct(1, 1) && NearDct(1, 2) && NearDct(1, 3)
      && NearDct(1, 4) && NearDct(1, 5) && NearDct(1, 6) && NearDct(1, 7);
  }

  lemma Row2(i: nat)
    requires i < 8
    ensures NearDct(2, i)
  {
    assert NearDct(2, 0) && NearDct(2, 1) && NearDct(2, 2) && NearDct(2, 3)
      && NearDct(2, 4) && NearDct(2, 5) && NearDct(2, 6) && NearDct(2, 7);
  }

  lemma Row3(i: nat)
    requires i < 8
    ensures NearDct(3, i)
  {
    assert NearDct(3, 0) && NearDct(3, 1) && NearDct(3, 2) && NearDct(3, 3)
      && NearDct(3, 4) && NearDct(3, 5) && NearDct(3, 6) && NearDct(3, 7);
  }

  lemma Rows4And5(i: nat)
    requires i < 8
    ensures NearDct(4, i) && NearDct(5, i)
  {
    assert NearDct(4, 0) && NearDct(4, 1) && NearDct(4, 2) && NearDct(4, 3)
      && NearDct(4, 4) && NearDct(4, 5) && NearDct(4, 6) && NearDct(4, 7);
    assert NearDct(5, 0) && NearDct(5, 1) && NearDct(5, 2) && NearDct(5, 3)
      && NearDct(5, 4) && NearDct(5, 5) && NearDct(5, 6) && NearDct(5, 7);
  }

  lemma Row6(i: nat)
    requires i < 8
    ensures NearDct(6, i)
  {
    assert NearDct(6, 0) && NearDct(6, 1) && NearDct(6, 2) && NearDct(6, 3)
      && NearDct(6, 4) && NearDct(6, 5) && NearDct(6, 6) && NearDct(6, 7);
  }

  lemma Row7(i: nat)
    requires i < 8
    ensures NearDct(7, i)
  {
    assert NearDct(7, 0) && NearDct(7, 1) && NearDct(7, 2) && NearDct(7, 3)
      && NearDct(7, 4) && NearDct(7, 5) && NearDct(7, 6) && NearDct(7, 7);
  }

  lemma RowsAreCosines(k: nat, i: nat)
    requires k < 8 && i < 8
    ensures NearDct(k, i)
  {
    hide NearDct;
    Rows0And1(i);
    Row2(i);
    Row3(i);
    Rows4And5(i);
    Row6(i);
    Row7(i);
  }

  function Product(k: nat, x: seq<int>): int
    requires k < 8 && |x| == 8
  {
    Coef(k, 0) * x[0] + Coef(k, 1) * x[1] + Coef(k, 2) * x[2] + Coef(k, 3) * x[3]
    + Coef(k, 4) * x[4] + Coef(k, 5) * x[5] + Coef(k, 6) * x[6] + Coef(k, 7) * x[7]
  }

  /** x / 2^n, rounded to the nearest integer, halves upwards. */
  function Rounded(x: int, d: nat): int
    requires d > 1
  {
    (x + d / 2) / d
  }

  /** Output k of the first pass: the scale is 2^2. */
  function RowOut(k: nat, x: seq<int>): int
    requires k < 8 && |x| == 8
  {
    if k == 0 || k == 4 then 4 * Product(k, x) else Rounded(Product(k, x), 2048)
  }

  /** Output k of the second pass, which removes that scale. */
  function ColumnOut(k: nat, x: seq<int>): int
    requires k < 8 && |x| == 8
  {
    if k == 0 || k == 4 then Rounded(Product(k, x), 4) else Rounded(Product(k, x), 32768)
  }

  function RowOf(w: seq<int>, r: nat): (x: seq<int>)
    requires |w| == 64 && r < 8
    ensures |x| == 8
  {
    w[8 * r..8 * r + 8]
  }

  function ColumnOf(w: seq<int>, c: nat): (x: seq<int>)
    requires |w| == 64 && c < 8
    ensures |x| == 8
  {
    [w[c], w[8 + c], w[16 + c], w[24 + c], w[32 + c], w[40 + c], w[48 + c], w[56 + c]]
  }

  function RowPass(w: seq<int>): (r: seq<int>)
    requires |w| == 64
    ensures |r| == 64
  {
    seq(64, n requires 0 <= n < 64 => RowOut(n % 8, RowOf(w, n / 8)))
  }

  function ColumnPass(w: seq<int>): (r: seq<int>)
    requires |w| == 64
    ensures |r| == 64
  {
    seq(64, n requires 0 <= n < 64 => ColumnOut(n / 8, ColumnOf(w, n % 8)))
  }

  /** The two-dimensional transform; its results are scaled up by 8. */
  function Transform(w: seq<int>): (r: seq<int>)
    requires |w| == 64
    ensures |r| == 64
  {
    ColumnPass(RowPass(w))
  }

  // ---- Bounds ----

  ghost predicate Within(x: seq<int>, lo: int, hi: int) {
    forall i :: 0 <= i < |x| ==> lo <= x[i] <= hi
  }

  lemma RowBounds(k: nat, x: seq<int>)
    requires k < 8 && |x| == 8 && Within(x, -128, 127)
    ensures k == 0 ==> -4096 <= RowOut(k, x) <= 4064
    ensures k > 0 ==> -4080 <= RowOut(k, x) <= 4080
  {}

  lemma ColumnBounds(k: nat, x: seq<int>)
    requires k < 8 && |x| == 8 && Within(x, -4080, 4080)
    ensures -8160 <= ColumnOut(k, x) <= 8160
  {}

  lemma FirstColumnBounds(k: nat, x: seq<int>)
    requires k < 8 && |x| == 8 && Within(x, -4096, 4064)
    ensures k == 0 ==> -8192 <= ColumnOut(k, x) <= 8128
    ensures k > 0 ==> -8160 <= ColumnOut(k, x) <= 8160
  {}

  // ---- One dimension ----

  /** MULTIPLY16C16 wants a factor of no more than 16 bits. */
  predicate Fits16(v: int32) {
    -32768 <= v <= 32767
  }

  /** The sums and differences that the rotations start from: what two elements of -4096..4080 give. */
  predicate Sums(t: int32) {
    -8192 <= t <= 8176
  }

  method EvenPart(tmp0: int32, tmp1: int32, tmp2: int32, tmp3: int32)
    returns (s0: int32, s2: int32, s4: int32, s6: int32)
    requires Sums(tmp0) && Sums(tmp1) && Sums(tmp2) && Sums(tmp3)
    ensures s0 == tmp0 + tmp1 + tmp2 + tmp3 && s4 == tmp0 - tmp1 - tmp2 + tmp3
    ensures s2 == 10703 * (tmp0 - tmp3) + 4433 * (tmp1 - tmp2)
    ensures s6 == 4433 * (tmp0 - tmp3) - 10704 * (tmp1 - tmp2)
  {
    var tmp10, tmp13 := tmp0 + tmp3, tmp0 - tmp3;
    var tmp11, tmp12 := tmp1 + tmp2, tmp1 - tmp2;
    s0 := tmp10 + tmp11;
    s4 := tmp10 - tmp11;
    assert Fits16(tmp12 + tmp13) && Fits16(tmp12) && Fits16(tmp13);
    var z1 := (tmp12 + tmp13) * 4433;
    s2 := z1 + tmp13 * 6270;
    s6 := z1 + tmp12 * -15137;
  }

  method OddPart(t4: int32, t5: int32, t6: int32, t7: int32) returns (s1: int32, s3: int32, s5: int32, s7: int32)
    requires -8176 <= t4 <= 8176 && -8176 <= t5 <= 8176 && -8176 <= t6 <= 8176 && -8176 <= t7 <= 8176
    ensures s1 == 11363 * t7 + 9633 * t6 + 6437 * t5 + 2260 * t4
    ensures s3 == 9633 * t7 - 2259 * t6 - 11362 * t5 - 6436 * t4
    ensures s5 == 6437 * t7 - 11362 * t6 + 2261 * t5 + 9633 * t4
    ensures s7 == 2260 * t7 - 6436 * t6 + 9633 * t5 - 11363 * t4
  {
    var tmp4, tmp5, tmp6, tmp7 := t4, t5, t6, t7;
    var z1 := tmp4 + tmp7;
    var z2 := tmp5 + tmp6;
    var z3 := tmp4 + tmp6;
    var z4 := tmp5 + tmp7;
    assert Fits16(z1) && Fits16(z2) && Fits16(z3) && Fits16(z4) && Fits16(z3 + z4);
    var z5 := (z3 + z4) * 9633;
    tmp4 := tmp4 * 2446;
    tmp5 := tmp5 * 16819;
    tmp6 := tmp6 * 25172;
    tmp7 := tmp7 * 12299;
    z1 := z1 * -7373;
    z2 := z2 * -20995;
    z3 := z3 * -16069;
    z4 := z4 * -3196;
    z3 := z3 + z5;
    z4 := z4 + z5;
    s7 := tmp4 + z1 + z3;
    s5 := tmp5 + z2 + z4;
    s3 := tmp6 + z2 + z3;
    s1 := tmp7 + z1 + z4;
  }

  /** What eight elements of a first-pass or second-pass input look like. */
  ghost predicate Samples(x: seq<int32>) {
    |x| == 8 && forall i :: 0 <= i < 8 ==> -4096 <= x[i] <= 4080
  }

  ghost function Ints(w: seq<int32>): (r: seq<int>)
    ensures |r| == |w|
  {
    seq(|w|, i requires 0 <= i < |w| => w[i] as int)
  }

  lemma Products(x: seq<int>)
    requires |x| == 8
    ensures var t0, t1, t2, t3 := x[0] + x[7], x[1] + x[6], x[2] + x[5], x[3] + x[4];
      && Product(0, x) == t0 + t1 + t2 + t3 && Product(4, x) == t0 - t1 - t2 + t3
      && Product(2, x) == 10703 * (t0 - t3) + 4433 * (t1 - t2)
      && Product(6, x) == 4433 * (t0 - t3) - 10704 * (t1 - t2)
    ensures var t7, t6, t5, t4 := x[0] - x[7], x[1] - x[6], x[2] - x[5], x[3] - x[4];
      && Product(1, x) == 11363 * t7 + 9633 * t6 + 6437 * t5 + 2260 * t4
      && Product(3, x) == 9633 * t7 - 2259 * t6 - 11362 * t5 - 6436 * t4
      && Product(5, x) == 6437 * t7 - 11362 * t6 + 2261 * t5 + 9633 * t4
      && Product(7, x) == 2260 * t7 - 6436 * t6 + 9633 * t5 - 11363 * t4
  {}

  /** DESCALE(x, n), with the sum in 32 bits. */
  method Descale(x: int32, d: int32) returns (r: int32)
    requires d in {4, 2048, 32768} && -0x7FFF_0000 <= x <= 0x7FFF_0000
    ensures r as int == Rounded(x as int, d as int)
  {
    r := (x + d / 2) / d;
  }

  /** The eight outputs of either pass for one row or column; the scale is the first pass's unless
      `second`. */
  method OneDimension(x: seq<int32>, second: bool) returns (r: seq<int32>)
    requires Samples(x) && (!second ==> forall i :: 0 <= i < 8 ==> -128 <= x[i] <= 127)
    ensures |r| == 8 && forall k :: 0 <= k < 8 ==>
      r[k] as int == if second then ColumnOut(k, Ints(x)) else RowOut(k, Ints(x))
  {
    hide Product;
    Products(Ints(x));
    var s0, s2, s4, s6 := EvenPart(x[0] + x[7], x[1] + x[6], x[2] + x[5], x[3] + x[4]);
    var s1, s3, s5, s7 := OddPart(x[3] - x[4], x[2] - x[5], x[1] - x[6], x[0] - x[7]);
    var d: int32 := if second then 32768 else 2048;
    if second {
      s0 := Descale(s0, 4);
      s4 := Descale(s4, 4);
    } else {
      s0 := s0 * 4;
      s4 := s4 * 4;
    }
    s1 := Descale(s1, d);
    s2 := Descale(s2, d);
    s3 := Descale(s3, d);
    s5 := Descale(s5, d);
    s6 := Descale(s6, d);
    s7 := Descale(s7, d);
    r := [s0, s1, s2, s3, s4, s5, s6, s7];
  }

  // ---- Two dimensions ----

  /** A block of 8-bit samples, converted to signed. */
  ghost predicate Centered(w: seq<int>) {
    |w| == 64 && Within(w, -128, 127)
  }

  lemma RowPassBounds(w: seq<int>)
    requires Centered(w)
    ensures forall n :: 0 <= n < 64 && n % 8 == 0 ==> -4096 <= RowPass(w)[n] <= 4064
    ensures forall n :: 0 <= n < 64 && n % 8 != 0 ==> -4080 <= RowPass(w)[n] <= 4080
  {
    hide RowOut;
    forall n | 0 <= n < 64
      ensures n % 8 == 0 ==> -4096 <= RowPass(w)[n] <= 4064
      ensures n % 8 != 0 ==> -4080 <= RowPass(w)[n] <= 4080
    {
      RowBounds(n % 8, RowOf(w, n / 8));
    }
  }

  /** The output of the transform, scaled up by 8: the DC term is that of the asymmetric sample range,
      the others are symmetric. */
  lemma TransformBounds(w: seq<int>)
    requires Centered(w)
    ensures -8192 <= Transform(w)[0] <= 8128
    ensures forall n :: 0 < n < 64 ==> -8160 <= Transform(w)[n] <= 8160
  {
    hide ColumnOut, RowPass;
    RowPassBounds(w);
    var y := RowPass(w);
    forall n | 0 <= n < 64
      ensures n == 0 ==> -8192 <= Transform(w)[n] <= 8128
      ensures n > 0 ==> -8160 <= Transform(w)[n] <= 8160
    {
      var x := ColumnOf(y, n % 8);
      ColumnIndices(n % 8);
      if n % 8 == 0 { FirstColumnBounds(n / 8, x); } else { ColumnBounds(n / 8, x); }
    }
  }

  /** The DC bound is attained by a black block. */
  lemma BlackBlock(w: seq<int>)
    requires |w| == 64 && forall n :: 0 <= n < 64 ==> w[n] == -128
    ensures Transform(w)[0] == -8192
  {
    hide ColumnOut, RowOut;
    forall n | 0 <= n < 64 && n % 8 == 0 ensures RowPass(w)[n] == -4096 {
      Black(RowOf(w, n / 8));
    }
    FlatColumn(ColumnOf(RowPass(w), 0), -4096);
  }

  /** The AC bound is attained by vertical stripes of 127 and -128. With 128 in place of 127 the
      coefficient would be 1024, which the coder refuses. */
  lemma StripedBlock(w: seq<int>, white: int)
    requires |w| == 64 && forall n :: 0 <= n < 64 ==> w[n] == if Coef(4, n % 8) == 1 then white else -128
    ensures Transform(w)[4] == 32 * (white + 128)
  {
    hide ColumnOut, RowOut, Coef, RowPass, ColumnOf, Transform;
    forall r | 0 <= r < 8 ensures ColumnOf(RowPass(w), 4)[r] == 16 * (white + 128) {
      StripedRow(w, white, r);
      RowPassAt(w, r, 4);
    }
    FlatColumn(ColumnOf(RowPass(w), 4), 16 * (white + 128));
    TopRow(w, 4);
  }

  lemma RowPassAt(w: seq<int>, r: nat, c: nat)
    requires |w| == 64 && r < 8 && c < 8
    ensures ColumnOf(RowPass(w), c)[r] == RowOut(c, RowOf(w, r))
  {
    hide RowOut, RowOf;
    RowIndex(r, c);
    assert ColumnOf(RowPass(w), c)[r] == RowPass(w)[8 * r + c];
  }

  lemma TopRow(w: seq<int>, c: nat)
    requires |w| == 64 && c < 8
    ensures Transform(w)[c] == ColumnOut(0, ColumnOf(RowPass(w), c))
  {
    hide ColumnOut, RowPass, ColumnOf;
  }

  lemma StripedRow(w: seq<int>, white: int, r: nat)
    requires |w| == 64 && r < 8 && forall n :: 0 <= n < 64 ==> w[n] == if Coef(4, n % 8) == 1 then white else -128
    ensures RowOut(4, RowOf(w, r)) == 16 * (white + 128)
  {
    hide RowOut, Coef;
    forall i | 0 <= i < 8 ensures RowOf(w, r)[i] == if Coef(4, i) == 1 then white else -128 {
      RowIndex(r, i);
    }
    Stripes(RowOf(w, r), white);
  }

  lemma Stripes(x: seq<int>, white: int)
    requires |x| == 8 && forall i :: 0 <= i < 8 ==> x[i] == if Coef(4, i) == 1 then white else -128
    ensures RowOut(4, x) == 16 * (white + 128)
  {}

  lemma Black(x: seq<int>)
    requires |x| == 8 && forall i :: 0 <= i < 8 ==> x[i] == -128
    ensures RowOut(0, x) == -4096
  {}

  lemma FlatColumn(x: seq<int>, v: int)
    requires |x| == 8 && v % 2 == 0 && forall i :: 0 <= i < 8 ==> x[i] == v
    ensures ColumnOut(0, x) == 2 * v
  {}

  lemma ColumnIndices(c: nat)
    requires c < 8
    ensures c == c % 8 == (8 + c) % 8 == (16 + c) % 8 == (24 + c) % 8
    ensures c == (32 + c) % 8 == (40 + c) % 8 == (48 + c) % 8 == (56 + c) % 8
  {}

  ghost predicate RowsDone(d: seq<int32>, w: seq<int>, r: nat)
    requires |w| == 64
  {
    |d| == 64 && forall n :: 0 <= n < 64 ==> d[n] as int == if n < 8 * r then RowPass(w)[n] else w[n]
  }

  ghost predicate ColumnsDone(d: seq<int32>, w: seq<int>, c: nat)
    requires |w| == 64
  {
    |d| == 64 && forall n :: 0 <= n < 64 ==> d[n] as int == if n % 8 < c then ColumnPass(w)[n] else w[n]
  }

  method StoreRow(data: array<int32>, r: nat, y: seq<int32>)
    requires data.Length == DCTSIZE2 && |y| == 8 && r < 8
    modifies data
    ensures forall n :: 0 <= n < 64 ==> data[n] == if 8 * r <= n < 8 * r + 8 then y[n - 8 * r] else old(data[n])
  {
    data[8 * r], data[8 * r + 1], data[8 * r + 2], data[8 * r + 3] := y[0], y[1], y[2], y[3];
    data[8 * r + 4], data[8 * r + 5], data[8 * r + 6], data[8 * r + 7] := y[4], y[5], y[6], y[7];
  }

  method StoreColumn(data: array<int32>, c: nat, y: seq<int32>)
    requires data.Length == DCTSIZE2 && |y| == 8 && c < 8
    modifies data
    ensures forall n :: 0 <= n < 64 ==> data[n] == if n % 8 == c then y[n / 8] else old(data[n])
  {
    data[c], data[8 + c], data[16 + c], data[24 + c] := y[0], y[1], y[2], y[3];
    data[32 + c], data[40 + c], data[48 + c], data[56 + c] := y[4], y[5], y[6], y[7];
  }

  /** Row r of the first pass. */
  method TransformRow(data: array<int32>, r: nat, ghost w: seq<int>)
    requires data.Length == DCTSIZE2 && r < 8 && Centered(w) && RowsDone(data[..], w, r)
    modifies data
    ensures RowsDone(data[..], w, r + 1)
  {
    hide RowOut;
    var x := data[8 * r..8 * r + 8];
    assert Ints(x) == RowOf(w, r);
    var y := OneDimension(x, false);
    RowOutputs(w, r, y);
    hide RowPass;
    StoreRow(data, r, y);
  }

  lemma RowOutputs(w: seq<int>, r: nat, y: seq<int32>)
    requires |w| == 64 && r < 8 && |y| == 8 && forall k :: 0 <= k < 8 ==> y[k] as int == RowOut(k, RowOf(w, r))
    ensures forall n :: 8 * r <= n < 8 * r + 8 ==> y[n - 8 * r] as int == RowPass(w)[n]
  {
    hide RowOut;
    forall n | 8 * r <= n < 8 * r + 8 ensures y[n - 8 * r] as int == RowPass(w)[n] { RowIndex(r, n - 8 * r); }
  }

  /** Column c of the second pass. */
  method TransformColumn(data: array<int32>, c: nat, ghost w: seq<int>)
    requires data.Length == DCTSIZE2 && c < 8 && |w| == 64 && Within(w, -4096, 4080) && ColumnsDone(data[..], w, c)
    modifies data
    ensures ColumnsDone(data[..], w, c + 1)
  {
    hide ColumnOut, ColumnsDone;
    var x := [data[c], data[8 + c], data[16 + c], data[24 + c], data[32 + c], data[40 + c], data[48 + c], data[56 + c]];
    ColumnInputs(data[..], w, c, x);
    var y := OneDimension(x, true);
    hide ColumnPass;
    ghost var before := data[..];
    StoreColumn(data, c, y);
    ColumnOutputs(before, data[..], w, c, y);
  }

  lemma ColumnInputs(d: seq<int32>, w: seq<int>, c: nat, x: seq<int32>)
    requires c < 8 && |w| == 64 && Within(w, -4096, 4080) && ColumnsDone(d, w, c)
    requires |d| == 64 && x == [d[c], d[8 + c], d[16 + c], d[24 + c], d[32 + c], d[40 + c], d[48 + c], d[56 + c]]
    ensures Ints(x) == ColumnOf(w, c) && Samples(x)
  {
    hide ColumnPass;
    ColumnIndices(c);
  }

  lemma ColumnOutputs(d: seq<int32>, d': seq<int32>, w: seq<int>, c: nat, y: seq<int32>)
    requires c < 8 && |w| == 64 && ColumnsDone(d, w, c) && |d'| == 64 && |y| == 8
    requires forall k :: 0 <= k < 8 ==> y[k] as int == ColumnOut(k, ColumnOf(w, c))
    requires forall n :: 0 <= n < 64 ==> d'[n] == if n % 8 == c then y[n / 8] else d[n]
    ensures ColumnsDone(d', w, c + 1)
  {
    hide ColumnOut;
  }

  /** jpeg_fdct_islow: in place, by rows and then by columns. */
  method FdctIslow(data: array<int32>)
    requires data.Length == DCTSIZE2 && Centered(Ints(data[..]))
    modifies data
    ensures Ints(data[..]) == Transform(Ints(old(data[..])))
  {
    hide RowPass, ColumnPass;
    ghost var w := Ints(data[..]);
    ghost var v := RowPass(w);
    RowPassBounds(w);
    for ctr := 0 to DCTSIZE
      invariant RowsDone(data[..], w, ctr)
    {
      TransformRow(data, ctr, w);
    }
    assert ColumnsDone(data[..], v, 0);
    for ctr := 0 to DCTSIZE
      invariant ColumnsDone(data[..], v, ctr)
    {
      TransformColumn(data, ctr, v);
    }
    assert Ints(data[..]) == ColumnPass(v);
  }

  lemma RowIndex(r: nat, k: nat)
    requires r < 8 && k < 8
    ensures (8 * r + k) / 8 == r && (8 * r + k) % 8 == k
  {}

  // ---- Quantisation ----

  /** The nearest multiple, halves away from zero; qval is 8 times the quantisation value, which also
      removes the scale of the transform. */
  ghost predicate Nearest(t: int, qval: int, c: int) {
    && (t >= 0 ==> c >= 0) && (t < 0 ==> c <= 0)
    && var a, m := if t < 0 then -t else t, if c < 0 then -c else c;
    && m * qval <= a + qval / 2 < (m + 1) * qval
  }

  lemma Quotient(a: int, q: int)
    requires a >= 0 && q > 0
    ensures a / q * q <= a < (a / q + 1) * q && 0 <= a / q <= a
    ensures a < q ==> a / q == 0
  {
    var m := a / q;
    assert a == m * q + a % q;
    assert (m + 1) * q == m * q + q;
    Times(m, q);
    if m > 0 { Times(m - 1, q); assert (m - 1) * q == m * q - q; }
  }

  lemma Times(m: nat, q: int)
    requires q > 0
    ensures m <= m * q
  {}

  /** The division of forward_DCT. */
  method Quantize(t: int32, qval: int32) returns (c: int32)
    requires -8192 <= t <= 8192 && 8 <= qval <= 8 * 65535
    ensures Nearest(t as int, qval as int, c as int)
  {
    var temp := t;
    Quotient((if t < 0 then -t else t) as int + qval as int / 2, qval as int);
    if temp < 0 {
      temp := -temp;
      temp := temp + qval / 2;
      temp := if temp >= qval then temp / qval else 0;
      temp := -temp;
    } else {
      temp := temp + qval / 2;
      temp := if temp >= qval then temp / qval else 0;
    }
    c := temp;
  }

  /** An 8x8 block of 8-bit samples, converted to signed. */
  function SampleBlock(sample_data: seq<seq<nat>>, row: nat, col: nat): (w: seq<int>)
    requires row + 8 <= |sample_data| && forall y :: row <= y < row + 8 ==> col + 8 <= |sample_data[y]|
    ensures |w| == 64
  {
    seq(64, n requires 0 <= n < 64 => sample_data[row + n / 8][col + n % 8] - CENTERJSAMPLE)
  }

  ghost predicate Bytes(sample_data: seq<seq<nat>>) {
    forall y, x :: 0 <= y < |sample_data| && 0 <= x < |sample_data[y]| ==> sample_data[y][x] <= 255
  }

  ghost predicate Divisors(divisors: seq<int32>) {
    |divisors| == 64 && forall i :: 0 <= i < 64 ==> 8 <= divisors[i] <= 8 * 65535
  }

  /** The transformed and quantised block, in natural order. */
  ghost predicate QuantizedBlock(w: seq<int>, divisors: seq<int32>, blk: seq<int>)
    requires |w| == 64 && |divisors| == 64
  {
    |blk| == 64 && forall i :: 0 <= i < 64 ==> Nearest(Transform(w)[i], divisors[i] as int, blk[i])
  }

  lemma BlockCentered(sample_data: seq<seq<nat>>, row: nat, col: nat)
    requires row + 8 <= |sample_data| && forall y :: row <= y < row + 8 ==> col + 8 <= |sample_data[y]|
    requires Bytes(sample_data)
    ensures Centered(SampleBlock(sample_data, row, col))
  {}

  /** start_pass_fdctmgr for the accurate integer method. */
  method StartPass(quantval: seq<nat>) returns (divisors: seq<int32>)
    requires |quantval| == 64 && forall i :: 0 <= i < 64 ==> 1 <= quantval[i] <= 65535
    ensures Divisors(divisors) && forall i :: 0 <= i < 64 ==> divisors[i] as int == 8 * quantval[i]
  {
    divisors := seq(64, i requires 0 <= i < 64 => (8 * quantval[i]) as int32);
  }

  /** The samples of one block, transformed in the workspace. */
  method LoadAndTransform(sample_data: seq<seq<nat>>, row: nat, col: nat) returns (workspace: array<int32>)
    requires row + 8 <= |sample_data| && forall y :: row <= y < row + 8 ==> col + 8 <= |sample_data[y]|
    requires Bytes(sample_data)
    ensures fresh(workspace) && workspace.Length == DCTSIZE2
    ensures Ints(workspace[..]) == Transform(SampleBlock(sample_data, row, col))
  {
    hide Transform;
    BlockCentered(sample_data, row, col);
    ghost var w := SampleBlock(sample_data, row, col);
    workspace := new int32[DCTSIZE2];
    for n := 0 to DCTSIZE2
      invariant forall i :: 0 <= i < n ==> workspace[i] as int == w[i]
    {
      workspace[n] := (sample_data[row + n / 8][col + n % 8] - CENTERJSAMPLE) as int32;
    }
    assert Ints(workspace[..]) == w;
    FdctIslow(workspace);
  }

  /** The quantisation loop of one block. */
  method QuantizeBlock(workspace: array<int32>, divisors: seq<int32>, output: array<int>, ghost w: seq<int>)
    requires workspace.Length == 64 == output.Length && Divisors(divisors) && Centered(w)
    requires Ints(workspace[..]) == Transform(w)
    modifies output
    ensures QuantizedBlock(w, divisors, output[..])
  {
    hide Transform, Nearest, Within;
    TransformBounds(w);
    for i := 0 to DCTSIZE2
      invariant forall k :: 0 <= k < i ==> Nearest(Transform(w)[k], divisors[k] as int, output[k])
    {
      assert workspace[i] as int == Ints(workspace[..])[i];
      var temp := Quantize(workspace[i], divisors[i]);
      output[i] := temp as int;
    }
  }

  /** Rows row to row + 7 reach column `right`. */
  ghost predicate Covers(sample_data: seq<seq<nat>>, row: nat, right: nat) {
    row + 8 <= |sample_data| && forall y :: row <= y < row + 8 ==> right <= |sample_data[y]|
  }

  /** Block b of a row of blocks holds the quantised transform of its samples. */
  ghost predicate BlockDone(sample_data: seq<seq<nat>>, row: nat, col: nat, divisors: seq<int32>, blk: seq<int>)
    requires |divisors| == 64 && Covers(sample_data, row, col + 8)
  {
    QuantizedBlock(SampleBlock(sample_data, row, col), divisors, blk)
  }

  method OneBlock(sample_data: seq<seq<nat>>, divisors: seq<int32>, output: array<int>, row: nat, col: nat)
    requires Divisors(divisors) && Bytes(sample_data) && Covers(sample_data, row, col + 8) && output.Length == 64
    modifies output
    ensures BlockDone(sample_data, row, col, divisors, output[..])
  {
    hide Transform, Nearest, QuantizedBlock, SampleBlock, Divisors, Bytes, Centered;
    BlockCentered(sample_data, row, col);
    var workspace := LoadAndTransform(sample_data, row, col);
    QuantizeBlock(workspace, divisors, output, SampleBlock(sample_data, row, col));
  }

  /** forward_DCT: num_blocks blocks in a row, starting at start_row and start_col. */
  method ForwardDCT(sample_data: seq<seq<nat>>, divisors: seq<int32>, coef_blocks: seq<array<int>>,
                    start_row: nat, start_col: nat, num_blocks: nat)
    requires Divisors(divisors) && Bytes(sample_data) && num_blocks <= |coef_blocks|
    requires Covers(sample_data, start_row, start_col + 8 * num_blocks)
    requires forall b :: 0 <= b < |coef_blocks| ==> coef_blocks[b].Length == 64
    requires forall b, c :: 0 <= b < c < |coef_blocks| ==> coef_blocks[b] != coef_blocks[c]
    modifies set b | b in coef_blocks
    ensures forall b :: 0 <= b < num_blocks ==>
      BlockDone(sample_data, start_row, start_col + 8 * b, divisors, coef_blocks[b][..])
    ensures forall b :: num_blocks <= b < |coef_blocks| ==> coef_blocks[b][..] == old(coef_blocks[b][..])
  {
    hide BlockDone, Divisors, Bytes;
    DivisorCount(divisors);
    for bi := 0 to num_blocks
      invariant forall b :: 0 <= b < bi ==>
        BlockDone(sample_data, start_row, start_col + 8 * b, divisors, coef_blocks[b][..])
      invariant forall b :: bi <= b < |coef_blocks| ==> coef_blocks[b][..] == old(coef_blocks[b][..])
    {
      OneBlock(sample_data, divisors, coef_blocks[bi], start_row, start_col + 8 * bi);
    }
  }

  lemma DivisorCount(divisors: seq<int32>)
    requires Divisors(divisors)
    ensures |divisors| == 64
  {}

  /** Whatever the samples and the quantisation table: what the quantiser stores fits 11 bits for DC,
      and 10 bits for AC with three values to spare. */
  lemma QuantizedRange(w: seq<int>, divisors: seq<int32>, blk: seq<int>)
    requires Centered(w) && Divisors(divisors) && QuantizedBlock(w, divisors, blk)
    ensures -1024 <= blk[0] <= 1016
    ensures forall i :: 0 < i < 64 ==> -1020 <= blk[i] <= 1020
  {
    hide Transform, Nearest;
    TransformBounds(w);
    NearestRange(Transform(w)[0], divisors[0] as int, blk[0], 8192, 8128);
    forall i | 0 < i < 64 ensures -1020 <= blk[i] <= 1020 {
      NearestRange(Transform(w)[i], divisors[i] as int, blk[i], 8160, 8160);
    }
  }

  lemma NearestRange(t: int, q: int, c: int, lo: nat, hi: nat)
    requires q >= 8 && Nearest(t, q, c) && 0 - lo <= t <= hi && lo % 8 == hi % 8 == 0
    ensures 0 - lo <= 8 * c <= hi
  {
    var m := if c < 0 then -c else c;
    var b := if c < 0 then lo / 8 else hi / 8;
    if m > b {
      Larger(m, b + 1, q);
      assert (b + 1) * q == b * q + q;
      Larger(q, 8, b);
      assert false;
    }
  }

  lemma Larger(m: int, n: int, q: nat)
    requires m >= n
    ensures m * q >= n * q
  {
    assert (m - n) * q >= 0;
  }

  /** What is stored is the multiple of the step that is nearest to the transformed value, the greater one of two. */
  lemma NearestMultiple(t: int, q: int, c: int)
    requires q > 0 && Nearest(t, q, c)
    ensures -q <= 2 * (t - c * q) <= q
    ensures 2 * (t - c * q) == q ==> t < 0
    ensures 2 * (t - c * q) == -q ==> t > 0
  {
    var m := if c < 0 then -c else c;
    assert (m + 1) * q == m * q + q && (-c) * q == -(c * q);
  }
}
