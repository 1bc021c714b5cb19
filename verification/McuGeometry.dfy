/** Sizes of an image in blocks and MCUs (section A.2 of ITU-T T.81). */
module McuGeometry {
  import opened HuffmanTables

  const MAX_DIMENSION: nat := 65500
  const MAX_COMPONENTS: nat := 10
  const MAX_COMPS_IN_SCAN: nat := 4
  const MAX_SAMP_FACTOR: nat := 4
  const MAX_BLOCKS_IN_MCU: nat := 10

  // ---- Arithmetic ----

  /** jdiv_round_up */
  function DivRoundUp(a: nat, b: nat): nat
    requires b > 0
  {
    (a + b - 1) / b
  }

  /** jround_up */
  function RoundUp(a: nat, b: nat): nat
    requires b > 0
  {
    var s := a + b - 1;
    s - s % b
  }

  lemma MulMono(x: int, y: int, c: nat)
    requires x <= y
    ensures x * c <= y * c
  {
    assert (y - x) * c >= 0;
  }

  lemma Apart(d: int, q: int, m: nat)
    ensures d < q ==> d * m + m <= q * m
  {
    if d < q { MulMono(d + 1, q, m); assert (d + 1) * m == d * m + m; }
  }

  /** Euclidean division is unique. */
  lemma SameDivision(d: int, e: nat, q: int, r: nat, m: nat)
    requires d * m + e == q * m + r && e < m && r < m
    ensures d == q && e == r
  {
    Apart(d, q, m);
    Apart(q, d, m);
  }

  function Mixed(q: nat, m: nat, r: nat): nat {
    q * m + r
  }

  /** Quotient and remainder of a mixed-radix number. */
  lemma DivMod(q: nat, m: nat, r: nat)
    requires r < m
    ensures (q * m + r) / m == q && (q * m + r) % m == r
  {
    var n := q * m + r;
    var d, e := n / m, n % m;
    assert n == d * m + e;
    SameDivision(d, e, q, r, m);
  }

  /** q * m + r stays below n * m. */
  lemma MixedBound(q: nat, m: nat, r: nat, n: nat)
    requires r < m && q < n
    ensures q * m + r < n * m
  {
    Apart(q, n, m);
  }

  /** A ceiling is the smallest multiple that is large enough. */
  lemma CeilingIs(a: nat, b: nat, q: nat)
    requires b > 0
    ensures DivRoundUp(a, b) == q <==> (q - 1) * b < a <= q * b
    ensures RoundUp(a, b) == DivRoundUp(a, b) * b
  {
    var s := a + b - 1;
    var d, r := s / b, s % b;
    assert s == d * b + r;
    assert (q - 1) * b == q * b - b;
    if (q - 1) * b < a <= q * b {
      SameDivision(d, r, q, s - q * b, b);
    }
    if d == q {
      assert s == q * b + r;
    }
  }

  /** Rounding up to blocks and then to groups of h blocks is rounding up to groups at once. */
  lemma NestedCeilings(a: nat, c: nat, h: nat)
    requires c > 0 && h > 0
    ensures DivRoundUp(DivRoundUp(a * h, c), h) == DivRoundUp(a, c)
  {
    var w, q := DivRoundUp(a * h, c), DivRoundUp(a, c);
    CeilingIs(a * h, c, w);
    CeilingIs(a, c, q);
    MulLess(q - 1, c, h, a);
    MulAtMost(a, h, q, c);
    if w > q * h { MulMono(q * h, w - 1, c); }
    if w <= (q - 1) * h { MulMono(w, (q - 1) * h, c); }
    CeilingIs(w, h, q);
  }

  lemma MulLess(q: int, c: nat, h: nat, a: nat)
    requires q * c < a && h > 0
    ensures q * h * c < a * h
  {
    assert (a - q * c) * h > 0;
    assert (a - q * c) * h == a * h - q * c * h;
    assert q * c * h == q * h * c;
  }

  lemma MulAtMost(a: nat, h: nat, q: nat, c: nat)
    requires a <= q * c
    ensures a * h <= q * h * c
  {
    assert (q * c - a) * h >= 0;
    assert (q * c - a) * h == q * c * h - a * h;
    assert q * c * h == q * h * c;
  }

  // ---- The image ----

  datatype Component = Component(hSamp: int, vSamp: int)

  datatype Image = Image(width: nat, height: nat, comps: seq<Component>)
  {
    predicate Ok() {
      && 1 <= width <= MAX_DIMENSION && 1 <= height <= MAX_DIMENSION && 1 <= |comps| <= MAX_COMPONENTS
      && forall c :: 0 <= c < |comps| ==> SampOk(comps[c])
    }

    function MaxH(): (m: nat)
      requires Ok()
      ensures m >= 1 && forall c :: 0 <= c < |comps| ==> comps[c].hSamp <= m
    {
      var s := HFactors(comps);
      assert forall c :: 0 <= c < |comps| ==> s[c] == comps[c].hSamp;
      Most(s)
    }

    function MaxV(): (m: nat)
      requires Ok()
      ensures m >= 1 && forall c :: 0 <= c < |comps| ==> comps[c].vSamp <= m
    {
      var s := VFactors(comps);
      assert forall c :: 0 <= c < |comps| ==> s[c] == comps[c].vSamp;
      Most(s)
    }

    /** width_in_blocks and height_in_blocks */
    function BlocksAcross(c: nat): nat
      requires Ok() && c < |comps|
    {
      DivRoundUp(width * comps[c].hSamp, MaxH() * 8)
    }

    function BlocksDown(c: nat): nat
      requires Ok() && c < |comps|
    {
      DivRoundUp(height * comps[c].vSamp, MaxV() * 8)
    }

    /** downsampled_width and downsampled_height, without scaling */
    function SamplesAcross(c: nat): nat
      requires Ok() && c < |comps|
    {
      DivRoundUp(width * comps[c].hSamp, MaxH())
    }

    function SamplesDown(c: nat): nat
      requires Ok() && c < |comps|
    {
      DivRoundUp(height * comps[c].vSamp, MaxV())
    }

    /** The number of interleaved MCUs in each direction; down, it is total_iMCU_rows. */
    function McusAcross(): nat
      requires Ok()
    {
      DivRoundUp(width, MaxH() * 8)
    }

    function McusDown(): nat
      requires Ok()
    {
      DivRoundUp(height, MaxV() * 8)
    }

    /** The dimensions of a coefficient array, padded to whole MCUs. */
    function Across(c: nat): nat
      requires Ok() && c < |comps|
    {
      RoundUp(BlocksAcross(c), comps[c].hSamp)
    }

    function Down(c: nat): nat
      requires Ok() && c < |comps|
    {
      RoundUp(BlocksDown(c), comps[c].vSamp)
    }
  }

  predicate SampOk(c: Component) {
    1 <= c.hSamp <= MAX_SAMP_FACTOR && 1 <= c.vSamp <= MAX_SAMP_FACTOR
  }

  function HFactors(comps: seq<Component>): (s: seq<int>)
    ensures |s| == |comps|
  {
    seq(|comps|, c requires 0 <= c < |comps| => comps[c].hSamp)
  }

  function VFactors(comps: seq<Component>): (s: seq<int>)
    ensures |s| == |comps|
  {
    seq(|comps|, c requires 0 <= c < |comps| => comps[c].vSamp)
  }

  /** The largest of the factors, and at least 1. */
  function Most(s: seq<int>): (m: nat)
    ensures m >= 1 && forall i :: 0 <= i < |s| ==> s[i] <= m
    ensures m == 1 || m in s
  {
    if s == [] then 1
    else
      var m := Most(s[..|s| - 1]);
      if s[|s| - 1] > m then s[|s| - 1] else m
  }

  /** The padded arrays hold exactly the blocks of the interleaved MCUs, and the last MCU of each
      row and column holds at least one real block of every component. */
  lemma PaddedSizes(img: Image, c: nat)
    requires img.Ok() && c < |img.comps|
    ensures img.McusAcross() >= 1 && img.McusDown() >= 1
    ensures img.Across(c) == img.McusAcross() * img.comps[c].hSamp
    ensures img.Down(c) == img.McusDown() * img.comps[c].vSamp
    ensures (img.McusAcross() - 1) * img.comps[c].hSamp < img.BlocksAcross(c) <= img.Across(c)
    ensures (img.McusDown() - 1) * img.comps[c].vSamp < img.BlocksDown(c) <= img.Down(c)
  {
    hide Most, DivRoundUp, RoundUp, Image.MaxH, Image.MaxV;
    assert SampOk(img.comps[c]);
    var h, v := img.comps[c].hSamp, img.comps[c].vSamp;
    NestedCeilings(img.width, img.MaxH() * 8, h);
    CeilingIs(img.BlocksAcross(c), h, img.McusAcross());
    CeilingIs(img.width, img.MaxH() * 8, img.McusAcross());
    NestedCeilings(img.height, img.MaxV() * 8, v);
    CeilingIs(img.BlocksDown(c), v, img.McusDown());
    CeilingIs(img.height, img.MaxV() * 8, img.McusDown());
  }

  lemma SomeBlocks(img: Image, c: nat)
    requires img.Ok() && c < |img.comps|
    ensures img.BlocksAcross(c) >= 1 && img.BlocksDown(c) >= 1 && SampOk(img.comps[c])
  {
    hide DivRoundUp, RoundUp, Image.MaxH, Image.MaxV, Image.McusAcross, Image.McusDown, Image.BlocksAcross,
         Image.BlocksDown;
    assert SampOk(img.comps[c]);
    PaddedSizes(img, c);
    MulMono(0, img.McusAcross() - 1, img.comps[c].hSamp);
    MulMono(0, img.McusDown() - 1, img.comps[c].vSamp);
  }

  // ---- A scan ----

  /** MCU_width, MCU_height, last_col_width and last_row_height of one component of a scan. */
  datatype ScanComp = ScanComp(comp: nat, mcuWidth: nat, mcuHeight: nat, lastColWidth: nat, lastRowHeight: nat)

  /** MCUs_per_row, MCU_rows_in_scan, the components and MCU_membership. */
  datatype ScanGeometry = ScanGeometry(mcusPerRow: nat, mcuRows: nat, comps: seq<ScanComp>, membership: seq<nat>)

  predicate Selects(img: Image, scan: seq<nat>) {
    forall k :: 0 <= k < |scan| ==> scan[k] < |img.comps|
  }

  /** How many of the real blocks are left for the last MCU, or the last interleaved MCU row. */
  function Leftover(blocks: nat, mcus: nat, size: nat): (r: int) {
    blocks - (mcus - 1) * size
  }

  function CompOf(img: Image, c: nat, interleaved: bool): (sc: ScanComp)
    requires img.Ok() && c < |img.comps|
    ensures sc.comp == c && 1 <= sc.mcuWidth && 1 <= sc.mcuHeight
    ensures 1 <= sc.lastColWidth <= sc.mcuWidth && 1 <= sc.lastRowHeight <= img.comps[c].vSamp
    ensures sc.lastRowHeight == Leftover(img.BlocksDown(c), img.McusDown(), img.comps[c].vSamp)
    ensures interleaved ==> sc.mcuWidth == img.comps[c].hSamp && sc.mcuHeight == img.comps[c].vSamp
    ensures interleaved ==> sc.lastColWidth == Leftover(img.BlocksAcross(c), img.McusAcross(), img.comps[c].hSamp)
    ensures !interleaved ==> sc.mcuWidth == sc.mcuHeight == sc.lastColWidth == 1
  {
    PaddedSizes(img, c);
    assert SampOk(img.comps[c]);
    LeftoverSmall(img.BlocksDown(c), img.McusDown(), img.comps[c].vSamp);
    LeftoverSmall(img.BlocksAcross(c), img.McusAcross(), img.comps[c].hSamp);
    var down := Leftover(img.BlocksDown(c), img.McusDown(), img.comps[c].vSamp);
    var across := Leftover(img.BlocksAcross(c), img.McusAcross(), img.comps[c].hSamp);
    if interleaved then ScanComp(c, img.comps[c].hSamp, img.comps[c].vSamp, across, down)
    else ScanComp(c, 1, 1, 1, down)
  }

  lemma LeftoverSmall(blocks: nat, mcus: nat, size: nat)
    requires mcus >= 1 && (mcus - 1) * size < blocks <= mcus * size
    ensures 1 <= Leftover(blocks, mcus, size) <= size
  {
    assert mcus * size == (mcus - 1) * size + size;
  }

  /** The remainder, with a full group in place of none. */
  lemma LeftoverIs(blocks: nat, mcus: nat, size: nat)
    requires mcus >= 1 && size >= 1 && (mcus - 1) * size < blocks <= mcus * size
    ensures Leftover(blocks, mcus, size) == if blocks % size == 0 then size else blocks % size
  {
    LeftoverSmall(blocks, mcus, size);
    var r := Leftover(blocks, mcus, size);
    if r < size { DivMod(mcus - 1, size, r); }
    else { assert blocks == mcus * size; DivMod(mcus, size, 0); }
  }

  function CompsOf(img: Image, scan: seq<nat>): (comps: seq<ScanComp>)
    requires img.Ok() && Selects(img, scan)
    ensures |comps| == |scan|
  {
    seq(|scan|, k requires 0 <= k < |scan| => CompOf(img, scan[k], |scan| > 1))
  }

  function McuSize(sc: ScanComp): nat {
    sc.mcuWidth * sc.mcuHeight
  }

  /** Which component of the scan each block of an MCU belongs to. */
  function Membership(comps: seq<ScanComp>): (m: seq<nat>)
    ensures forall j :: 0 <= j < |m| ==> m[j] < |comps|
  {
    if comps == [] then [] else Membership(comps[..|comps| - 1]) + seq(McuSize(comps[|comps| - 1]), _ => |comps| - 1)
  }

  function GeometryOf(img: Image, scan: seq<nat>): (g: ScanGeometry)
    requires img.Ok() && Selects(img, scan) && scan != []
  {
    var comps := CompsOf(img, scan);
    if |scan| == 1 then ScanGeometry(img.BlocksAcross(scan[0]), img.BlocksDown(scan[0]), comps, Membership(comps))
    else ScanGeometry(img.McusAcross(), img.McusDown(), comps, Membership(comps))
  }

  predicate Scannable(img: Image, scan: seq<nat>)
    requires img.Ok() && Selects(img, scan)
  {
    1 <= |scan| <= MAX_COMPS_IN_SCAN && (|scan| == 1 || |Membership(CompsOf(img, scan))| <= MAX_BLOCKS_IN_MCU)
  }

  /** The blocks of an interleaved MCU: the sampling factors of each component multiplied. */
  function BlocksIn(img: Image, scan: seq<nat>): nat
    requires img.Ok() && Selects(img, scan)
  {
    if scan == [] then 0
    else
      var n := |scan| - 1;
      SampFits(img, scan[n]);
      BlocksIn(img, scan[..n]) + SampArea(img.comps[scan[n]])
  }

  function SampArea(c: Component): nat
    requires SampOk(c)
  {
    var h: nat, v: nat := c.hSamp, c.vSamp;
    h * v
  }

  lemma {:induction false} BlocksCounted(img: Image, scan: seq<nat>, k: nat)
    requires img.Ok() && Selects(img, scan) && k <= |scan| && |scan| > 1
    ensures |Membership(CompsOf(img, scan)[..k])| == BlocksIn(img, scan[..k])
  {
    hide Image.Ok;
    var all := CompsOf(img, scan);
    if k > 0 {
      BlocksCounted(img, scan, k - 1);
      assert all[..k][..k - 1] == all[..k - 1] && scan[..k][..k - 1] == scan[..k - 1];
      SampFits(img, scan[k - 1]);
    }
  }

  lemma {:induction false} ScanLimits(img: Image, scan: seq<nat>)
    requires img.Ok() && Selects(img, scan)
    ensures Scannable(img, scan) <==> 1 <= |scan| <= 4 && (|scan| == 1 || BlocksIn(img, scan) <= 10)
  {
    hide Image.Ok, CompsOf, BlocksIn;
    if |scan| > 1 {
      BlocksCounted(img, scan, |scan|);
      assert CompsOf(img, scan)[..|scan|] == CompsOf(img, scan) && scan[..|scan|] == scan;
    }
  }

  lemma {:induction false} MembershipGrows(comps: seq<ScanComp>, k: nat)
    requires k <= |comps|
    ensures |Membership(comps[..k])| <= |Membership(comps)|
  {
    if k < |comps| {
      MembershipGrows(comps[..|comps| - 1], k);
      assert comps[..|comps| - 1][..k] == comps[..k];
    } else {
      assert comps[..k] == comps;
    }
  }

  lemma MostNone(s: seq<int>)
    ensures Most(s[..0]) == 1
  {}

  lemma {:induction false} MostNext(s: seq<int>, i: nat)
    requires i < |s|
    ensures Most(s[..i + 1]) == if s[i] > Most(s[..i]) then s[i] else Most(s[..i])
  {
    assert s[..i + 1][..i] == s[..i];
  }

  /** The maximum sampling factors, with the check of every factor. */
  method MaxFactors(samp: seq<Component>) returns (ok: bool, maxH: nat, maxV: nat)
    ensures ok <==> forall c :: 0 <= c < |samp| ==> SampOk(samp[c])
    ensures ok ==> maxH == Most(HFactors(samp)) && maxV == Most(VFactors(samp))
  {
    hide Most;
    ok, maxH, maxV := false, 1, 1;
    ghost var hs, vs := HFactors(samp), VFactors(samp);
    MostNone(hs);
    MostNone(vs);
    for ci := 0 to |samp|
      invariant maxH == Most(hs[..ci]) && maxV == Most(vs[..ci])
      invariant forall c :: 0 <= c < ci ==> SampOk(samp[c])
    {
      MostNext(hs, ci);
      MostNext(vs, ci);
      if samp[ci].hSamp <= 0 || samp[ci].hSamp > MAX_SAMP_FACTOR || samp[ci].vSamp <= 0
        || samp[ci].vSamp > MAX_SAMP_FACTOR {
        assert !SampOk(samp[ci]);
        return;
      }
      maxH := if samp[ci].hSamp > maxH then samp[ci].hSamp else maxH;
      maxV := if samp[ci].vSamp > maxV then samp[ci].vSamp else maxV;
    }
    assert hs[..|samp|] == hs && vs[..|samp|] == vs;
    ok := true;
  }

  /** The dimensions of a component: in blocks and in samples. */
  datatype CompSize = CompSize(width_in_blocks: nat, height_in_blocks: nat,
                               downsampled_width: nat, downsampled_height: nat)

  function SizeOf(img: Image, c: nat): CompSize
    requires img.Ok() && c < |img.comps|
  {
    CompSize(img.BlocksAcross(c), img.BlocksDown(c), img.SamplesAcross(c), img.SamplesDown(c))
  }

  /** The blocks are as many as the samples call for, although each size is rounded up on its own. */
  lemma BlocksCoverSamples(img: Image, c: nat)
    requires img.Ok() && c < |img.comps|
    ensures img.BlocksAcross(c) == DivRoundUp(img.SamplesAcross(c), 8)
    ensures img.BlocksDown(c) == DivRoundUp(img.SamplesDown(c), 8)
  {
    hide DivRoundUp, Image.MaxH, Image.MaxV;
    SampFits(img, c);
    NestedRounding(img.width * img.comps[c].hSamp, img.MaxH(), 8);
    NestedRounding(img.height * img.comps[c].vSamp, img.MaxV(), 8);
  }

  lemma NestedRounding(a: nat, b: nat, c: nat)
    requires b > 0 && c > 0
    ensures DivRoundUp(a, b * c) == DivRoundUp(DivRoundUp(a, b), c)
  {
    hide DivRoundUp;
    MulMono(1, b, c);
    var n, q := DivRoundUp(a, b), DivRoundUp(DivRoundUp(a, b), c);
    CeilingIs(a, b, n);
    CeilingIs(n, c, q);
    NestedBounds(a, b, c, n, q);
    CeilingIs(a, b * c, q);
  }

  lemma NestedBounds(a: int, b: nat, c: nat, n: int, q: int)
    requires (n - 1) * b < a <= n * b && (q - 1) * c < n <= q * c
    ensures (q - 1) * (b * c) < a <= q * (b * c)
  {
    MulMono(n, q * c, b);
    MulMono((q - 1) * c, n - 1, b);
    Regroup(q, c, b);
    Regroup(q - 1, c, b);
  }

  lemma Regroup(x: int, y: int, z: int)
    ensures x * y * z == x * (z * y)
  {}

  method ComponentSize(img: Image, c: nat, maxH: nat, maxV: nat) returns (size: CompSize)
    requires img.Ok() && c < |img.comps| && maxH == img.MaxH() && maxV == img.MaxV()
    ensures size == SizeOf(img, c)
  {
    hide DivRoundUp, Image.MaxH, Image.MaxV;
    assert SampOk(img.comps[c]);
    var h, v := img.comps[c].hSamp, img.comps[c].vSamp;
    size := CompSize(DivRoundUp(img.width * h, maxH * 8), DivRoundUp(img.height * v, maxV * 8),
      DivRoundUp(img.width * h, maxH), DivRoundUp(img.height * v, maxV));
  }

  /** "Width of an input scanline must be representable as JDIMENSION", a 32-bit type. */
  predicate RowFits(width: int, input_components: int) {
    width * input_components < 0x1_0000_0000
  }

  /** initial_setup: it fails exactly when the parameters are not those of an image, or a row of input samples
      does not fit; otherwise all components have their sizes. */
  method InitialSetup(width: int, height: int, input_components: int, precision: int, samp: seq<Component>)
    returns (r: Option<Image>, maxH: nat, maxV: nat, sizes: seq<CompSize>, rows: nat)
    ensures r.Some? <==>
      && precision == 8 && 1 <= width <= 65500 && 1 <= height <= 65500 && 1 <= |samp| <= 10
      && (forall c :: 0 <= c < |samp| ==> 1 <= samp[c].hSamp <= 4 && 1 <= samp[c].vSamp <= 4)
      && input_components > 0 && RowFits(width, input_components)
    ensures r.Some? ==> r.value == Image(width, height, samp) && maxH == r.value.MaxH() && maxV == r.value.MaxV()
    ensures r.Some? ==> |sizes| == |samp| && rows == r.value.McusDown()
    ensures r.Some? ==> forall c :: 0 <= c < |samp| ==>
      && sizes[c] == SizeOf(r.value, c)
      && sizes[c].width_in_blocks == DivRoundUp(sizes[c].downsampled_width, 8)
      && sizes[c].height_in_blocks == DivRoundUp(sizes[c].downsampled_height, 8)
  {
    r, maxH, maxV, sizes, rows := None, 1, 1, [], 0;
    if height <= 0 || width <= 0 || |samp| == 0 || input_components <= 0 {
      return;
    }
    if height > MAX_DIMENSION || width > MAX_DIMENSION {
      return;
    }
    var samplesperrow := width * input_components;
    var jd_samplesperrow := samplesperrow % 0x1_0000_0000;
    assert samplesperrow > 0;
    if jd_samplesperrow != samplesperrow {
      return;
    }
    if precision != 8 || |samp| > MAX_COMPONENTS {
      return;
    }
    var ok: bool;
    ok, maxH, maxV := MaxFactors(samp);
    if !ok {
      return;
    }
    ghost var img := Image(width, height, samp);
    assert img.Ok() && maxH == img.MaxH() && maxV == img.MaxV();
    hide Most, Image.MaxH, Image.MaxV, Image.Ok, DivRoundUp, SizeOf, RowFits;
    for ci := 0 to |samp|
      invariant |sizes| == ci && forall c :: 0 <= c < ci ==> sizes[c] == SizeOf(img, c)
    {
      var size := ComponentSize(Image(width, height, samp), ci, maxH, maxV);
      sizes := sizes + [size];
    }
    AllCovered(img);
    rows := DivRoundUp(height, maxV * 8);
    r := Some(Image(width, height, samp));
  }

  lemma AllCovered(img: Image)
    requires img.Ok()
    ensures forall c :: 0 <= c < |img.comps| ==>
      && SizeOf(img, c).width_in_blocks == DivRoundUp(SizeOf(img, c).downsampled_width, 8)
      && SizeOf(img, c).height_in_blocks == DivRoundUp(SizeOf(img, c).downsampled_height, 8)
  {
    hide DivRoundUp, Image.Ok, Image.MaxH, Image.MaxV;
    forall c | 0 <= c < |img.comps|
      ensures SizeOf(img, c).width_in_blocks == DivRoundUp(SizeOf(img, c).downsampled_width, 8)
      ensures SizeOf(img, c).height_in_blocks == DivRoundUp(SizeOf(img, c).downsampled_height, 8)
    {
      BlocksCoverSamples(img, c);
    }
  }

  /** per_scan_setup: it fails exactly when the scan has too few or too many components or blocks; otherwise MCU
      sizes, leftovers and membership are those of the scan's geometry, and a restart interval given in rows has
      been converted to MCUs, limited to 16 bits. */
  method PerScanSetup(img: Image, scan: seq<nat>, restart_in_rows: int, restart_interval: nat)
    returns (r: Option<ScanGeometry>, interval: nat)
    requires img.Ok() && Selects(img, scan)
    ensures r.Some? <==> 1 <= |scan| <= 4 && (|scan| == 1 || BlocksIn(img, scan) <= 10)
    ensures r.Some? ==> r.value == GeometryOf(img, scan)
    ensures r.Some? && restart_in_rows > 0 && restart_in_rows * r.value.mcusPerRow < 65536 ==>
      interval == restart_in_rows * r.value.mcusPerRow
    ensures r.Some? && restart_in_rows > 0 && restart_in_rows * r.value.mcusPerRow >= 65536 ==> interval == 65535
    ensures r.Some? && restart_in_rows <= 0 ==> interval == restart_interval
  {
    hide GeometryOf, Scannable, BlocksIn;
    ScanLimits(img, scan);
    interval := restart_interval;
    r := ScanSetup(img, scan);
    if r.None? {
      return;
    }
    if restart_in_rows > 0 {
      var nominal := restart_in_rows * r.value.mcusPerRow;
      interval := if nominal < 65535 then nominal else 65535;
    }
  }

  /** A scan of one component: MCUs of one block. */
  method SingleSetup(img: Image, scan: seq<nat>) returns (g: ScanGeometry)
    requires img.Ok() && Selects(img, scan) && |scan| == 1
    ensures g == GeometryOf(img, scan)
  {
    hide RoundUp, DivRoundUp, Leftover, Image.Ok;
    var c := scan[0];
    var v := img.comps[c].vSamp;
    PaddedSizes(img, c);
    SampFits(img, c);
    LeftoverIs(img.BlocksDown(c), img.McusDown(), v);
    var tmp := img.BlocksDown(c) % v;
    if tmp == 0 {
      tmp := v;
    }
    var comps := [ScanComp(c, 1, 1, 1, tmp)];
    assert comps == CompsOf(img, scan);
    assert Membership(comps) == [0] by { assert comps[..0] == []; }
    g := ScanGeometry(img.BlocksAcross(c), img.BlocksDown(c), comps, [0]);
  }

  /** Geometry and membership. */
  method ScanSetup(img: Image, scan: seq<nat>) returns (r: Option<ScanGeometry>)
    requires img.Ok() && Selects(img, scan)
    ensures r.Some? <==> Scannable(img, scan)
    ensures r.Some? ==> r.value == GeometryOf(img, scan)
  {
    hide RoundUp, DivRoundUp, Leftover, Image.Ok;
    if |scan| == 1 {
      var g := SingleSetup(img, scan);
      return Some(g);
    }
    r := None;
    if |scan| <= 0 || |scan| > MAX_COMPS_IN_SCAN {
      return;
    }
    var comps: seq<ScanComp>, membership: seq<nat> := [], [];
    ghost var all := CompsOf(img, scan);
    for ci := 0 to |scan|
      invariant comps == all[..ci] && membership == Membership(comps) && |membership| <= MAX_BLOCKS_IN_MCU
    {
      var c := scan[ci];
      var sc := PerComponentSetup(img, c);
      assert sc == all[ci];
      comps := comps + [sc];
      assert comps == all[..ci + 1] && comps[..ci] == all[..ci];
      if |membership| + McuSize(sc) > MAX_BLOCKS_IN_MCU {
        MembershipGrows(all, ci + 1);
        return;
      }
      membership := membership + seq(McuSize(sc), _ => ci);
    }
    assert comps == all;
    r := Some(ScanGeometry(img.McusAcross(), img.McusDown(), comps, membership));
  }

  lemma SampFits(img: Image, c: nat)
    requires img.Ok() && c < |img.comps|
    ensures SampOk(img.comps[c])
  {}

  /** One component of an interleaved scan. */
  method PerComponentSetup(img: Image, c: nat) returns (sc: ScanComp)
    requires img.Ok() && c < |img.comps|
    ensures sc == CompOf(img, c, true)
  {
    assert SampOk(img.comps[c]);
    PaddedSizes(img, c);
    var h, v := img.comps[c].hSamp, img.comps[c].vSamp;
    LeftoverIs(img.BlocksAcross(c), img.McusAcross(), h);
    LeftoverIs(img.BlocksDown(c), img.McusDown(), v);
    var tmp := img.BlocksAcross(c) % h;
    if tmp == 0 {
      tmp := h;
    }
    var lastColWidth := tmp;
    tmp := img.BlocksDown(c) % v;
    if tmp == 0 {
      tmp := v;
    }
    sc := ScanComp(c, h, v, lastColWidth, tmp);
  }
}
