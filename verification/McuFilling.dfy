/** The MCUs that an encoder sees, padding blocks included, and how the counters of a coefficient
    controller address them. */
module McuFilling {
  import opened Coefficients
  import opened Frames
  import opened McuGeometry
  import opened McuLayout
  import opened DummyBlocks

  // ---- Counters ----

  /** MCU_rows_per_iMCU_row */
  function RowsIn(img: Image, scan: seq<nat>, r: nat): (n: nat)
    requires img.Ok() && Selects(img, scan) && scan != []
    ensures n >= 1
  {
    var sc := CompOf(img, scan[0], |scan| > 1);
    SomeBlocks(img, scan[0]);
    if |scan| > 1 then 1 else if r < img.McusDown() - 1 then img.comps[scan[0]].vSamp else sc.lastRowHeight
  }

  /** The MCU row at which an interleaved MCU row starts. */
  function RowStart(img: Image, scan: seq<nat>, r: nat): nat
    requires img.Ok() && Selects(img, scan) && scan != []
  {
    SomeBlocks(img, scan[0]);
    if |scan| > 1 then r else if r < img.McusDown() then Mixed(r, img.comps[scan[0]].vSamp, 0)
      else img.BlocksDown(scan[0])
  }

  /** The rows of all interleaved MCU rows make up the rows of the scan. */
  lemma RowsAddUp(img: Image, scan: seq<nat>, r: nat)
    requires img.Ok() && Selects(img, scan) && scan != [] && r < img.McusDown()
    ensures RowStart(img, scan, r) + RowsIn(img, scan, r) == RowStart(img, scan, r + 1)
    ensures RowStart(img, scan, r + 1) <= GeometryOf(img, scan).mcuRows
    ensures RowStart(img, scan, img.McusDown()) == GeometryOf(img, scan).mcuRows
    ensures RowStart(img, scan, 0) == 0
  {
    hide Image.Ok, Image.Across, Image.Down, Image.BlocksDown, Image.BlocksAcross, Image.McusDown, Image.McusAcross,
         Membership;
    PaddedSizes(img, scan[0]);
    SomeBlocks(img, scan[0]);
    var v := img.comps[scan[0]].vSamp;
    assert (r + 1) * v == r * v + v;
    MulMono(r, img.McusDown() - 1, v);
    if r + 1 < img.McusDown() { MulMono(r + 1, img.McusDown() - 1, v); }
  }

  /** A place in the loops of a controller: component k of the scan, MCU column X, and the offsets
      within the MCU. */
  ghost predicate Spot(img: Image, scan: seq<nat>, k: nat, r: nat, yoffset: nat, X: nat, y: nat, x: nat) {
    && img.Ok() && Selects(img, scan) && k < |scan| && r < img.McusDown() && yoffset < RowsIn(img, scan, r)
    && X < GeometryOf(img, scan).mcusPerRow
    && y < CompsOf(img, scan)[k].mcuHeight && x < CompsOf(img, scan)[k].mcuWidth
  }

  lemma SpotFacts(img: Image, scan: seq<nat>, k: nat, r: nat, yoffset: nat, X: nat, y: nat, x: nat)
    requires Spot(img, scan, k, r, yoffset, X, y, x)
    ensures img.Ok() && Selects(img, scan) && k < |scan| && r < img.McusDown() && X < GeometryOf(img, scan).mcusPerRow
    ensures img.comps[scan[k]].vSamp >= 1 && CompsOf(img, scan)[k].comp == scan[k]
  {
    hide RowsIn, GeometryOf, Image.McusDown;
    SomeBlocks(img, scan[k]);
  }

  lemma SpotRow(img: Image, scan: seq<nat>, k: nat, r: nat, yoffset: nat, X: nat, y: nat, x: nat)
    requires Spot(img, scan, k, r, yoffset, X, y, x)
    ensures RowStart(img, scan, r) + yoffset < GeometryOf(img, scan).mcuRows && y + yoffset < img.comps[scan[k]].vSamp
    ensures Mixed(RowStart(img, scan, r) + yoffset, CompsOf(img, scan)[k].mcuHeight, y) ==
      Mixed(r, img.comps[scan[k]].vSamp, y + yoffset)
    ensures Mixed(r, img.comps[scan[k]].vSamp, y + yoffset) < img.Down(scan[k])
  {
    hide Image.Ok, Image.Across, Image.Down, Image.BlocksDown, Image.BlocksAcross, Image.McusDown, Image.McusAcross,
         Membership;
    PaddedSizes(img, scan[k]);
    SomeBlocks(img, scan[k]);
    RowsAddUp(img, scan, r);
    MixedBound(r, img.comps[scan[k]].vSamp, y + yoffset, img.McusDown());
  }

  /** Block rows are counted within an interleaved MCU row, or within an MCU: it is the same. */
  lemma SpotPlace(img: Image, scan: seq<nat>, k: nat, r: nat, yoffset: nat, X: nat, y: nat, x: nat)
    requires Spot(img, scan, k, r, yoffset, X, y, x)
    ensures var sc := CompsOf(img, scan)[k];
      var R, n := RowStart(img, scan, r) + yoffset, Mixed(y, sc.mcuWidth, x);
      && R < GeometryOf(img, scan).mcuRows && n < McuSize(sc) && y + yoffset < img.comps[scan[k]].vSamp
      && RowOf(sc, R, n) == Mixed(r, img.comps[scan[k]].vSamp, y + yoffset) < img.Down(scan[k])
      && ColOf(sc, X, n) == Mixed(X, sc.mcuWidth, x) < img.Across(scan[k])
  {
    hide Image.Ok, Image.Across, Image.Down, Image.McusDown, RowsIn, RowStart, GeometryOf, CompsOf;
    SpotRow(img, scan, k, r, yoffset, X, y, x);
    SpotCol(img, scan, k, X, y, x);
  }

  lemma SpotCol(img: Image, scan: seq<nat>, k: nat, X: nat, y: nat, x: nat)
    requires img.Ok() && Selects(img, scan) && k < |scan| && X < GeometryOf(img, scan).mcusPerRow
    requires y < CompsOf(img, scan)[k].mcuHeight && x < CompsOf(img, scan)[k].mcuWidth
    ensures var sc := CompsOf(img, scan)[k];
      var n := Mixed(y, sc.mcuWidth, x);
      && n / sc.mcuWidth == y && n % sc.mcuWidth == x && n < McuSize(sc)
         && Mixed(X, sc.mcuWidth, x) < img.Across(scan[k])
  {
    hide Image.Ok, Image.Across, Image.Down, Image.BlocksDown, Image.BlocksAcross, Image.McusDown, Image.McusAcross,
         Membership;
    var sc := CompsOf(img, scan)[k];
    PaddedSizes(img, scan[k]);
    DivMod(y, sc.mcuWidth, x);
    MixedBound(y, sc.mcuWidth, x, sc.mcuHeight);
    MixedBound(X, sc.mcuWidth, x, GeometryOf(img, scan).mcusPerRow);
  }

  /** The tests of the controllers find exactly the real blocks. */
  lemma SpotReal(img: Image, scan: seq<nat>, k: nat, r: nat, yoffset: nat, X: nat, y: nat, x: nat)
    requires Spot(img, scan, k, r, yoffset, X, y, x)
    ensures var sc := CompsOf(img, scan)[k];
      var blockcnt := if X < GeometryOf(img, scan).mcusPerRow - 1 then sc.mcuWidth else sc.lastColWidth;
      (Real(img, scan[k], Mixed(r, img.comps[scan[k]].vSamp, y + yoffset), Mixed(X, sc.mcuWidth, x)) <==>
       (r < img.McusDown() - 1 || y + yoffset < sc.lastRowHeight) && x < blockcnt)
  {
    hide Image.Ok, Image.Across, Image.Down, Image.BlocksDown, Image.BlocksAcross, Image.McusDown, Image.McusAcross,
         Membership;
    var c, sc := scan[k], CompsOf(img, scan)[k];
    SpotPlace(img, scan, k, r, yoffset, X, y, x);
    PaddedSizes(img, c);
    SomeBlocks(img, c);
    ReachesInto(r, img.comps[c].vSamp, y + yoffset, img.McusDown(), img.BlocksDown(c));
    if |scan| > 1 { ReachesInto(X, sc.mcuWidth, x, img.McusAcross(), img.BlocksAcross(c)); }
  }

  /** Which members of the groups of m cover n items, the last group being partly filled. */
  lemma ReachesInto(q: nat, m: nat, r: nat, groups: nat, n: nat)
    requires q < groups && r < m && (groups - 1) * m < n <= groups * m
    ensures Mixed(q, m, r) < n <==> q < groups - 1 || r < Leftover(n, groups, m)
  {
    if q < groups - 1 { MixedBound(q, m, r, groups - 1); }
  }

  // ---- The MCUs ----

  lemma CompInside(img: Image, sc: ScanComp, R: nat, X: nat, n: nat)
    requires img.Ok() && sc.comp < |img.comps| && sc.mcuWidth >= 1 && n < McuSize(sc)
    requires (X + 1) * sc.mcuWidth <= img.Across(sc.comp) && (R + 1) * sc.mcuHeight <= img.Down(sc.comp)
    ensures RowOf(sc, R, n) < img.Down(sc.comp) && ColOf(sc, X, n) < img.Across(sc.comp)
  {
    hide Image.Across, Image.Down, Image.Ok;
    InnerPlace(n, sc.mcuWidth, sc.mcuHeight);
    Apart(X, X + 1, sc.mcuWidth);
    Apart(R, R + 1, sc.mcuHeight);
  }

  ghost predicate Inside(img: Image, sc: ScanComp, R: nat, X: nat)
    requires img.Ok()
  {
    && sc.comp < |img.comps| && sc.mcuWidth >= 1
    && (X + 1) * sc.mcuWidth <= img.Across(sc.comp) && (R + 1) * sc.mcuHeight <= img.Down(sc.comp)
  }

  /** The blocks of one component of an MCU. */
  ghost function CompFill(img: Image, f: Frame, sc: ScanComp, R: nat, X: nat): (s: seq<Block>)
    requires img.Ok() && FrameFor(img, f) && Inside(img, sc, R, X)
    ensures |s| == McuSize(sc)
  {
    seq(McuSize(sc), n requires 0 <= n < McuSize(sc) =>
      (CompInside(img, sc, R, X, n); FilledBlock(img, f, sc.comp, RowOf(sc, R, n), ColOf(sc, X, n))))
  }

  lemma CompFillAt(img: Image, f: Frame, sc: ScanComp, R: nat, X: nat, n: nat, row: nat, col: nat)
    requires img.Ok() && FrameFor(img, f) && Inside(img, sc, R, X) && n < McuSize(sc) && row == RowOf(sc, R, n)
      && col == ColOf(sc, X, n)
    ensures row < img.Down(sc.comp) && col < img.Across(sc.comp)
      && CompFill(img, f, sc, R, X)[n] == FilledBlock(img, f, sc.comp, row, col)
  {
    hide Image.Ok, Image.Across, Image.Down, RowOf, ColOf, FilledBlock, FrameFor;
    CompInside(img, sc, R, X, n);
  }

  ghost function McuFill(img: Image, f: Frame, comps: seq<ScanComp>, R: nat, X: nat): (s: seq<Block>)
    requires img.Ok() && FrameFor(img, f) && forall k :: 0 <= k < |comps| ==> Inside(img, comps[k], R, X)
    ensures |s| == |Membership(comps)|
  {
    if comps == [] then []
    else McuFill(img, f, comps[..|comps| - 1], R, X) + CompFill(img, f, comps[|comps| - 1], R, X)
  }

  lemma GeometryInside(img: Image, scan: seq<nat>, k: nat, R: nat, X: nat)
    requires img.Ok() && Selects(img, scan) && k < |scan|
    requires R < GeometryOf(img, scan).mcuRows && X < GeometryOf(img, scan).mcusPerRow
    ensures Inside(img, CompsOf(img, scan)[k], R, X)
  {
    hide Image.Ok, Image.Across, Image.Down, Image.BlocksDown, Image.BlocksAcross, Image.McusDown, Image.McusAcross,
         Membership;
    var sc := CompsOf(img, scan)[k];
    PaddedSizes(img, scan[k]);
    MulMono(X + 1, GeometryOf(img, scan).mcusPerRow, sc.mcuWidth);
    MulMono(R + 1, GeometryOf(img, scan).mcuRows, sc.mcuHeight);
  }

  /** A real block is taken from the arrays. */
  lemma RealBlock(img: Image, f: Frame, scan: seq<nat>, k: nat, r: nat, yoffset: nat, X: nat, y: nat, x: nat)
    requires Spot(img, scan, k, r, yoffset, X, y, x) && FrameFor(img, f)
    requires Real(img, scan[k], Mixed(r, img.comps[scan[k]].vSamp, y + yoffset),
      Mixed(X, CompsOf(img, scan)[k].mcuWidth, x))
    ensures var sc := CompsOf(img, scan)[k];
      var R, n := RowStart(img, scan, r) + yoffset, Mixed(y, sc.mcuWidth, x);
      && Inside(img, sc, R, X) && n < McuSize(sc)
      && Mixed(r, img.comps[scan[k]].vSamp, y + yoffset) < img.Down(scan[k])
         && Mixed(X, sc.mcuWidth, x) < img.Across(scan[k])
      && CompFill(img, f, sc, R, X)[n] ==
         BlockAt(img, f, scan[k], Mixed(r, img.comps[scan[k]].vSamp, y + yoffset), Mixed(X, sc.mcuWidth, x))
  {
    hide Image.Ok, Image.Across, Image.Down, Image.BlocksDown, Image.BlocksAcross, Image.McusDown, Image.McusAcross,
         Membership, RowStart, BlockAt;
    SpotPlace(img, scan, k, r, yoffset, X, y, x);
    GeometryInside(img, scan, k, RowStart(img, scan, r) + yoffset, X);
  }

  /** The block before block (y, x) of a component within the MCU. */
  lemma BlockBefore(img: Image, f: Frame, scan: seq<nat>, k: nat, r: nat, yoffset: nat, X: nat, y: nat, x: nat, n: nat)
    requires Spot(img, scan, k, r, yoffset, X, y, x) && FrameFor(img, f)
      && n == Mixed(y, CompsOf(img, scan)[k].mcuWidth, x)
    ensures var sc, R := CompsOf(img, scan)[k], RowStart(img, scan, r) + yoffset;
      var row, col := Mixed(r, img.comps[scan[k]].vSamp, y + yoffset), Mixed(X, sc.mcuWidth, x);
      && Inside(img, sc, R, X) && n < McuSize(sc) && row < img.Down(scan[k]) && col < img.Across(scan[k])
      && CompFill(img, f, sc, R, X)[n] == FilledBlock(img, f, scan[k], row, col)
  {
    hide Spot, Image.Ok, Image.Across, Image.Down, Image.McusDown, Membership, RowStart, RowsIn, GeometryOf, CompsOf,
         FilledBlock, CompFill, Inside, FrameFor, Mixed;
    SpotFacts(img, scan, k, r, yoffset, X, y, x);
    SpotPlace(img, scan, k, r, yoffset, X, y, x);
    GeometryInside(img, scan, k, RowStart(img, scan, r) + yoffset, X);
    CompFillAt(img, f, CompsOf(img, scan)[k], RowStart(img, scan, r) + yoffset, X, n,
               Mixed(r, img.comps[scan[k]].vSamp, y + yoffset), Mixed(X, CompsOf(img, scan)[k].mcuWidth, x));
  }

  /** A padding block follows another block of its component, whose DC value it repeats. */
  lemma PaddingBlock(img: Image, f: Frame, scan: seq<nat>, k: nat, r: nat, yoffset: nat, X: nat, y: nat, x: nat)
    requires Spot(img, scan, k, r, yoffset, X, y, x) && FrameFor(img, f)
    requires !Real(img, scan[k], Mixed(r, img.comps[scan[k]].vSamp, y + yoffset),
      Mixed(X, CompsOf(img, scan)[k].mcuWidth, x))
    ensures var sc := CompsOf(img, scan)[k];
      var R, n := RowStart(img, scan, r) + yoffset, Mixed(y, sc.mcuWidth, x);
      && |scan| > 1 && Inside(img, sc, R, X) && 0 < n < McuSize(sc)
      && CompFill(img, f, sc, R, X)[n] == DcOnly(CompFill(img, f, sc, R, X)[n - 1][0])
  {
    hide Image.Ok, Image.Across, Image.Down, Image.BlocksDown, Image.BlocksAcross, Image.McusDown, Image.McusAcross,
         Membership, RowStart, BlockAt, FilledBlock, CompFill, Inside, Mixed;
    PaddingInterleaved(img, scan, k, r, yoffset, X, y, x);
    var c, w, v := scan[k], CompsOf(img, scan)[k].mcuWidth, img.comps[scan[k]].vSamp;
    BlockBefore(img, f, scan, k, r, yoffset, X, y, x, Mixed(y, w, x));
    if x > 0 {
      MixedNext(y, w, x);
      MixedNext(X, w, x);
      BlockBefore(img, f, scan, k, r, yoffset, X, y, x - 1, Mixed(y, w, x) - 1);
      PaddingInRow(img, f, c, Mixed(r, v, y + yoffset), X, x);
    } else {
      PaddingBelow(img, c, Mixed(r, v, y + yoffset), X);
      PaddingGroup(img, f, c, Mixed(r, v, y + yoffset), X, 0);
      MixedCarry(y, w);
      MixedNext(r, v, y);
      BlockBefore(img, f, scan, k, r, yoffset, X, y - 1, w - 1, Mixed(y, w, 0) - 1);
    }
  }

  lemma MixedNext(q: nat, m: nat, r: nat)
    requires r > 0
    ensures Mixed(q, m, r - 1) == Mixed(q, m, r) - 1
  {}

  lemma MixedCarry(q: nat, m: nat)
    requires q > 0 && m > 0
    ensures Mixed(q, m, 0) > 0 && Mixed(q - 1, m, m - 1) == Mixed(q, m, 0) - 1
  {
    Apart(0, q, m);
    assert q * m == (q - 1) * m + m;
  }

  /** Only interleaved scans have padding blocks, and the first block of a component is none. */
  lemma PaddingInterleaved(img: Image, scan: seq<nat>, k: nat, r: nat, yoffset: nat, X: nat, y: nat, x: nat)
    requires Spot(img, scan, k, r, yoffset, X, y, x)
    requires !Real(img, scan[k], Mixed(r, img.comps[scan[k]].vSamp, y + yoffset),
      Mixed(X, CompsOf(img, scan)[k].mcuWidth, x))
    ensures |scan| > 1 && yoffset == 0 && X < img.McusAcross() && (x == 0 ==> y > 0) && SampOk(img.comps[scan[k]])
    ensures CompsOf(img, scan)[k].mcuWidth == img.comps[scan[k]].hSamp
  {
    hide Image.Ok, Image.Across, Image.Down, Image.BlocksDown, Image.BlocksAcross, Image.McusDown, Image.McusAcross,
         Membership, Mixed, Real;
    SomeBlocks(img, scan[k]);
    SpotReal(img, scan, k, r, yoffset, X, y, x);
  }

  /** The MCUs of the whole scan. */
  ghost function AllMcus(img: Image, f: Frame, scan: seq<nat>): (mcus: seq<seq<Block>>)
    requires img.Ok() && FrameFor(img, f) && Selects(img, scan) && scan != [] && Distinct(scan)
  {
    var g := GeometryOf(img, scan);
    GeometryWithin(img, scan);
    TilesFit(img, g, Filled(img, f));
    Collect(ScanLayout(img, g), Filled(img, f))
  }

  lemma {:induction false} FillIs(img: Image, f: Frame, comps: seq<ScanComp>, R: nat, X: nat, j: nat)
    requires img.Ok() && FrameFor(img, f) && CompsOk(img, comps) && j < |Membership(comps)|
    requires forall k :: 0 <= k < |comps| ==> Inside(img, comps[k], R, X)
    requires In(McuBlocks(img, comps, R, X)[j], Filled(img, f))
    ensures McuFill(img, f, comps, R, X)[j] == At(Filled(img, f), McuBlocks(img, comps, R, X)[j])
  {
    hide Image.Ok, Image.Across, Image.Down, PosAt, FilledBlock, Filled;
    var last := |comps| - 1;
    var before := |Membership(comps[..last])|;
    if j < before {
      FillIs(img, f, comps[..last], R, X, j);
    } else {
      var sc, n := comps[last], j - before;
      CompInside(img, sc, R, X, n);
      FilledAt(img, f, sc.comp, RowOf(sc, R, n), ColOf(sc, X, n));
    }
  }

  /** What the controllers build for MCU number i is MCU i of the scan. */
  lemma {:induction false} McuIs(img: Image, f: Frame, scan: seq<nat>, R: nat, X: nat)
    requires img.Ok() && FrameFor(img, f) && Selects(img, scan) && scan != [] && Distinct(scan)
    requires R < GeometryOf(img, scan).mcuRows && X < GeometryOf(img, scan).mcusPerRow
    ensures var g := GeometryOf(img, scan);
      && Mixed(R, g.mcusPerRow, X) < |AllMcus(img, f, scan)| == g.mcuRows * g.mcusPerRow
      && (forall k :: 0 <= k < |g.comps| ==> Inside(img, g.comps[k], R, X))
      && AllMcus(img, f, scan)[Mixed(R, g.mcusPerRow, X)] == McuFill(img, f, g.comps, R, X)
  {
    hide Image.Ok, Image.Across, Image.Down, Image.BlocksDown, Image.BlocksAcross, Image.McusDown, Image.McusAcross,
         Membership, McuFill, McuBlocks, Filled, Within, CompsOf, Fits;
    var g := GeometryOf(img, scan);
    GeometryWithin(img, scan);
    WithinShape(img, g);
    TilesFit(img, g, Filled(img, f));
    MixedBound(R, g.mcusPerRow, X, g.mcuRows);
    DivMod(R, g.mcusPerRow, X);
    forall k | 0 <= k < |g.comps| ensures Inside(img, g.comps[k], R, X) { GeometryInside(img, scan, k, R, X); }
    var i := Mixed(R, g.mcusPerRow, X);
    assert ScanLayout(img, g)[i] == McuBlocks(img, g.comps, R, X);
    forall j | 0 <= j < |Membership(g.comps)|
      ensures AllMcus(img, f, scan)[i][j] == McuFill(img, f, g.comps, R, X)[j]
    {
      FitsAt(ScanLayout(img, g), Filled(img, f), i, j);
      FillIs(img, f, g.comps, R, X, j);
    }
  }

  lemma FitsAt(layout: Layout, f: Frame, i: nat, j: nat)
    requires Fits(layout, f) && i < |layout| && j < |layout[i]|
    ensures In(layout[i][j], f) && Collect(layout, f)[i][j] == At(f, layout[i][j])
  {}

  // ---- Building an MCU block by block ----

  ghost predicate ScanReady(img: Image, scan: seq<nat>) {
    && img.Ok() && Selects(img, scan) && Distinct(scan) && Scannable(img, scan)
  }

  /** The MCU whose place the counters r, yoffset and X give. */
  ghost predicate AtMcu(img: Image, scan: seq<nat>, r: nat, yoffset: nat, X: nat) {
    && ScanReady(img, scan) && r < img.McusDown() && yoffset < RowsIn(img, scan, r)
       && X < GeometryOf(img, scan).mcusPerRow
  }

  /** mcu holds the first k components of that MCU and n blocks of the next one. */
  ghost predicate Built(img: Image, f: Frame, scan: seq<nat>, r: nat, yoffset: nat, X: nat, mcu: seq<Block>, k: nat,
                        n: nat) {
    && AtMcu(img, scan, r, yoffset, X) && FrameFor(img, f) && k <= |scan|
    && var comps, R := CompsOf(img, scan), RowStart(img, scan, r) + yoffset;
    && (forall l :: 0 <= l < |comps| ==> Inside(img, comps[l], R, X))
    && (if k < |scan| then n <= McuSize(comps[k]) else n == 0)
    && mcu == McuFill(img, f, comps[..k], R, X) + if k < |scan| then CompFill(img, f, comps[k], R, X)[..n] else []
  }

  lemma BuiltNothing(img: Image, f: Frame, scan: seq<nat>, r: nat, yoffset: nat, X: nat)
    requires AtMcu(img, scan, r, yoffset, X) && FrameFor(img, f)
    ensures Built(img, f, scan, r, yoffset, X, [], 0, 0)
  {
    hide Image.Ok, Image.Across, Image.Down, Image.McusDown, Membership, Spot, Inside, RowStart, CompsOf, CompFill;
    RowsAddUp(img, scan, r);
    forall l | 0 <= l < |scan| ensures Inside(img, CompsOf(img, scan)[l], RowStart(img, scan, r) + yoffset, X) {
      GeometryInside(img, scan, l, RowStart(img, scan, r) + yoffset, X);
    }
    assert CompsOf(img, scan)[..0] == [];
  }

  /** One more block. */
  lemma BuiltOne(img: Image, f: Frame, scan: seq<nat>, r: nat, yoffset: nat, X: nat, mcu: seq<Block>, k: nat, n: nat,
                 b: Block)
    requires ScanReady(img, scan) && FrameFor(img, f) && k < |scan| && Built(img, f, scan, r, yoffset, X, mcu, k, n)
      && n < McuSize(CompsOf(img, scan)[k])
    requires b == CompFill(img, f, CompsOf(img, scan)[k], RowStart(img, scan, r) + yoffset, X)[n]
    ensures Built(img, f, scan, r, yoffset, X, mcu + [b], k, n + 1)
  {
    hide McuFill, CompFill, AtMcu, Inside, CompsOf, FrameFor;
    BuiltFrame(img, f, scan, r, yoffset, X, mcu, k, n);
    var s := CompFill(img, f, CompsOf(img, scan)[k], RowStart(img, scan, r) + yoffset, X);
    assert s[..n + 1] == s[..n] + [s[n]];
  }

  /** A component is complete. */
  lemma BuiltComp(img: Image, f: Frame, scan: seq<nat>, r: nat, yoffset: nat, X: nat, mcu: seq<Block>, k: nat)
    requires k < |scan| && img.Ok() && Selects(img, scan)
      && Built(img, f, scan, r, yoffset, X, mcu, k, McuSize(CompsOf(img, scan)[k]))
    ensures Built(img, f, scan, r, yoffset, X, mcu, k + 1, 0)
  {
    hide CompFill, AtMcu, Inside, CompsOf, FrameFor;
    var comps := CompsOf(img, scan);
    assert comps[..k + 1][..k] == comps[..k];
  }

  /** What has been built is the MCU that the scan wants. */
  lemma BuiltAll(img: Image, f: Frame, scan: seq<nat>, r: nat, yoffset: nat, X: nat, mcu: seq<Block>)
    requires ScanReady(img, scan) && FrameFor(img, f) && Built(img, f, scan, r, yoffset, X, mcu, |scan|, 0)
    ensures var R := RowStart(img, scan, r) + yoffset;
      && R < GeometryOf(img, scan).mcuRows
      && Mixed(R, GeometryOf(img, scan).mcusPerRow, X) < |AllMcus(img, f, scan)|
      && mcu == AllMcus(img, f, scan)[Mixed(R, GeometryOf(img, scan).mcusPerRow, X)]
  {
    hide CompFill, McuFill, Inside, CompsOf, FrameFor, RowStart, AllMcus;
    RowsAddUp(img, scan, r);
    McuIs(img, f, scan, RowStart(img, scan, r) + yoffset, X);
    assert CompsOf(img, scan)[..|scan|] == CompsOf(img, scan);
  }

  lemma StepReal(img: Image, f: Frame, scan: seq<nat>, r: nat, yoffset: nat, X: nat, mcu: seq<Block>, k: nat, y: nat,
                 x: nat)
    requires Spot(img, scan, k, r, yoffset, X, y, x)
    requires Built(img, f, scan, r, yoffset, X, mcu, k, Mixed(y, CompsOf(img, scan)[k].mcuWidth, x))
    requires Real(img, scan[k], Mixed(r, img.comps[scan[k]].vSamp, y + yoffset),
      Mixed(X, CompsOf(img, scan)[k].mcuWidth, x))
    ensures var row, col := Mixed(r, img.comps[scan[k]].vSamp, y + yoffset),
      Mixed(X, CompsOf(img, scan)[k].mcuWidth, x);
      && row < img.Down(scan[k]) && col < img.Across(scan[k])
      && Built(img, f, scan, r, yoffset, X, mcu + [BlockAt(img, f, scan[k], row, col)], k,
         Mixed(y, CompsOf(img, scan)[k].mcuWidth, x) + 1)
  {
    hide Built, BlockAt, CompFill, Inside, Spot, RowStart, GeometryOf, CompsOf, RowsIn, Image.Ok, Image.Across,
         Image.Down, Image.McusDown, Mixed, FrameFor, McuSize, Membership, Scannable, Real;
    SpotFacts(img, scan, k, r, yoffset, X, y, x);
    BuiltFrame(img, f, scan, r, yoffset, X, mcu, k, Mixed(y, CompsOf(img, scan)[k].mcuWidth, x));
    RealBlock(img, f, scan, k, r, yoffset, X, y, x);
    BuiltOne(img, f, scan, r, yoffset, X, mcu, k, Mixed(y, CompsOf(img, scan)[k].mcuWidth, x),
             BlockAt(img, f, scan[k], Mixed(r, img.comps[scan[k]].vSamp, y + yoffset),
               Mixed(X, CompsOf(img, scan)[k].mcuWidth, x)));
  }

  lemma BuiltFrame(img: Image, f: Frame, scan: seq<nat>, r: nat, yoffset: nat, X: nat, mcu: seq<Block>, k: nat, n: nat)
    requires Built(img, f, scan, r, yoffset, X, mcu, k, n)
    ensures ScanReady(img, scan) && FrameFor(img, f)
    ensures k < |scan| ==> |mcu| == |Membership(CompsOf(img, scan)[..k])| + n
    ensures k < |scan| && n < McuSize(CompsOf(img, scan)[k]) ==> |mcu| < |Membership(CompsOf(img, scan))|
  {
    hide McuFill, Inside, Image.Ok, FrameFor;
    if k < |scan| {
      MembershipGrows(CompsOf(img, scan), k + 1);
      assert CompsOf(img, scan)[..k + 1][..k] == CompsOf(img, scan)[..k];
    }
  }

  lemma StepPadding(img: Image, f: Frame, scan: seq<nat>, r: nat, yoffset: nat, X: nat, mcu: seq<Block>, k: nat,
                    y: nat, x: nat)
    requires Spot(img, scan, k, r, yoffset, X, y, x)
    requires Built(img, f, scan, r, yoffset, X, mcu, k, Mixed(y, CompsOf(img, scan)[k].mcuWidth, x))
    requires !Real(img, scan[k], Mixed(r, img.comps[scan[k]].vSamp, y + yoffset),
      Mixed(X, CompsOf(img, scan)[k].mcuWidth, x))
    ensures 0 < |mcu| < MAX_BLOCKS_IN_MCU
    ensures Built(img, f, scan, r, yoffset, X, mcu + [DcOnly(mcu[|mcu| - 1][0])], k,
      Mixed(y, CompsOf(img, scan)[k].mcuWidth, x) + 1)
  {
    hide BlockAt, CompFill, McuFill, Inside, Spot, RowStart, FrameFor, Membership, CompsOf, GeometryOf, RowsIn,
         Image.Ok, Image.Across, Image.Down, Image.McusDown;
    SpotFacts(img, scan, k, r, yoffset, X, y, x);
    var n := Mixed(y, CompsOf(img, scan)[k].mcuWidth, x);
    BuiltFrame(img, f, scan, r, yoffset, X, mcu, k, n);
    PaddingBlock(img, f, scan, k, r, yoffset, X, y, x);
    BuiltOne(img, f, scan, r, yoffset, X, mcu, k, n, DcOnly(mcu[|mcu| - 1][0]));
  }
}
