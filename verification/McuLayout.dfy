/** The order in which a scan visits blocks (section A.2 of ITU-T T.81), and why it visits each of
    them exactly once. */
module McuLayout {
  import opened Frames
  import opened McuGeometry

  /** Block (row, col) in the array of component c. */
  function PosAt(img: Image, c: nat, row: nat, col: nat): (p: Pos)
    requires img.Ok() && c < |img.comps|
    ensures p.comp == c
  {
    Pos(c, row * img.Across(c) + col)
  }

  predicate CompsOk(img: Image, comps: seq<ScanComp>) {
    forall k :: 0 <= k < |comps| ==> comps[k].comp < |img.comps| && comps[k].mcuWidth >= 1 && comps[k].mcuHeight >= 1
  }

  /** Row and column of block n of a component in the MCU at row R and column X. */
  function RowOf(sc: ScanComp, R: nat, n: nat): nat
    requires sc.mcuWidth >= 1
  {
    R * sc.mcuHeight + n / sc.mcuWidth
  }

  function ColOf(sc: ScanComp, X: nat, n: nat): nat
    requires sc.mcuWidth >= 1
  {
    X * sc.mcuWidth + n % sc.mcuWidth
  }

  /** The blocks of one component in that MCU. */
  function CompBlocks(img: Image, sc: ScanComp, R: nat, X: nat): (s: seq<Pos>)
    requires img.Ok() && sc.comp < |img.comps| && sc.mcuWidth >= 1
    ensures |s| == McuSize(sc)
  {
    seq(McuSize(sc), n requires 0 <= n < McuSize(sc) =>
      PosAt(img, sc.comp, RowOf(sc, R, n), ColOf(sc, X, n)))
  }

  /** The blocks of that MCU, component by component. */
  function McuBlocks(img: Image, comps: seq<ScanComp>, R: nat, X: nat): (s: seq<Pos>)
    requires img.Ok() && CompsOk(img, comps)
    ensures |s| == |Membership(comps)|
  {
    if comps == [] then []
    else McuBlocks(img, comps[..|comps| - 1], R, X) + CompBlocks(img, comps[|comps| - 1], R, X)
  }

  /** Row and column of MCU i. */
  function McuRow(g: ScanGeometry, i: nat): nat
    requires g.mcusPerRow >= 1
  {
    i / g.mcusPerRow
  }

  function McuCol(g: ScanGeometry, i: nat): (X: nat)
    requires g.mcusPerRow >= 1
    ensures X < g.mcusPerRow
  {
    i % g.mcusPerRow
  }

  /** All MCUs of a scan, row by row. */
  function ScanLayout(img: Image, g: ScanGeometry): (layout: Layout)
    requires img.Ok() && CompsOk(img, g.comps) && g.mcusPerRow >= 1
    ensures |layout| == g.mcuRows * g.mcusPerRow
  {
    seq(g.mcuRows * g.mcusPerRow, i requires 0 <= i < g.mcuRows * g.mcusPerRow =>
      McuBlocks(img, g.comps, McuRow(g, i), McuCol(g, i)))
  }

  /** The MCUs of the scan lie within the arrays, and no component occurs twice. */
  ghost predicate Within(img: Image, g: ScanGeometry)
    requires img.Ok()
  {
    && CompsOk(img, g.comps) && g.mcusPerRow >= 1
    && (forall k :: 0 <= k < |g.comps| ==> g.mcusPerRow * g.comps[k].mcuWidth <= img.Across(g.comps[k].comp))
    && (forall k :: 0 <= k < |g.comps| ==> g.mcuRows * g.comps[k].mcuHeight <= img.Down(g.comps[k].comp))
    && (forall k, l :: 0 <= k < l < |g.comps| ==> g.comps[k].comp != g.comps[l].comp)
  }

  /** Arrays of the padded dimensions. */
  ghost predicate FrameFor(img: Image, f: Frame)
    requires img.Ok()
  {
    |f| == |img.comps| && forall c :: 0 <= c < |f| ==> |f[c]| == img.Down(c) * img.Across(c)
  }

  predicate Distinct(scan: seq<nat>) {
    forall k, l :: 0 <= k < l < |scan| ==> scan[k] != scan[l]
  }

  /** The blocks that belong to the image. */
  ghost function Shown(img: Image): iset<Pos>
    requires img.Ok()
  {
    iset p: Pos | p.comp < |img.comps| && img.Across(p.comp) > 0
      && p.idx / img.Across(p.comp) < img.BlocksDown(p.comp) && p.idx % img.Across(p.comp) < img.BlocksAcross(p.comp)
  }

  // ---- The blocks of one MCU ----

  /** Where a block lies, and where in its MCU it comes from. */
  lemma CompBlockAt(img: Image, sc: ScanComp, R: nat, X: nat, n: nat)
    requires img.Ok() && sc.comp < |img.comps| && sc.mcuWidth >= 1 && sc.mcuHeight >= 1
    requires (X + 1) * sc.mcuWidth <= img.Across(sc.comp) && n < McuSize(sc)
    ensures n / sc.mcuWidth < sc.mcuHeight && n % sc.mcuWidth < sc.mcuWidth
    ensures ColOf(sc, X, n) < img.Across(sc.comp)
    ensures CompBlocks(img, sc, R, X)[n] == PosAt(img, sc.comp, RowOf(sc, R, n), ColOf(sc, X, n))
  {
    hide Image.Across, Image.Ok, PosAt;
    InnerPlace(n, sc.mcuWidth, sc.mcuHeight);
    Apart(X, X + 1, sc.mcuWidth);
  }

  lemma InnerPlace(n: nat, w: nat, h: nat)
    requires w >= 1 && n < w * h
    ensures n / w < h && n % w < w && n == (n / w) * w + n % w
  {
    var y := n / w;
    if y >= h { MulMono(h, y, w); }
  }

  /** The place of a block in the scan follows from where the block lies. */
  lemma BlockPlace(img: Image, sc: ScanComp, R: nat, X: nat, n: nat)
    requires img.Ok() && sc.comp < |img.comps| && sc.mcuWidth >= 1 && sc.mcuHeight >= 1
    requires (X + 1) * sc.mcuWidth <= img.Across(sc.comp) && n < McuSize(sc)
    ensures var p := CompBlocks(img, sc, R, X)[n];
      var row, col := p.idx / img.Across(sc.comp), p.idx % img.Across(sc.comp);
      && p.comp == sc.comp && R == row / sc.mcuHeight && X == col / sc.mcuWidth
      && n == (row % sc.mcuHeight) * sc.mcuWidth + col % sc.mcuWidth
  {
    hide Image.Across, Image.Ok, CompBlocks;
    CompBlockAt(img, sc, R, X, n);
    DivMod(RowOf(sc, R, n), img.Across(sc.comp), ColOf(sc, X, n));
    DivMod(R, sc.mcuHeight, n / sc.mcuWidth);
    DivMod(X, sc.mcuWidth, n % sc.mcuWidth);
  }

  /** Every block of the region that the MCUs span has such a place. */
  lemma PlaceOfBlock(img: Image, sc: ScanComp, row: nat, col: nat)
    requires img.Ok() && sc.comp < |img.comps| && sc.mcuWidth >= 1 && sc.mcuHeight >= 1
    ensures var n := (row % sc.mcuHeight) * sc.mcuWidth + col % sc.mcuWidth;
      n < McuSize(sc) && CompBlocks(img, sc, row / sc.mcuHeight, col / sc.mcuWidth)[n] == PosAt(img, sc.comp, row, col)
  {
    hide Image.Across, Image.Ok;
    var w, h := sc.mcuWidth, sc.mcuHeight;
    MixedBound(row % h, w, col % w, h);
    DivMod(row % h, w, col % w);
    assert row == (row / h) * h + row % h && col == (col / w) * w + col % w;
  }

  /** Block j of an MCU is block n of component k. */
  lemma {:induction false} McuBlockAt(img: Image, comps: seq<ScanComp>, R: nat, X: nat, j: nat) returns (k: nat, n: nat)
    requires img.Ok() && CompsOk(img, comps) && j < |Membership(comps)|
    ensures k < |comps| && k == Membership(comps)[j] && n < McuSize(comps[k]) && j == |Membership(comps[..k])| + n
    ensures McuBlocks(img, comps, R, X)[j] == CompBlocks(img, comps[k], R, X)[n]
  {
    hide CompBlocks, Image.Ok;
    var last := |comps| - 1;
    var before := |Membership(comps[..last])|;
    if j < before {
      k, n := McuBlockAt(img, comps[..last], R, X, j);
      assert comps[..last][..k] == comps[..k];
    } else {
      k, n := last, j - before;
    }
  }

  lemma {:induction false} McuHasBlock(img: Image, comps: seq<ScanComp>, R: nat, X: nat, k: nat, n: nat)
    requires img.Ok() && CompsOk(img, comps) && k < |comps| && n < McuSize(comps[k])
    ensures var j := |Membership(comps[..k])| + n;
      j < |Membership(comps)| && Membership(comps)[j] == k
        && McuBlocks(img, comps, R, X)[j] == CompBlocks(img, comps[k], R, X)[n]
  {
    hide CompBlocks, Image.Ok;
    var last := |comps| - 1;
    if k < last {
      McuHasBlock(img, comps[..last], R, X, k, n);
      assert comps[..last][..k] == comps[..k];
    }
  }

  // ---- The MCUs of a scan ----

  lemma McuPlace(g: ScanGeometry, i: nat)
    requires g.mcusPerRow >= 1 && i < g.mcuRows * g.mcusPerRow
    ensures McuRow(g, i) < g.mcuRows && i == McuRow(g, i) * g.mcusPerRow + McuCol(g, i)
  {
    var R := i / g.mcusPerRow;
    if R >= g.mcuRows { MulMono(g.mcuRows, R, g.mcusPerRow); }
  }

  lemma SpanBound(img: Image, g: ScanGeometry, k: nat, X: nat)
    requires img.Ok() && Within(img, g) && k < |g.comps| && X < g.mcusPerRow
    ensures (X + 1) * g.comps[k].mcuWidth <= img.Across(g.comps[k].comp)
  {
    hide Image.Across, Image.Down, Image.Ok;
    MulMono(X + 1, g.mcusPerRow, g.comps[k].mcuWidth);
  }

  /** Block j of MCU i: its component, and its place there. */
  lemma LayoutAt(img: Image, g: ScanGeometry, i: nat, j: nat) returns (k: nat, n: nat)
    requires img.Ok() && Within(img, g) && i < g.mcuRows * g.mcusPerRow && j < |Membership(g.comps)|
    ensures k < |g.comps| && k == Membership(g.comps)[j] && n < McuSize(g.comps[k])
      && j == |Membership(g.comps[..k])| + n
    ensures McuRow(g, i) < g.mcuRows && (McuCol(g, i) + 1) * g.comps[k].mcuWidth <= img.Across(g.comps[k].comp)
    ensures |ScanLayout(img, g)[i]| == |Membership(g.comps)|
    ensures ScanLayout(img, g)[i][j] == CompBlocks(img, g.comps[k], McuRow(g, i), McuCol(g, i))[n]
  {
    hide CompBlocks, McuBlocks, Image.Ok, Image.Across, Image.Down;
    McuPlace(g, i);
    k, n := McuBlockAt(img, g.comps, McuRow(g, i), McuCol(g, i), j);
    SpanBound(img, g, k, McuCol(g, i));
  }

  // ---- The tiling ----

  lemma GeometryWithin(img: Image, scan: seq<nat>)
    requires img.Ok() && Selects(img, scan) && scan != [] && Distinct(scan)
    ensures Within(img, GeometryOf(img, scan))
  {
    hide Image.Across, Image.Down, Image.BlocksAcross, Image.BlocksDown, Image.McusAcross, Image.McusDown, Image.Ok,
         Leftover;
    PaddedSizes(img, scan[0]);
    var comps := CompsOf(img, scan);
    forall k | 0 <= k < |scan|
      ensures comps[k].comp == scan[k] && comps[k].mcuWidth >= 1 && comps[k].mcuHeight >= 1
      ensures GeometryOf(img, scan).mcusPerRow * comps[k].mcuWidth <= img.Across(scan[k])
      ensures GeometryOf(img, scan).mcuRows * comps[k].mcuHeight <= img.Down(scan[k])
    {
      PaddedSizes(img, scan[k]);
    }
  }

  /** No MCU reaches outside the arrays. */
  lemma TilesFit(img: Image, g: ScanGeometry, f: Frame)
    requires img.Ok() && Within(img, g) && FrameFor(img, f)
    ensures Fits(ScanLayout(img, g), f)
  {
    hide CompBlocks, Image.Ok, Image.Across, Image.Down, ScanLayout, Membership;
    var layout := ScanLayout(img, g);
    forall i, j | 0 <= i < |layout| && 0 <= j < |layout[i]| ensures In(layout[i][j], f) {
      TileSize(img, g, i);
      var k, n := LayoutAt(img, g, i, j);
      TileIn(img, g, k, McuRow(g, i), McuCol(g, i), n);
    }
  }

  lemma TileSize(img: Image, g: ScanGeometry, i: nat)
    requires img.Ok() && CompsOk(img, g.comps) && g.mcusPerRow >= 1 && i < |ScanLayout(img, g)|
    ensures |ScanLayout(img, g)[i]| == |Membership(g.comps)|
  {
    hide McuBlocks, Membership, Image.Ok;
  }

  lemma TileIn(img: Image, g: ScanGeometry, k: nat, R: nat, X: nat, n: nat)
    requires img.Ok() && Within(img, g) && k < |g.comps| && R < g.mcuRows && n < McuSize(g.comps[k])
    requires (X + 1) * g.comps[k].mcuWidth <= img.Across(g.comps[k].comp)
    ensures var p := CompBlocks(img, g.comps[k], R, X)[n];
      p.comp == g.comps[k].comp && p.idx < img.Down(p.comp) * img.Across(p.comp)
  {
    hide Image.Ok, Image.Across, Image.Down, CompBlocks;
    var sc := g.comps[k];
    CompBlockAt(img, sc, R, X, n);
    MixedBound(R, sc.mcuHeight, n / sc.mcuWidth, g.mcuRows);
    MixedBound(RowOf(sc, R, n), img.Across(sc.comp), ColOf(sc, X, n), img.Down(sc.comp));
  }

  /** No block is visited twice. */
  lemma TilesOnce(img: Image, g: ScanGeometry)
    requires img.Ok() && Within(img, g)
    ensures NoBlockTwice(ScanLayout(img, g))
  {
    hide CompBlocks, Image.Ok, Image.Across, Image.Down, ScanLayout, Membership;
    var layout := ScanLayout(img, g);
    forall i, j, i', j' | 0 <= i < |layout| && 0 <= j < |layout[i]| && 0 <= i' < |layout| && 0 <= j' < |layout[i']|
      && layout[i][j] == layout[i'][j']
      ensures i == i' && j == j'
    {
      SamePlace(img, g, i, j, i', j');
    }
  }

  lemma SamePlace(img: Image, g: ScanGeometry, i: nat, j: nat, i': nat, j': nat)
    requires img.Ok() && Within(img, g) && i < |ScanLayout(img, g)| && i' < |ScanLayout(img, g)|
    requires j < |ScanLayout(img, g)[i]| && j' < |ScanLayout(img, g)[i']|
      && ScanLayout(img, g)[i][j] == ScanLayout(img, g)[i'][j']
    ensures i == i' && j == j'
  {
    hide CompBlocks, Image.Ok, Image.Across, Image.Down, ScanLayout, Membership;
    TileSize(img, g, i);
    TileSize(img, g, i');
    var k, n := LayoutAt(img, g, i, j);
    var k', n' := LayoutAt(img, g, i', j');
    BlockPlace(img, g.comps[k], McuRow(g, i), McuCol(g, i), n);
    BlockPlace(img, g.comps[k'], McuRow(g, i'), McuCol(g, i'), n');
    assert k == k';
    McuPlace(g, i);
    McuPlace(g, i');
  }

  /** The region that the MCUs of a component span. */
  ghost predicate Spans(img: Image, g: ScanGeometry, k: nat, p: Pos)
    requires img.Ok() && CompsOk(img, g.comps) && k < |g.comps|
  {
    var sc := g.comps[k];
    && p.comp == sc.comp && img.Across(sc.comp) > 0
    && p.idx / img.Across(sc.comp) < g.mcuRows * sc.mcuHeight
       && p.idx % img.Across(sc.comp) < g.mcusPerRow * sc.mcuWidth
  }

  lemma VisitedSpans(img: Image, g: ScanGeometry, i: nat, j: nat) returns (k: nat)
    requires img.Ok() && Within(img, g) && i < |ScanLayout(img, g)| && j < |ScanLayout(img, g)[i]|
    ensures k < |g.comps| && Spans(img, g, k, ScanLayout(img, g)[i][j])
  {
    hide CompBlocks, Image.Ok, Image.Across, Image.Down, ScanLayout, Membership, Within;
    WithinShape(img, g);
    TileSize(img, g, i);
    var n;
    k, n := LayoutAt(img, g, i, j);
    var sc := g.comps[k];
    CompBlockAt(img, sc, McuRow(g, i), McuCol(g, i), n);
    DivMod(RowOf(sc, McuRow(g, i), n), img.Across(sc.comp), ColOf(sc, McuCol(g, i), n));
    MixedBound(McuRow(g, i), sc.mcuHeight, n / sc.mcuWidth, g.mcuRows);
    MixedBound(McuCol(g, i), sc.mcuWidth, n % sc.mcuWidth, g.mcusPerRow);
  }

  lemma SpanVisited(img: Image, g: ScanGeometry, k: nat, p: Pos)
    requires img.Ok() && Within(img, g) && k < |g.comps| && Spans(img, g, k, p)
    ensures Visits(ScanLayout(img, g), p)
  {
    hide CompBlocks, Image.Ok, Image.Across, Image.Down, Membership, Within;
    WithinShape(img, g);
    var sc := g.comps[k];
    var row, col := p.idx / img.Across(sc.comp), p.idx % img.Across(sc.comp);
    assert p == PosAt(img, sc.comp, row, col);
    PlaceOfBlock(img, sc, row, col);
    var R, X := row / sc.mcuHeight, col / sc.mcuWidth;
    var n := (row % sc.mcuHeight) * sc.mcuWidth + col % sc.mcuWidth;
    QuotientBelow(row, sc.mcuHeight, g.mcuRows);
    QuotientBelow(col, sc.mcuWidth, g.mcusPerRow);
    MixedBound(R, g.mcusPerRow, X, g.mcuRows);
    DivMod(R, g.mcusPerRow, X);
    McuHasBlock(img, g.comps, R, X, k, n);
    var i, j := R * g.mcusPerRow + X, |Membership(g.comps[..k])| + n;
    assert ScanLayout(img, g)[i] == McuBlocks(img, g.comps, R, X);
    assert ScanLayout(img, g)[i][j] == p;
  }

  lemma QuotientBelow(n: nat, m: nat, q: nat)
    requires m >= 1 && n < q * m
    ensures n / m < q
  {
    if n / m >= q { MulMono(q, n / m, m); }
  }

  /** An interleaved scan visits every block of the padded arrays of its components, a scan of one
      component exactly the real blocks of that component. */
  lemma TilesCover(img: Image, scan: seq<nat>, f: Frame, p: Pos)
    requires img.Ok() && Selects(img, scan) && scan != [] && Distinct(scan) && FrameFor(img, f) && In(p, f)
    ensures CompsOk(img, GeometryOf(img, scan).comps) && GeometryOf(img, scan).mcusPerRow >= 1
    ensures Visits(ScanLayout(img, GeometryOf(img, scan)), p) <==> p.comp in scan && (|scan| == 1 ==> p in Shown(img))
  {
    hide ScanLayout, Image.Ok, Image.Across, Image.Down, Image.BlocksAcross, Image.BlocksDown, Image.McusAcross,
         Image.McusDown, Membership, Within, Leftover;
    var g := GeometryOf(img, scan);
    GeometryWithin(img, scan);
    WithinShape(img, g);
    if Visits(ScanLayout(img, g), p) {
      var i, j := FindVisit(ScanLayout(img, g), p);
      var k := VisitedSpans(img, g, i, j);
      assert p.comp == scan[k];
    }
    if p.comp in scan && (|scan| == 1 ==> p in Shown(img)) {
      var k :| 0 <= k < |scan| && scan[k] == p.comp;
      PaddedSizes(img, p.comp);
      PositiveFactor(img.Down(p.comp), img.Across(p.comp), p.idx);
      QuotientBelow(p.idx, img.Across(p.comp), img.Down(p.comp));
      assert g.comps[k].comp == p.comp;
      SpanVisited(img, g, k, p);
    }
  }

  lemma PositiveFactor(a: nat, b: nat, n: nat)
    requires n < a * b
    ensures b > 0
  {}

  lemma WithinShape(img: Image, g: ScanGeometry)
    requires img.Ok() && Within(img, g)
    ensures CompsOk(img, g.comps) && g.mcusPerRow >= 1
  {}
}
