/** The padding blocks of a coefficient array: zero but for the DC value, which repeats that of the
    block before them in their MCU. */
module DummyBlocks {
  import opened Coefficients
  import opened Frames
  import opened McuGeometry
  import opened McuLayout

  function DcOnly(dc: int): Block {
    seq(64, k => if k == 0 then dc else 0)
  }

  function Least(a: nat, b: nat): nat {
    if a < b then a else b
  }

  function Quotient(n: nat, m: nat): nat
    requires m > 0
  {
    n / m
  }

  function Rest(n: nat, m: nat): (r: nat)
    requires m > 0
    ensures r < m
  {
    n % m
  }

  predicate Real(img: Image, c: nat, row: nat, col: nat)
    requires img.Ok() && c < |img.comps|
  {
    row < img.BlocksDown(c) && col < img.BlocksAcross(c)
  }

  /** The real block whose DC value a padding block repeats: the last one of its row or, below the
      image, the last one of its MCU in the last real row. */
  function SourceRow(img: Image, c: nat, row: nat): (r: nat)
    requires img.Ok() && c < |img.comps|
    ensures r <= row && r < img.BlocksDown(c)
  {
    SomeBlocks(img, c);
    Least(row, img.BlocksDown(c) - 1)
  }

  function SourceCol(img: Image, c: nat, row: nat, col: nat): (r: nat)
    requires img.Ok() && c < |img.comps|
    ensures r < img.BlocksAcross(c)
  {
    SomeBlocks(img, c);
    var h := img.comps[c].hSamp;
    Least(if row < img.BlocksDown(c) then col else Mixed(Quotient(col, h), h, h - 1), img.BlocksAcross(c) - 1)
  }

  lemma PosIn(img: Image, f: Frame, c: nat, row: nat, col: nat)
    requires img.Ok() && FrameFor(img, f) && c < |img.comps| && row < img.Down(c) && col < img.Across(c)
    ensures In(PosAt(img, c, row, col), f)
  {
    hide Image.Ok, Image.Across, Image.Down;
    MixedBound(row, img.Across(c), col, img.Down(c));
  }

  function BlockAt(img: Image, f: Frame, c: nat, row: nat, col: nat): Block
    requires img.Ok() && FrameFor(img, f) && c < |img.comps| && row < img.Down(c) && col < img.Across(c)
  {
    PosIn(img, f, c, row, col);
    At(f, PosAt(img, c, row, col))
  }

  /** Block (row, col) of component c, padding included. */
  function FilledBlock(img: Image, f: Frame, c: nat, row: nat, col: nat): Block
    requires img.Ok() && FrameFor(img, f) && c < |img.comps| && row < img.Down(c) && col < img.Across(c)
  {
    PaddedSizes(img, c);
    if Real(img, c, row, col) then BlockAt(img, f, c, row, col)
    else DcOnly(BlockAt(img, f, c, SourceRow(img, c, row), SourceCol(img, c, row, col))[0])
  }

  lemma IdxPlace(img: Image, c: nat, idx: nat)
    requires img.Ok() && c < |img.comps| && idx < img.Down(c) * img.Across(c)
    ensures img.Across(c) > 0 && idx / img.Across(c) < img.Down(c)
  {
    hide Image.Ok, Image.Across, Image.Down;
    PositiveFactor(img.Down(c), img.Across(c), idx);
    QuotientBelow(idx, img.Across(c), img.Down(c));
  }

  function IdxRow(img: Image, c: nat, idx: nat): (row: nat)
    requires img.Ok() && c < |img.comps| && idx < img.Down(c) * img.Across(c)
    ensures row < img.Down(c)
  {
    IdxPlace(img, c, idx);
    Quotient(idx, img.Across(c))
  }

  function IdxCol(img: Image, c: nat, idx: nat): (col: nat)
    requires img.Ok() && c < |img.comps| && idx < img.Down(c) * img.Across(c)
    ensures col < img.Across(c)
  {
    IdxPlace(img, c, idx);
    Rest(idx, img.Across(c))
  }

  function FilledIdx(img: Image, f: Frame, c: nat, idx: nat): Block
    requires img.Ok() && FrameFor(img, f) && c < |img.comps| && idx < img.Down(c) * img.Across(c)
  {
    FilledBlock(img, f, c, IdxRow(img, c, idx), IdxCol(img, c, idx))
  }

  /** The arrays with their padding filled in. */
  ghost function Filled(img: Image, f: Frame): (g: Frame)
    requires img.Ok() && FrameFor(img, f)
    ensures FrameFor(img, g)
  {
    seq(|f|, c requires 0 <= c < |f| => seq(|f[c]|, idx requires 0 <= idx < |f[c]| => FilledIdx(img, f, c, idx)))
  }

  lemma FilledAt(img: Image, f: Frame, c: nat, row: nat, col: nat)
    requires img.Ok() && FrameFor(img, f) && c < |img.comps| && row < img.Down(c) && col < img.Across(c)
    ensures BlockAt(img, Filled(img, f), c, row, col) == FilledBlock(img, f, c, row, col)
  {
    hide Image.Ok, Image.Across, Image.Down, FilledBlock;
    PosIn(img, f, c, row, col);
    DivMod(row, img.Across(c), col);
  }

  /** Filling changes no real block. */
  lemma FilledReal(img: Image, f: Frame, p: Pos)
    requires img.Ok() && FrameFor(img, f) && In(p, f) && p in Shown(img)
    ensures In(p, Filled(img, f)) && At(Filled(img, f), p) == At(f, p)
  {
    hide Image.Ok, Image.Across, Image.Down, Image.BlocksDown, Image.BlocksAcross;
    var row, col := p.idx / img.Across(p.comp), p.idx % img.Across(p.comp);
    IdxPlace(img, p.comp, p.idx);
    assert p == PosAt(img, p.comp, row, col);
    FilledAt(img, f, p.comp, row, col);
  }

  lemma SourceOf(img: Image, c: nat, row: nat, X: nat, x: nat)
    requires img.Ok() && c < |img.comps| && x < img.comps[c].hSamp && img.BlocksAcross(c) >= 1
    ensures SourceCol(img, c, row, Mixed(X, img.comps[c].hSamp, x)) ==
      Least(Mixed(X, img.comps[c].hSamp, if row < img.BlocksDown(c) then x else img.comps[c].hSamp - 1),
        img.BlocksAcross(c) - 1)
  {
    hide Image.Ok, Image.BlocksDown, Image.BlocksAcross;
    DivMod(X, img.comps[c].hSamp, x);
  }

  /** Within an MCU, a padding block repeats the DC value of the block before it in its row. */
  lemma PaddingInRow(img: Image, f: Frame, c: nat, row: nat, X: nat, x: nat)
    requires img.Ok() && FrameFor(img, f) && c < |img.comps| && row < img.Down(c) && 0 < x < img.comps[c].hSamp
    requires var col := Mixed(X, img.comps[c].hSamp, x); col < img.Across(c) && !Real(img, c, row, col)
    ensures FilledBlock(img, f, c, row, Mixed(X, img.comps[c].hSamp, x)) ==
      DcOnly(FilledBlock(img, f, c, row, Mixed(X, img.comps[c].hSamp, x - 1))[0])
  {
    hide Image.Ok, Image.Across, Image.Down, Image.BlocksDown, Image.BlocksAcross, BlockAt, SourceCol;
    SomeBlocks(img, c);
    SourceOf(img, c, row, X, x);
    SourceOf(img, c, row, X, x - 1);
  }

  /** Below the image, all blocks of an MCU's row repeat the DC value of the last one of the row above. */
  lemma PaddingGroup(img: Image, f: Frame, c: nat, row: nat, X: nat, x: nat)
    requires img.Ok() && FrameFor(img, f) && c < |img.comps| && img.BlocksDown(c) <= row < img.Down(c)
    requires X < img.McusAcross() && x < img.comps[c].hSamp
    ensures row >= 1 && Mixed(X, img.comps[c].hSamp, x) < img.Across(c)
      && Mixed(X, img.comps[c].hSamp, img.comps[c].hSamp - 1) < img.Across(c)
    ensures FilledBlock(img, f, c, row, Mixed(X, img.comps[c].hSamp, x)) ==
      DcOnly(FilledBlock(img, f, c, row - 1, Mixed(X, img.comps[c].hSamp, img.comps[c].hSamp - 1))[0])
  {
    hide Image.Ok, Image.Across, Image.Down, Image.BlocksDown, Image.BlocksAcross, BlockAt, SourceCol;
    PaddedSizes(img, c);
    SomeBlocks(img, c);
    var h := img.comps[c].hSamp;
    Apart(X, img.McusAcross(), h);
    SourceOf(img, c, row, X, x);
    SourceOf(img, c, row - 1, X, h - 1);
  }

  /** The first padding block of a row of an MCU lies below the image. */
  lemma PaddingBelow(img: Image, c: nat, row: nat, X: nat)
    requires img.Ok() && c < |img.comps| && X < img.McusAcross()
    requires img.comps[c].hSamp >= 1 && !Real(img, c, row, Mixed(X, img.comps[c].hSamp, 0))
    ensures row >= img.BlocksDown(c) >= 1
  {
    hide Image.Ok, Image.Across, Image.Down, Image.BlocksDown, Image.BlocksAcross;
    PaddedSizes(img, c);
    SomeBlocks(img, c);
    MulMono(X, img.McusAcross() - 1, img.comps[c].hSamp);
  }

  /** Right of the image, a block repeats the DC value of the last real block of its row. */
  lemma PaddingRight(img: Image, f: Frame, c: nat, row: nat, col: nat)
    requires img.Ok() && FrameFor(img, f) && c < |img.comps| && row < img.BlocksDown(c) && row < img.Down(c)
    requires img.BlocksAcross(c) <= col < img.Across(c) && img.BlocksAcross(c) >= 1
    ensures FilledBlock(img, f, c, row, col) == DcOnly(FilledBlock(img, f, c, row, img.BlocksAcross(c) - 1)[0])
  {
    hide Image.Ok, Image.Across, Image.Down, Image.BlocksDown, Image.BlocksAcross, BlockAt;
  }
}
