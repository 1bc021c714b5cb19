/** The coefficient controller of the compressor: one pass, or a first pass that saves the coefficients
    and further passes that send them. */
module CoefController {
  import opened Coefficients
  import opened Frames
  import opened McuGeometry
  import opened McuLayout
  import opened DummyBlocks
  import opened McuFilling
  import opened EncoderFeed

  // ---- Filling the arrays ----

  /** f and g agree on all components but c. */
  ghost predicate OnlyComp(f: Frame, g: Frame, c: nat) {
    |f| == |g| && forall c' :: 0 <= c' < |f| && c' != c ==> f[c'] == g[c']
  }

  lemma OnlyTrans(f: Frame, g: Frame, h: Frame, c: nat)
    requires OnlyComp(f, g, c) && OnlyComp(g, h, c)
    ensures OnlyComp(f, h, c)
  {}

  /** f with block (row, col) of component c replaced. */
  function Put(img: Image, f: Frame, c: nat, row: nat, col: nat, b: Block): (g: Frame)
    requires img.Ok() && FrameFor(img, f) && c < |img.comps| && row < img.Down(c) && col < img.Across(c)
    ensures FrameFor(img, g) && OnlyComp(f, g, c)
  {
    PosIn(img, f, c, row, col);
    var blocks: seq<Block> := f[c];
    var changed: seq<Block> := blocks[PosAt(img, c, row, col).idx := b];
    f[c := changed]
  }

  lemma PutAt(img: Image, f: Frame, c: nat, row: nat, col: nat, b: Block, row': nat, col': nat)
    requires img.Ok() && FrameFor(img, f) && c < |img.comps| && row < img.Down(c) && col < img.Across(c)
    requires row' < img.Down(c) && col' < img.Across(c)
    ensures BlockAt(img, Put(img, f, c, row, col, b), c, row', col') ==
      if row == row' && col == col' then b else BlockAt(img, f, c, row', col')
  {
    hide Image.Ok, Image.Across, Image.Down;
    PosIn(img, f, c, row, col);
    PosIn(img, f, c, row', col');
    if PosAt(img, c, row, col) == PosAt(img, c, row', col') {
      SameDivision(row, col, row', col', img.Across(c));
    }
  }

  /** Component c holds the filled blocks before column col of row row. */
  ghost predicate FilledTo(img: Image, input: Frame, f: Frame, c: nat, row: nat, col: nat)
    requires img.Ok() && FrameFor(img, input) && FrameFor(img, f) && c < |img.comps|
  {
    forall y: nat, x: nat :: y < img.Down(c) && x < img.Across(c) && (y < row || (y == row && x < col)) ==>
      BlockAt(img, f, c, y, x) == FilledBlock(img, input, c, y, x)
  }

  lemma FilledNext(img: Image, input: Frame, f: Frame, c: nat, row: nat, col: nat, b: Block)
    requires img.Ok() && FrameFor(img, input) && FrameFor(img, f) && c < |img.comps| && row < img.Down(c)
      && col < img.Across(c)
    requires FilledTo(img, input, f, c, row, col) && b == FilledBlock(img, input, c, row, col)
    ensures FilledTo(img, input, Put(img, f, c, row, col, b), c, row, col + 1)
  {
    hide Image.Ok, Image.Across, Image.Down, FrameFor, BlockAt, FilledBlock, Put;
    var g := Put(img, f, c, row, col, b);
    forall y: nat, x: nat | y < img.Down(c) && x < img.Across(c) && (y < row || (y == row && x < col + 1))
      ensures BlockAt(img, g, c, y, x) == FilledBlock(img, input, c, y, x)
    {
      PutAt(img, f, c, row, col, b, y, x);
    }
  }

  lemma FilledRowEnd(img: Image, input: Frame, f: Frame, c: nat, row: nat)
    requires img.Ok() && FrameFor(img, input) && FrameFor(img, f) && c < |img.comps|
    requires FilledTo(img, input, f, c, row, img.Across(c))
    ensures FilledTo(img, input, f, c, row + 1, 0)
  {
    hide Image.Ok, Image.Across, Image.Down, FrameFor, BlockAt, FilledBlock;
  }

  lemma FilledBefore(img: Image, input: Frame, f: Frame, c: nat, row: nat, col: nat, y: nat, x: nat)
    requires img.Ok() && FrameFor(img, input) && FrameFor(img, f) && c < |img.comps|
      && FilledTo(img, input, f, c, row, col)
    requires y < img.Down(c) && x < img.Across(c) && (y < row || (y == row && x < col))
    ensures BlockAt(img, f, c, y, x) == FilledBlock(img, input, c, y, x)
  {}

  /** The number of padding blocks at the right margin. */
  lemma DummiesRight(img: Image, c: nat)
    requires img.Ok() && c < |img.comps|
    ensures img.comps[c].hSamp >= 1 && img.BlocksAcross(c) >= 1
    ensures var n := img.BlocksAcross(c) % img.comps[c].hSamp;
      img.BlocksAcross(c) + (if n > 0 then img.comps[c].hSamp - n else 0) == img.Across(c)
  {
    hide Image.Across, Image.Down, Image.BlocksDown, Image.BlocksAcross, Image.McusDown, Image.McusAcross, Image.Ok;
    PaddedSizes(img, c);
    SomeBlocks(img, c);
    LeftoverIs(img.BlocksAcross(c), img.McusAcross(), img.comps[c].hSamp);
    assert img.McusAcross() * img.comps[c].hSamp == (img.McusAcross() - 1) * img.comps[c].hSamp + img.comps[c].hSamp;
  }

  class CompressCoefController {
    const img: Image
    const scan: seq<nat>
    const g: ScanGeometry
    // what forward_DCT makes of the samples of each block
    const input: Frame
    var whole_image: Frame
    const MCU_buffer: array<Block>
    var iMCU_row_num: nat
    var mcu_ctr: nat
    var MCU_vert_offset: nat
    var MCU_rows_per_iMCU_row: nat

    ghost predicate Valid()
      reads this
    {
      && ScanReady(img, scan) && g == GeometryOf(img, scan) && FrameFor(img, input) && FrameFor(img, whole_image)
      && MCU_buffer.Length == MAX_BLOCKS_IN_MCU
      && iMCU_row_num <= img.McusDown() && MCU_rows_per_iMCU_row == RowsIn(img, scan, iMCU_row_num)
      && MCU_vert_offset < MCU_rows_per_iMCU_row && mcu_ctr < g.mcusPerRow
    }

    /** The number of MCUs done with. */
    ghost function Progress(): nat
      reads this
      requires Valid()
    {
      McusBefore(img, scan, iMCU_row_num, MCU_vert_offset, mcu_ctr)
    }

    /** The MCUs of the scan. */
    ghost function All(): seq<seq<Block>>
      reads this
      requires Valid()
    {
      AllMcus(img, input, scan)
    }

    /** The arrays hold the blocks of all interleaved MCU rows before row r. */
    ghost predicate Saved(r: nat)
      reads this
      requires Valid()
    {
      AllSaved(img, input, whole_image, 0, |img.comps|, r)
    }

    /** start_pass_coef */
    constructor (img: Image, scan: seq<nat>, input: Frame, whole_image: Frame)
      requires ScanReady(img, scan) && FrameFor(img, input) && FrameFor(img, whole_image)
      ensures Valid() && fresh(MCU_buffer) && iMCU_row_num == mcu_ctr == MCU_vert_offset == 0
      ensures this.img == img && this.scan == scan && this.input == input && this.whole_image == whole_image
    {
      hide FrameFor, RowsIn, McusBefore, GeometryOf, Image.Ok, Image.McusDown;
      ScanStart(img, scan);
      this.img, this.scan, this.input, this.whole_image := img, scan, input, whole_image;
      g := GeometryOf(img, scan);
      MCU_buffer := new Block[MAX_BLOCKS_IN_MCU](_ => DcOnly(0));
      iMCU_row_num, mcu_ctr, MCU_vert_offset := 0, 0, 0;
      MCU_rows_per_iMCU_row := RowsIn(img, scan, 0);
    }

    /** start_iMCU_row */
    method StartIMcuRow()
      requires ScanReady(img, scan) && g == GeometryOf(img, scan)
      modifies this`mcu_ctr, this`MCU_vert_offset, this`MCU_rows_per_iMCU_row
      ensures mcu_ctr == MCU_vert_offset == 0 && MCU_rows_per_iMCU_row == RowsIn(img, scan, iMCU_row_num)
    {
      if |scan| > 1 {
        MCU_rows_per_iMCU_row := 1;
      } else if iMCU_row_num < img.McusDown() - 1 {
        SomeBlocks(img, scan[0]);
        MCU_rows_per_iMCU_row := img.comps[scan[0]].vSamp;
      } else {
        MCU_rows_per_iMCU_row := g.comps[0].lastRowHeight;
      }
      mcu_ctr, MCU_vert_offset := 0, 0;
    }

    // ---- First pass ----

    /** One more block. */
    method Save(c: nat, row: nat, col: nat, b: Block)
      requires Valid() && c < |img.comps| && row < img.Down(c) && col < img.Across(c)
        && FilledTo(img, input, whole_image, c, row, col)
      requires b == FilledBlock(img, input, c, row, col)
      modifies this`whole_image
      ensures Valid() && FilledTo(img, input, whole_image, c, row, col + 1)
        && OnlyComp(old(whole_image), whole_image, c)
    {
      hide FrameFor, RowsIn, GeometryOf, Image.Ok, Image.Across, Image.Down, Image.McusDown, FilledTo, FilledBlock, Put;
      FilledNext(img, input, whole_image, c, row, col, b);
      whole_image := Put(img, whole_image, c, row, col, b);
    }

    /** A block row that is at least partly real: its real blocks, then the padding to the right. */
    method SaveRealRow(c: nat, row: nat)
      requires Valid() && c < |img.comps| && row < img.BlocksDown(c) && row < img.Down(c)
      requires FilledTo(img, input, whole_image, c, row, 0)
      modifies this`whole_image
      ensures Valid() && FilledTo(img, input, whole_image, c, row + 1, 0)
      ensures OnlyComp(old(whole_image), whole_image, c)
    {
      hide FrameFor, RowsIn, GeometryOf, Image.Ok, Image.Across, Image.Down, Image.McusDown, Image.McusAcross,
           Image.BlocksDown, Image.BlocksAcross, BlockAt, FilledTo, DcOnly, Put;
      DummiesRight(img, c);
      var blocks_across := img.BlocksAcross(c);
      var ndummy := blocks_across % img.comps[c].hSamp;
      if ndummy > 0 {
        ndummy := img.comps[c].hSamp - ndummy;
      }
      for col := 0 to blocks_across
        invariant Valid() && FilledTo(img, input, whole_image, c, row, col)
        invariant OnlyComp(old(whole_image), whole_image, c)
      {
        ghost var before := whole_image;
        Save(c, row, col, BlockAt(img, input, c, row, col));
        OnlyTrans(old(whole_image), before, whole_image, c);
      }
      for bi := 0 to ndummy
        invariant Valid() && FilledTo(img, input, whole_image, c, row, blocks_across + bi)
        invariant OnlyComp(old(whole_image), whole_image, c)
      {
        FilledBefore(img, input, whole_image, c, row, blocks_across + bi, row, blocks_across - 1);
        PaddingRight(img, input, c, row, blocks_across + bi);
        var lastDC := BlockAt(img, whole_image, c, row, blocks_across - 1)[0];
        ghost var before := whole_image;
        Save(c, row, blocks_across + bi, DcOnly(lastDC));
        OnlyTrans(old(whole_image), before, whole_image, c);
      }
      FilledRowEnd(img, input, whole_image, c, row);
    }

    /** One MCU's share of a block row below the image. */
    method SaveDummyMcu(c: nat, row: nat, MCUindex: nat)
      requires Valid() && c < |img.comps| && img.BlocksDown(c) <= row < img.Down(c) && MCUindex < img.McusAcross()
        && img.comps[c].hSamp >= 1
      requires FilledTo(img, input, whole_image, c, row, Mixed(MCUindex, img.comps[c].hSamp, 0))
      modifies this`whole_image
      ensures Valid() && FilledTo(img, input, whole_image, c, row, Mixed(MCUindex + 1, img.comps[c].hSamp, 0))
      ensures OnlyComp(old(whole_image), whole_image, c)
    {
      hide FrameFor, RowsIn, GeometryOf, Image.Ok, Image.Across, Image.Down, Image.McusDown, Image.McusAcross,
           Image.BlocksDown, Image.BlocksAcross, BlockAt, FilledTo, DcOnly, Mixed, FilledBlock, OnlyComp;
      var h := img.comps[c].hSamp;
      NothingChanged(whole_image, c);
      for bi := 0 to h
        invariant Valid() && FilledTo(img, input, whole_image, c, row, Mixed(MCUindex, h, bi))
        invariant OnlyComp(old(whole_image), whole_image, c)
      {
        PaddingGroup(img, input, c, row, MCUindex, bi);
        FilledBefore(img, input, whole_image, c, row, Mixed(MCUindex, h, bi), row - 1, Mixed(MCUindex, h, h - 1));
        var lastDC := BlockAt(img, whole_image, c, row - 1, Mixed(MCUindex, h, h - 1))[0];
        ghost var before := whole_image;
        Save(c, row, Mixed(MCUindex, h, bi), DcOnly(lastDC));
        OnlyTrans(old(whole_image), before, whole_image, c);
        NextBlock(MCUindex, h, bi);
      }
      NextRow(MCUindex, h);
    }

    /** A block row below the image. */
    method SaveDummyRow(c: nat, row: nat)
      requires Valid() && c < |img.comps| && img.BlocksDown(c) <= row < img.Down(c)
      requires FilledTo(img, input, whole_image, c, row, 0)
      modifies this`whole_image
      ensures Valid() && FilledTo(img, input, whole_image, c, row + 1, 0)
      ensures OnlyComp(old(whole_image), whole_image, c)
    {
      hide FrameFor, RowsIn, GeometryOf, Image.Ok, Image.Across, Image.Down, Image.McusDown, Image.McusAcross,
           Image.BlocksDown, Image.BlocksAcross, FilledTo, Mixed, OnlyComp;
      PaddedSizes(img, c);
      SomeBlocks(img, c);
      var h := img.comps[c].hSamp;
      NothingChanged(whole_image, c);
      MixedStart(h);
      for MCUindex := 0 to img.McusAcross()
        invariant Valid() && FilledTo(img, input, whole_image, c, row, Mixed(MCUindex, h, 0))
        invariant OnlyComp(old(whole_image), whole_image, c)
      {
        ghost var before := whole_image;
        SaveDummyMcu(c, row, MCUindex);
        OnlyTrans(old(whole_image), before, whole_image, c);
      }
      MixedEnd(img.McusAcross(), h);
      FilledRowEnd(img, input, whole_image, c, row);
    }

    /** All block rows of one component in the current interleaved MCU row. */
    method SaveComponent(c: nat)
      requires Valid() && c < |img.comps| && iMCU_row_num < img.McusDown()
      requires FilledTo(img, input, whole_image, c, Strip(img, c, iMCU_row_num), 0)
      modifies this`whole_image
      ensures Valid() && FilledTo(img, input, whole_image, c, Strip(img, c, iMCU_row_num + 1), 0)
      ensures OnlyComp(old(whole_image), whole_image, c)
    {
      hide FrameFor, RowsIn, GeometryOf, Image.Ok, Image.Across, Image.Down, Image.McusDown, Image.McusAcross,
           Image.BlocksDown, Image.BlocksAcross, FilledTo, Mixed, OnlyComp, Leftover;
      var last_iMCU_row := img.McusDown() - 1;
      PaddedSizes(img, c);
      SomeBlocks(img, c);
      var v := img.comps[c].vSamp;
      LeftoverIs(img.BlocksDown(c), img.McusDown(), v);
      LeftoverSmall(img.BlocksDown(c), img.McusDown(), v);
      NothingChanged(whole_image, c);
      var block_rows := v;
      if iMCU_row_num == last_iMCU_row {
        block_rows := img.BlocksDown(c) % v;
        if block_rows == 0 {
          block_rows := v;
        }
      }
      for block_row := 0 to block_rows
        invariant Valid() && FilledTo(img, input, whole_image, c, Mixed(iMCU_row_num, v, block_row), 0)
        invariant OnlyComp(old(whole_image), whole_image, c)
      {
        ghost var before := whole_image;
        ReachesInto(iMCU_row_num, v, block_row, img.McusDown(), img.BlocksDown(c));
        NextBlock(iMCU_row_num, v, block_row);
        SaveRealRow(c, Mixed(iMCU_row_num, v, block_row));
        OnlyTrans(old(whole_image), before, whole_image, c);
      }
      if iMCU_row_num == last_iMCU_row {
        for block_row := block_rows to v
          invariant Valid() && FilledTo(img, input, whole_image, c, Mixed(iMCU_row_num, v, block_row), 0)
          invariant OnlyComp(old(whole_image), whole_image, c)
        {
          ghost var before := whole_image;
          ReachesInto(iMCU_row_num, v, block_row, img.McusDown(), img.BlocksDown(c));
          RowInside(img, c, iMCU_row_num, block_row);
          NextBlock(iMCU_row_num, v, block_row);
          SaveDummyRow(c, Mixed(iMCU_row_num, v, block_row));
          OnlyTrans(old(whole_image), before, whole_image, c);
        }
      }
      NextRow(iMCU_row_num, v);
    }

    /** compress_first_pass: saves the interleaved MCU row of every component, whether or not it takes
        part in the scan, and then sends the MCUs of the scan. A repeated call saves the same again. */
    method CompressFirstPass(sink: McuSink) returns (completed: bool)
      requires Valid() && iMCU_row_num < img.McusDown() && Saved(iMCU_row_num)
      requires Progress() <= |All()| && sink.out == All()[..Progress()]
      modifies this`whole_image, this`iMCU_row_num, this`mcu_ctr, this`MCU_vert_offset, this`MCU_rows_per_iMCU_row, sink
      ensures Valid() && Saved(iMCU_row_num) && All() == old(All()) && old(Progress()) <= Progress() <= |All()|
      ensures sink.out == All()[..Progress()] && sink.room == old(sink.room) - (Progress() - old(Progress()))
      ensures completed ==> iMCU_row_num == old(iMCU_row_num) + 1 && mcu_ctr == MCU_vert_offset == 0
      ensures !completed ==> iMCU_row_num == old(iMCU_row_num) && sink.room == 0 && Progress() < |All()|
    {
      hide FrameFor, RowsIn, GeometryOf, Image.Ok, Image.McusDown, FilledTo, Strip, AllMcus, McusBefore, OnlyComp,
           AllSaved;
      SavedNone(img, input, whole_image, iMCU_row_num + 1);
      for ci := 0 to |img.comps|
        invariant Valid() && Progress() == old(Progress()) && All() == old(All())
        invariant sink.out == old(sink.out) && sink.room == old(sink.room)
        invariant iMCU_row_num == old(iMCU_row_num) && old(iMCU_row_num) < img.McusDown()
        invariant AllSaved(img, input, whole_image, 0, ci, iMCU_row_num + 1)
          && AllSaved(img, input, whole_image, ci, |img.comps|, iMCU_row_num)
      {
        ghost var before := whole_image;
        SavedOne(img, input, whole_image, ci, |img.comps|, iMCU_row_num, ci);
        SaveComponent(ci);
        SavedNext(img, input, before, whole_image, ci, iMCU_row_num);
      }
      completed := CompressOutput(sink);
      if !completed {
        SavedBefore(img, input, whole_image, iMCU_row_num);
      }
    }

    /** The list of blocks of one MCU, from the arrays. */
    method BuildMcu(yoffset: nat, MCU_col_num: nat) returns (mcu: seq<Block>)
      requires Valid() && AtMcu(img, scan, iMCU_row_num, yoffset, MCU_col_num) && Saved(iMCU_row_num + 1)
      ensures McusBefore(img, scan, iMCU_row_num, yoffset, MCU_col_num) < |All()|
      ensures mcu == All()[McusBefore(img, scan, iMCU_row_num, yoffset, MCU_col_num)]
    {
      hide Built, FrameFor, RowsIn, RowStart, Image.Ok, Image.Across, Image.Down, Image.BlocksDown,
           Image.BlocksAcross, Image.McusDown, Image.McusAcross, AllMcus, FilledTo, Strip, BlockAt, AllSaved;
      mcu := [];
      BuiltNothing(img, input, scan, iMCU_row_num, yoffset, MCU_col_num);
      for ci := 0 to |g.comps|
        invariant Built(img, input, scan, iMCU_row_num, yoffset, MCU_col_num, mcu, ci, 0)
      {
        var compptr := g.comps[ci];
        for yindex := 0 to compptr.mcuHeight
          invariant Built(img, input, scan, iMCU_row_num, yoffset, MCU_col_num, mcu, ci,
            Mixed(yindex, compptr.mcuWidth, 0))
        {
          for xindex := 0 to compptr.mcuWidth
            invariant Built(img, input, scan, iMCU_row_num, yoffset, MCU_col_num, mcu, ci,
              Mixed(yindex, compptr.mcuWidth, xindex))
          {
            SavedOne(img, input, whole_image, 0, |img.comps|, iMCU_row_num + 1, compptr.comp);
            StepSaved(img, input, whole_image, scan, iMCU_row_num, yoffset, MCU_col_num, mcu, ci, yindex, xindex);
            var row, col := Mixed(iMCU_row_num, img.comps[compptr.comp].vSamp, yindex + yoffset),
              Mixed(MCU_col_num, compptr.mcuWidth, xindex);
            mcu := mcu + [BlockAt(img, whole_image, compptr.comp, row, col)];
            NextBlock(yindex, compptr.mcuWidth, xindex);
          }
          NextRow(yindex, compptr.mcuWidth);
        }
        WholeComp(compptr);
        BuiltComp(img, input, scan, iMCU_row_num, yoffset, MCU_col_num, mcu, ci);
      }
      BuiltAll(img, input, scan, iMCU_row_num, yoffset, MCU_col_num, mcu);
    }

    /** compress_output: one interleaved MCU row from the arrays. */
    method CompressOutput(sink: McuSink) returns (completed: bool)
      requires Valid() && iMCU_row_num < img.McusDown() && Saved(iMCU_row_num + 1)
      requires Progress() <= |All()| && sink.out == All()[..Progress()]
      modifies this`iMCU_row_num, this`mcu_ctr, this`MCU_vert_offset, this`MCU_rows_per_iMCU_row, sink
      ensures Valid() && All() == old(All()) && old(Progress()) <= Progress() <= |All()|
      ensures sink.out == All()[..Progress()] && sink.room == old(sink.room) - (Progress() - old(Progress()))
      ensures completed ==> iMCU_row_num == old(iMCU_row_num) + 1 && mcu_ctr == MCU_vert_offset == 0
      ensures !completed ==> iMCU_row_num == old(iMCU_row_num) && sink.room == 0 && Progress() < |All()|
    {
      hide FrameFor, RowsIn, RowStart, Image.Ok, Image.Across, Image.Down, Image.BlocksDown, Image.BlocksAcross,
           Image.McusDown, Image.McusAcross, AllMcus, Mixed, FilledTo, Strip, AllSaved;
      ghost var all, r := All(), iMCU_row_num;
      ScanStart(img, scan);
      var yoffset := MCU_vert_offset;
      while yoffset < MCU_rows_per_iMCU_row
        invariant Valid() && iMCU_row_num == r && yoffset <= MCU_rows_per_iMCU_row
        invariant var p := McusBefore(img, scan, r, yoffset, if yoffset < MCU_rows_per_iMCU_row then mcu_ctr else 0);
          old(Progress()) <= p <= |all| && sink.out == all[..p] && sink.room == old(sink.room) - (p - old(Progress()))
        invariant yoffset == MCU_rows_per_iMCU_row ==> mcu_ctr == 0
      {
        var MCU_col_num := mcu_ctr;
        while MCU_col_num < g.mcusPerRow
          invariant Valid() && iMCU_row_num == r && yoffset < MCU_rows_per_iMCU_row && MCU_col_num <= g.mcusPerRow
          invariant var p := McusBefore(img, scan, r, yoffset, MCU_col_num);
            old(Progress()) <= p <= |all| && sink.out == all[..p] && sink.room == old(sink.room) - (p - old(Progress()))
        {
          var mcu := BuildMcu(yoffset, MCU_col_num);
          NextMcu(img, scan, r, yoffset, MCU_col_num);
          var ok := sink.EncodeMcu(mcu);
          if !ok {
            MCU_vert_offset, mcu_ctr := yoffset, MCU_col_num;
            return false;
          }
          MCU_col_num := MCU_col_num + 1;
        }
        NextMcuRow(img, scan, r, yoffset);
        mcu_ctr := 0;
        yoffset := yoffset + 1;
      }
      NextIMcuRow(img, scan, r);
      iMCU_row_num := iMCU_row_num + 1;
      StartIMcuRow();
      completed := true;
    }

    // ---- Single pass ----

    method Store(blkn: nat, b: Block)
      requires blkn < MCU_buffer.Length
      modifies MCU_buffer
      ensures MCU_buffer[..blkn + 1] == old(MCU_buffer[..blkn]) + [b]
    {
      MCU_buffer[blkn] := b;
    }

    /** forward_DCT on a row of real blocks. */
    method TransformBlocks(ci: nat, yoffset: nat, MCU_col_num: nat, yindex: nat, blkn: nat, blockcnt: nat)
      requires Valid() && Spot(img, scan, ci, iMCU_row_num, yoffset, MCU_col_num, yindex, 0)
        && blkn <= MCU_buffer.Length
      requires blockcnt == if MCU_col_num < g.mcusPerRow - 1 then g.comps[ci].mcuWidth else g.comps[ci].lastColWidth
      requires iMCU_row_num < img.McusDown() - 1 || yindex + yoffset < g.comps[ci].lastRowHeight
      requires Built(img, input, scan, iMCU_row_num, yoffset, MCU_col_num, MCU_buffer[..blkn], ci,
        Mixed(yindex, g.comps[ci].mcuWidth, 0))
      modifies MCU_buffer
      ensures blkn + blockcnt <= MCU_buffer.Length
      ensures Built(img, input, scan, iMCU_row_num, yoffset, MCU_col_num, MCU_buffer[..blkn + blockcnt], ci,
        Mixed(yindex, g.comps[ci].mcuWidth, blockcnt))
    {
      hide Built, FrameFor, RowsIn, Image.Ok, Image.Across, Image.Down, Image.BlocksDown, Image.BlocksAcross,
           Image.McusDown, Image.McusAcross, BlockAt, Real, Mixed, Membership;
      McuBound(img, scan);
      var compptr := g.comps[ci];
      var row := Mixed(iMCU_row_num, img.comps[compptr.comp].vSamp, yindex + yoffset);
      for bi := 0 to blockcnt
        invariant blkn + bi <= MCU_buffer.Length
        invariant Built(img, input, scan, iMCU_row_num, yoffset, MCU_col_num, MCU_buffer[..blkn + bi], ci,
          Mixed(yindex, compptr.mcuWidth, bi))
      {
        ghost var done := MCU_buffer[..blkn + bi];
        SpotReal(img, scan, ci, iMCU_row_num, yoffset, MCU_col_num, yindex, bi);
        BufferRoom(img, input, scan, iMCU_row_num, yoffset, MCU_col_num, done, ci, yindex, bi);
        StepReal(img, input, scan, iMCU_row_num, yoffset, MCU_col_num, done, ci, yindex, bi);
        NextBlock(yindex, compptr.mcuWidth, bi);
        Store(blkn + bi, BlockAt(img, input, compptr.comp, row, Mixed(MCU_col_num, compptr.mcuWidth, bi)));
      }
    }

    /** One row of blocks of one component of an MCU, transformed straight into the MCU buffer. */
    method FillBlockRow(ci: nat, yoffset: nat, MCU_col_num: nat, yindex: nat, blkn: nat)
      requires Valid() && Spot(img, scan, ci, iMCU_row_num, yoffset, MCU_col_num, yindex, 0)
        && blkn <= MCU_buffer.Length
      requires Built(img, input, scan, iMCU_row_num, yoffset, MCU_col_num, MCU_buffer[..blkn], ci,
        Mixed(yindex, g.comps[ci].mcuWidth, 0))
      modifies MCU_buffer
      ensures blkn + g.comps[ci].mcuWidth <= MCU_buffer.Length
      ensures Built(img, input, scan, iMCU_row_num, yoffset, MCU_col_num, MCU_buffer[..blkn + g.comps[ci].mcuWidth], ci,
                    Mixed(yindex, g.comps[ci].mcuWidth, g.comps[ci].mcuWidth))
    {
      hide Built, FrameFor, RowsIn, Image.Ok, Image.Across, Image.Down, Image.BlocksDown, Image.BlocksAcross,
           Image.McusDown, Image.McusAcross, Real, Mixed, Membership;
      var compptr := g.comps[ci];
      var blockcnt := if MCU_col_num < g.mcusPerRow - 1 then compptr.mcuWidth else compptr.lastColWidth;
      var done := 0;
      if iMCU_row_num < img.McusDown() - 1 || yoffset + yindex < compptr.lastRowHeight {
        TransformBlocks(ci, yoffset, MCU_col_num, yindex, blkn, blockcnt);
        done := blockcnt;
      }
      for bi := done to compptr.mcuWidth
        invariant blkn + bi <= MCU_buffer.Length
        invariant Built(img, input, scan, iMCU_row_num, yoffset, MCU_col_num, MCU_buffer[..blkn + bi], ci,
          Mixed(yindex, compptr.mcuWidth, bi))
      {
        SpotReal(img, scan, ci, iMCU_row_num, yoffset, MCU_col_num, yindex, bi);
        PadBlock(ci, yoffset, MCU_col_num, yindex, bi, blkn + bi);
      }
    }

    /** A dummy block: zero but for the DC value of the block before it. */
    method PadBlock(ci: nat, yoffset: nat, MCU_col_num: nat, yindex: nat, xindex: nat, blkn: nat)
      requires Valid() && Spot(img, scan, ci, iMCU_row_num, yoffset, MCU_col_num, yindex, xindex)
        && blkn <= MCU_buffer.Length
      requires !Real(img, scan[ci], Mixed(iMCU_row_num, img.comps[scan[ci]].vSamp, yindex + yoffset),
        Mixed(MCU_col_num, g.comps[ci].mcuWidth, xindex))
      requires Built(img, input, scan, iMCU_row_num, yoffset, MCU_col_num, MCU_buffer[..blkn], ci,
        Mixed(yindex, g.comps[ci].mcuWidth, xindex))
      modifies MCU_buffer
      ensures blkn + 1 <= MCU_buffer.Length
      ensures Built(img, input, scan, iMCU_row_num, yoffset, MCU_col_num, MCU_buffer[..blkn + 1], ci,
        Mixed(yindex, g.comps[ci].mcuWidth, xindex + 1))
    {
      hide Built, FrameFor, RowsIn, Image.Ok, Image.Across, Image.Down, Image.BlocksDown, Image.BlocksAcross,
           Image.McusDown, Image.McusAcross, Real, Mixed, Membership;
      ghost var done := MCU_buffer[..blkn];
      StepPadding(img, input, scan, iMCU_row_num, yoffset, MCU_col_num, done, ci, yindex, xindex);
      NextBlock(yindex, g.comps[ci].mcuWidth, xindex);
      Store(blkn, DcOnly(MCU_buffer[blkn - 1][0]));
    }

    /** All components of an MCU. */
    method FillMcu(yoffset: nat, MCU_col_num: nat) returns (n: nat)
      requires Valid() && AtMcu(img, scan, iMCU_row_num, yoffset, MCU_col_num)
      modifies MCU_buffer
      ensures McusBefore(img, scan, iMCU_row_num, yoffset, MCU_col_num) < |All()| && n <= MCU_buffer.Length
      ensures MCU_buffer[..n] == All()[McusBefore(img, scan, iMCU_row_num, yoffset, MCU_col_num)]
    {
      hide Mixed, McuSize, Membership, Built, FrameFor, RowsIn, RowStart, Image.Ok, Image.Across, Image.Down,
           Image.BlocksDown, Image.BlocksAcross, Image.McusDown, Image.McusAcross, AllMcus;
      n := 0;
      BuiltNothing(img, input, scan, iMCU_row_num, yoffset, MCU_col_num);
      assert MCU_buffer[..0] == [];
      for ci := 0 to |g.comps|
        invariant n <= MCU_buffer.Length
          && Built(img, input, scan, iMCU_row_num, yoffset, MCU_col_num, MCU_buffer[..n], ci, 0)
      {
        var compptr := g.comps[ci];
        MixedStart(compptr.mcuWidth);
        for yindex := 0 to compptr.mcuHeight
          invariant n <= MCU_buffer.Length
          invariant Built(img, input, scan, iMCU_row_num, yoffset, MCU_col_num, MCU_buffer[..n], ci,
            Mixed(yindex, compptr.mcuWidth, 0))
        {
          FillBlockRow(ci, yoffset, MCU_col_num, yindex, n);
          n := n + compptr.mcuWidth;
          NextRow(yindex, compptr.mcuWidth);
        }
        WholeComp(compptr);
        BuiltComp(img, input, scan, iMCU_row_num, yoffset, MCU_col_num, MCU_buffer[..n], ci);
      }
      BuiltAll(img, input, scan, iMCU_row_num, yoffset, MCU_col_num, MCU_buffer[..n]);
    }

    /** compress_data: one interleaved MCU row, without arrays. */
    method CompressData(sink: McuSink) returns (completed: bool)
      requires Valid() && iMCU_row_num < img.McusDown()
      requires Progress() <= |All()| && sink.out == All()[..Progress()]
      modifies this`iMCU_row_num, this`mcu_ctr, this`MCU_vert_offset, this`MCU_rows_per_iMCU_row, MCU_buffer, sink
      ensures Valid() && All() == old(All()) && old(Progress()) <= Progress() <= |All()|
      ensures sink.out == All()[..Progress()] && sink.room == old(sink.room) - (Progress() - old(Progress()))
      ensures completed ==> iMCU_row_num == old(iMCU_row_num) + 1 && mcu_ctr == MCU_vert_offset == 0
      ensures !completed ==> iMCU_row_num == old(iMCU_row_num) && sink.room == 0 && Progress() < |All()|
    {
      hide FrameFor, RowsIn, RowStart, Image.Ok, Image.Across, Image.Down, Image.BlocksDown, Image.BlocksAcross,
           Image.McusDown, Image.McusAcross, AllMcus, Mixed;
      ghost var all, r := All(), iMCU_row_num;
      ScanStart(img, scan);
      var yoffset := MCU_vert_offset;
      while yoffset < MCU_rows_per_iMCU_row
        invariant Valid() && iMCU_row_num == r && yoffset <= MCU_rows_per_iMCU_row
        invariant var p := McusBefore(img, scan, r, yoffset, if yoffset < MCU_rows_per_iMCU_row then mcu_ctr else 0);
          old(Progress()) <= p <= |all| && sink.out == all[..p] && sink.room == old(sink.room) - (p - old(Progress()))
        invariant yoffset == MCU_rows_per_iMCU_row ==> mcu_ctr == 0
      {
        var MCU_col_num := mcu_ctr;
        while MCU_col_num < g.mcusPerRow
          invariant Valid() && iMCU_row_num == r && yoffset < MCU_rows_per_iMCU_row && MCU_col_num <= g.mcusPerRow
          invariant var p := McusBefore(img, scan, r, yoffset, MCU_col_num);
            old(Progress()) <= p <= |all| && sink.out == all[..p] && sink.room == old(sink.room) - (p - old(Progress()))
        {
          var n := FillMcu(yoffset, MCU_col_num);
          NextMcu(img, scan, r, yoffset, MCU_col_num);
          var ok := sink.EncodeMcu(MCU_buffer[..n]);
          if !ok {
            MCU_vert_offset, mcu_ctr := yoffset, MCU_col_num;
            return false;
          }
          MCU_col_num := MCU_col_num + 1;
        }
        NextMcuRow(img, scan, r, yoffset);
        mcu_ctr := 0;
        yoffset := yoffset + 1;
      }
      NextIMcuRow(img, scan, r);
      iMCU_row_num := iMCU_row_num + 1;
      StartIMcuRow();
      completed := true;
    }
  }

  // ---- Passes ----

  /** The buffer modes JBUF_PASS_THRU, JBUF_SAVE_AND_PASS and JBUF_CRANK_DEST. */
  datatype BufferMode = PassThru | SaveAndPass | CrankDest

  /** A pass over the image: it fails exactly when the entropy encoder refuses an MCU. In all three
      modes it otherwise sends the same MCUs, and a saving pass leaves the filled arrays behind. */
  method RunPass(coef: CompressCoefController, mode: BufferMode, sink: McuSink) returns (ok: bool)
    requires coef.Valid() && coef.iMCU_row_num == coef.mcu_ctr == coef.MCU_vert_offset == 0 && sink.out == []
    requires mode.CrankDest? ==> coef.Saved(coef.img.McusDown())
    modifies coef, coef.MCU_buffer, sink
    ensures coef.Valid() && coef.All() == old(coef.All())
    ensures ok <==> |coef.All()| <= old(sink.room)
    ensures ok ==> sink.out == coef.All()
    ensures ok && !mode.PassThru? ==> coef.Saved(coef.img.McusDown())
  {
    hide FrameFor, RowsIn, RowStart, GeometryOf, Image.Ok, Image.McusDown, AllMcus, Mixed, FilledTo, Strip, AllSaved;
    ghost var all := coef.All();
    ScanStart(coef.img, coef.scan);
    SavedAtStart(coef.img, coef.input, coef.whole_image);
    var iMCU_row := 0;
    while iMCU_row < coef.img.McusDown()
      invariant iMCU_row <= coef.img.McusDown() && coef.Valid() && coef.iMCU_row_num == iMCU_row && coef.All() == all
      invariant coef.mcu_ctr == coef.MCU_vert_offset == 0
      invariant coef.Progress() <= |all| && sink.out == all[..coef.Progress()]
        && sink.room == old(sink.room) - coef.Progress()
      invariant mode.SaveAndPass? ==> coef.Saved(iMCU_row)
      invariant mode.CrankDest? ==> coef.Saved(coef.img.McusDown())
    {
      match mode {
        case PassThru => ok := coef.CompressData(sink);
        case SaveAndPass => ok := coef.CompressFirstPass(sink);
        case CrankDest =>
          SavedPrefix(coef.img, coef.input, coef.whole_image, iMCU_row + 1, coef.img.McusDown());
          ok := coef.CompressOutput(sink);
      }
      if !ok {
        return;
      }
      iMCU_row := iMCU_row + 1;
    }
    ScanEnd(coef.img, coef.input, coef.scan);
    assert all[..|all|] == all;
    ok := true;
  }

  lemma SavedAtStart(img: Image, input: Frame, f: Frame)
    requires img.Ok() && FrameFor(img, input) && FrameFor(img, f)
    ensures AllSaved(img, input, f, 0, |img.comps|, 0)
  {
    hide Image.Ok, Image.Across, Image.Down, FilledBlock, BlockAt, FrameFor;
    forall c | 0 <= c < |img.comps| ensures StripSaved(img, input, f, c, 0) {
      SomeBlocks(img, c);
      MixedStart(img.comps[c].vSamp);
    }
  }

  lemma {:induction false} SavedPrefix(img: Image, input: Frame, f: Frame, r: nat, n: nat)
    requires img.Ok() && FrameFor(img, input) && FrameFor(img, f) && r <= n
      && AllSaved(img, input, f, 0, |img.comps|, n)
    ensures AllSaved(img, input, f, 0, |img.comps|, r)
    decreases n
  {
    hide FrameFor, AllSaved, Image.Ok;
    if r < n {
      SavedBefore(img, input, f, n - 1);
      SavedPrefix(img, input, f, r, n - 1);
    }
  }

  /** Padding depends on the real blocks only: a transcoder, whose arrays may hold anything in their
      padding, sends the same MCUs as a compressor with the same real blocks. */
  lemma SameMcus(img: Image, scan: seq<nat>, f: Frame, f': Frame)
    requires ScanReady(img, scan) && FrameFor(img, f) && FrameFor(img, f')
    requires forall p :: p in Shown(img) && In(p, f) && In(p, f') ==> At(f, p) == At(f', p)
    ensures AllMcus(img, f, scan) == AllMcus(img, f', scan)
  {
    hide Image.Ok, Image.Across, Image.Down, Filled, ScanLayout, Within;
    SameFilled(img, f, f');
  }

  lemma SameFilled(img: Image, f: Frame, f': Frame)
    requires img.Ok() && FrameFor(img, f) && FrameFor(img, f')
    requires forall p :: p in Shown(img) && In(p, f) && In(p, f') ==> At(f, p) == At(f', p)
    ensures Filled(img, f) == Filled(img, f')
  {
    hide Image.Ok, Image.Across, Image.Down, FilledBlock, IdxRow, IdxCol, Shown;
    forall c, idx | 0 <= c < |f| && 0 <= idx < |f[c]| ensures FilledIdx(img, f, c, idx) == FilledIdx(img, f', c, idx) {
      SameFilledBlock(img, f, f', c, IdxRow(img, c, idx), IdxCol(img, c, idx));
    }
    forall c | 0 <= c < |f| ensures Filled(img, f)[c] == Filled(img, f')[c] {}
  }

  lemma SameFilledBlock(img: Image, f: Frame, f': Frame, c: nat, row: nat, col: nat)
    requires img.Ok() && FrameFor(img, f) && FrameFor(img, f') && c < |img.comps| && row < img.Down(c)
      && col < img.Across(c)
    requires forall p :: p in Shown(img) && In(p, f) && In(p, f') ==> At(f, p) == At(f', p)
    ensures FilledBlock(img, f, c, row, col) == FilledBlock(img, f', c, row, col)
  {
    hide Image.Ok, Image.Across, Image.Down, Image.BlocksDown, Image.BlocksAcross, SourceRow, SourceCol, BlockAt;
    PaddedSizes(img, c);
    if Real(img, c, row, col) { SameReal(img, f, f', c, row, col); }
    else { SameReal(img, f, f', c, SourceRow(img, c, row), SourceCol(img, c, row, col)); }
  }

  lemma SameReal(img: Image, f: Frame, f': Frame, c: nat, row: nat, col: nat)
    requires img.Ok() && FrameFor(img, f) && FrameFor(img, f') && c < |img.comps| && row < img.Down(c)
      && col < img.Across(c)
    requires Real(img, c, row, col)
    requires forall p :: p in Shown(img) && In(p, f) && In(p, f') ==> At(f, p) == At(f', p)
    ensures BlockAt(img, f, c, row, col) == BlockAt(img, f', c, row, col)
  {
    hide Image.Ok, Image.Across, Image.Down, Image.BlocksDown, Image.BlocksAcross;
    PosIn(img, f, c, row, col);
    PosIn(img, f', c, row, col);
    DivMod(row, img.Across(c), col);
    assert PosAt(img, c, row, col) in Shown(img);
  }

  lemma NothingChanged(f: Frame, c: nat)
    ensures OnlyComp(f, f, c)
  {}

  lemma RowInside(img: Image, c: nat, r: nat, block_row: nat)
    requires img.Ok() && c < |img.comps| && r < img.McusDown() && block_row < img.comps[c].vSamp
    ensures Mixed(r, img.comps[c].vSamp, block_row) < img.Down(c)
  {
    hide Image.Ok, Image.Across, Image.Down, Image.McusDown, Image.McusAcross, Image.BlocksDown, Image.BlocksAcross;
    PaddedSizes(img, c);
    MixedBound(r, img.comps[c].vSamp, block_row, img.McusDown());
  }

  /** Components lo up to hi hold the filled blocks of all interleaved MCU rows before r. */
  ghost predicate AllSaved(img: Image, input: Frame, f: Frame, lo: nat, hi: nat, r: nat)
    requires img.Ok() && FrameFor(img, input) && FrameFor(img, f) && hi <= |img.comps|
  {
    forall c :: lo <= c < hi ==> StripSaved(img, input, f, c, r)
  }

  ghost predicate StripSaved(img: Image, input: Frame, f: Frame, c: nat, r: nat)
    requires img.Ok() && FrameFor(img, input) && FrameFor(img, f) && c < |img.comps|
  {
    FilledTo(img, input, f, c, Strip(img, c, r), 0)
  }

  lemma SavedNone(img: Image, input: Frame, f: Frame, r: nat)
    requires img.Ok() && FrameFor(img, input) && FrameFor(img, f)
    ensures AllSaved(img, input, f, 0, 0, r)
  {}

  lemma SavedOne(img: Image, input: Frame, f: Frame, lo: nat, hi: nat, r: nat, c: nat)
    requires img.Ok() && FrameFor(img, input) && FrameFor(img, f) && hi <= |img.comps| && lo <= c < hi
      && AllSaved(img, input, f, lo, hi, r)
    ensures FilledTo(img, input, f, c, Strip(img, c, r), 0)
  {
    hide Image.Ok, FilledTo, Strip;
    assert StripSaved(img, input, f, c, r);
  }

  /** Component ci is saved too, and the others are as before. */
  lemma SavedNext(img: Image, input: Frame, f: Frame, f': Frame, ci: nat, r: nat)
    requires img.Ok() && FrameFor(img, input) && FrameFor(img, f) && FrameFor(img, f') && OnlyComp(f, f', ci)
      && ci < |img.comps|
    requires AllSaved(img, input, f, 0, ci, r + 1) && AllSaved(img, input, f, ci, |img.comps|, r)
    requires FilledTo(img, input, f', ci, Strip(img, ci, r + 1), 0)
    ensures AllSaved(img, input, f', 0, ci + 1, r + 1) && AllSaved(img, input, f', ci + 1, |img.comps|, r)
  {
    hide Image.Ok, Image.Across, Image.Down, FilledTo, Strip, FrameFor;
    var next := r + 1;
    forall c | 0 <= c < ci + 1 ensures StripSaved(img, input, f', c, next) {
      if c < ci {
        SavedOne(img, input, f, 0, ci, next, c);
        OtherFilled(img, input, f, f', ci, c, Strip(img, c, next));
      }
    }
    forall c | ci + 1 <= c < |img.comps| ensures StripSaved(img, input, f', c, r) {
      SavedOne(img, input, f, ci, |img.comps|, r, c);
      OtherFilled(img, input, f, f', ci, c, Strip(img, c, r));
    }
  }

  lemma OtherFilled(img: Image, input: Frame, f: Frame, f': Frame, ci: nat, c: nat, row: nat)
    requires img.Ok() && FrameFor(img, input) && FrameFor(img, f) && FrameFor(img, f') && OnlyComp(f, f', ci)
      && c != ci && c < |img.comps|
    requires FilledTo(img, input, f, c, row, 0)
    ensures FilledTo(img, input, f', c, row, 0)
  {
    hide Image.Ok, Image.Across, Image.Down, FilledBlock;
    assert f[c] == f'[c];
  }

  lemma SavedBefore(img: Image, input: Frame, f: Frame, r: nat)
    requires img.Ok() && FrameFor(img, input) && FrameFor(img, f) && AllSaved(img, input, f, 0, |img.comps|, r + 1)
    ensures AllSaved(img, input, f, 0, |img.comps|, r)
  {
    hide Image.Ok, Image.Across, Image.Down, FilledTo, FrameFor, Strip;
    forall c | 0 <= c < |img.comps| ensures StripSaved(img, input, f, c, r) {
      SavedOne(img, input, f, 0, |img.comps|, r + 1, c);
      StripGrows(img, c, r);
      FilledLess(img, input, f, c, Strip(img, c, r), Strip(img, c, r + 1));
    }
  }

  lemma StripGrows(img: Image, c: nat, r: nat)
    requires img.Ok() && c < |img.comps|
    ensures Strip(img, c, r) <= Strip(img, c, r + 1)
  {
    hide Image.Ok;
    SomeBlocks(img, c);
    MulMono(r, r + 1, img.comps[c].vSamp);
  }

  lemma FilledLess(img: Image, input: Frame, f: Frame, c: nat, row: nat, row': nat)
    requires img.Ok() && FrameFor(img, input) && FrameFor(img, f) && c < |img.comps| && row <= row'
      && FilledTo(img, input, f, c, row', 0)
    ensures FilledTo(img, input, f, c, row, 0)
  {
    hide Image.Ok, Image.Across, Image.Down, FilledBlock, BlockAt, FrameFor;
  }

  /** A saved block is the one that the MCU needs next. */
  lemma StepSaved(img: Image, input: Frame, f: Frame, scan: seq<nat>, r: nat, yoffset: nat, X: nat, mcu: seq<Block>,
                  k: nat, y: nat, x: nat)
    requires Spot(img, scan, k, r, yoffset, X, y, x) && FrameFor(img, input) && FrameFor(img, f)
    requires Built(img, input, scan, r, yoffset, X, mcu, k, Mixed(y, CompsOf(img, scan)[k].mcuWidth, x))
    requires FilledTo(img, input, f, scan[k], Strip(img, scan[k], r + 1), 0)
    ensures var row, col := Mixed(r, img.comps[scan[k]].vSamp, y + yoffset),
      Mixed(X, CompsOf(img, scan)[k].mcuWidth, x);
      && row < img.Down(scan[k]) && col < img.Across(scan[k])
      && Built(img, input, scan, r, yoffset, X, mcu + [BlockAt(img, f, scan[k], row, col)], k,
         Mixed(y, CompsOf(img, scan)[k].mcuWidth, x) + 1)
  {
    hide Built, BlockAt, Spot, RowStart, GeometryOf, CompsOf, RowsIn, Image.Ok, Image.Across, Image.Down,
         Image.McusDown, Mixed, FrameFor, McuSize, Membership, Scannable, FilledBlock, FilledTo, Strip;
    SpotFacts(img, scan, k, r, yoffset, X, y, x);
    var c, sc := scan[k], CompsOf(img, scan)[k];
    var R, n := RowStart(img, scan, r) + yoffset, Mixed(y, sc.mcuWidth, x);
    var row, col := Mixed(r, img.comps[c].vSamp, y + yoffset), Mixed(X, sc.mcuWidth, x);
    BuiltFrame(img, input, scan, r, yoffset, X, mcu, k, n);
    SpotPlace(img, scan, k, r, yoffset, X, y, x);
    GeometryInside(img, scan, k, R, X);
    StripHolds(img, c, r, y + yoffset);
    FilledBefore(img, input, f, c, Strip(img, c, r + 1), 0, row, col);
    CompFillAt(img, input, sc, R, X, n, row, col);
    BuiltOne(img, input, scan, r, yoffset, X, mcu, k, n, BlockAt(img, f, c, row, col));
  }

  lemma StripHolds(img: Image, c: nat, r: nat, y: nat)
    requires img.Ok() && c < |img.comps| && y < img.comps[c].vSamp
    ensures Mixed(r, img.comps[c].vSamp, y) < Strip(img, c, r + 1)
  {
    hide Image.Ok;
    SomeBlocks(img, c);
    MixedBound(r, img.comps[c].vSamp, y, r + 1);
  }

  lemma BufferRoom(img: Image, f: Frame, scan: seq<nat>, r: nat, yoffset: nat, X: nat, mcu: seq<Block>, k: nat,
                   y: nat, x: nat)
    requires Spot(img, scan, k, r, yoffset, X, y, x)
    requires Built(img, f, scan, r, yoffset, X, mcu, k, Mixed(y, CompsOf(img, scan)[k].mcuWidth, x))
    ensures |mcu| < |Membership(CompsOf(img, scan))|
  {
    hide Built, Spot, RowStart, GeometryOf, CompsOf, RowsIn, Image.Ok, Image.Across, Image.Down, Image.McusDown,
         FrameFor, McuSize, Membership, Scannable;
    SpotFacts(img, scan, k, r, yoffset, X, y, x);
    SpotPlace(img, scan, k, r, yoffset, X, y, x);
    BuiltFrame(img, f, scan, r, yoffset, X, mcu, k, Mixed(y, CompsOf(img, scan)[k].mcuWidth, x));
  }

  /** The first block row of interleaved MCU row r of component c. */
  function Strip(img: Image, c: nat, r: nat): nat
    requires img.Ok() && c < |img.comps|
  {
    SomeBlocks(img, c);
    Mixed(r, img.comps[c].vSamp, 0)
  }

  lemma MixedStart(m: nat)
    ensures Mixed(0, m, 0) == 0
  {}

  lemma MixedEnd(q: nat, m: nat)
    ensures Mixed(q, m, 0) == q * m
  {}
}
