/** The coefficient controller of the transcoder: coefficient arrays in, MCUs out, with padding
    blocks made up on the way. */
module TransCoder {
  import opened Coefficients
  import opened Frames
  import opened McuGeometry
  import opened McuLayout
  import opened DummyBlocks
  import opened McuFilling
  import opened EncoderFeed

  class TransCoefController {
    const img: Image
    const scan: seq<nat>
    const g: ScanGeometry
    const whole_image: Frame
    const dummy_buffer: array<Block>
    var iMCU_row_num: nat
    var mcu_ctr: nat
    var MCU_vert_offset: nat
    var MCU_rows_per_iMCU_row: nat

    ghost predicate Valid()
      reads this, dummy_buffer
    {
      && ScanReady(img, scan) && g == GeometryOf(img, scan) && FrameFor(img, whole_image)
      && dummy_buffer.Length == MAX_BLOCKS_IN_MCU && (forall i :: 0 <= i < dummy_buffer.Length ==>
         NoAc(dummy_buffer[i]))
      && iMCU_row_num <= img.McusDown() && MCU_rows_per_iMCU_row == RowsIn(img, scan, iMCU_row_num)
      && MCU_vert_offset < MCU_rows_per_iMCU_row && mcu_ctr < g.mcusPerRow
    }

    /** The number of MCUs done with. */
    ghost function Progress(): nat
      reads this, dummy_buffer
      requires Valid()
    {
      McusBefore(img, scan, iMCU_row_num, MCU_vert_offset, mcu_ctr)
    }

    /** start_pass_coef */
    constructor (img: Image, scan: seq<nat>, whole_image: Frame)
      requires ScanReady(img, scan) && FrameFor(img, whole_image)
      ensures Valid() && fresh(dummy_buffer) && iMCU_row_num == mcu_ctr == MCU_vert_offset == 0
      ensures this.img == img && this.scan == scan && this.whole_image == whole_image
    {
      hide FrameFor, RowsIn, McusBefore, GeometryOf, Image.Ok, Image.McusDown;
      ScanStart(img, scan);
      this.img, this.scan, this.whole_image := img, scan, whole_image;
      g := GeometryOf(img, scan);
      dummy_buffer := new Block[MAX_BLOCKS_IN_MCU](_ => DcOnly(0));
      iMCU_row_num, mcu_ctr, MCU_vert_offset := 0, 0, 0;
      MCU_rows_per_iMCU_row := RowsIn(img, scan, 0);
    }

    /** start_iMCU_row */
    method StartIMcuRow()
      requires ScanReady(img, scan) && g == GeometryOf(img, scan)
      modifies this`mcu_ctr, this`MCU_vert_offset, this`MCU_rows_per_iMCU_row
      ensures mcu_ctr == MCU_vert_offset == 0 && MCU_rows_per_iMCU_row == RowsIn(img, scan, iMCU_row_num)
    {
      if |scan| > 1 {
        MCU_rows_per_iMCU_row := 1;
      } else if iMCU_row_num < img.McusDown() - 1 {
        SomeBlocks(img, scan[0]);
        MCU_rows_per_iMCU_row := img.comps[scan[0]].vSamp;
      } else {
        MCU_rows_per_iMCU_row := g.comps[0].lastRowHeight;
      }
      mcu_ctr, MCU_vert_offset := 0, 0;
    }

    /** Pointers to real blocks in a block row of an MCU. */
    method AddRealBlocks(mcu: seq<Block>, ci: nat, yoffset: nat, MCU_col_num: nat, yindex: nat, blockcnt: nat)
      returns (MCU_buffer: seq<Block>)
      requires Valid() && Spot(img, scan, ci, iMCU_row_num, yoffset, MCU_col_num, yindex, 0)
      requires blockcnt == if MCU_col_num < g.mcusPerRow - 1 then g.comps[ci].mcuWidth else g.comps[ci].lastColWidth
      requires iMCU_row_num < img.McusDown() - 1 || yindex + yoffset < g.comps[ci].lastRowHeight
      requires Built(img, whole_image, scan, iMCU_row_num, yoffset, MCU_col_num, mcu, ci,
        Mixed(yindex, g.comps[ci].mcuWidth, 0))
      ensures Built(img, whole_image, scan, iMCU_row_num, yoffset, MCU_col_num, MCU_buffer, ci,
        Mixed(yindex, g.comps[ci].mcuWidth, blockcnt))
    {
      hide Built, FrameFor, RowsIn, Image.Ok, Image.Across, Image.Down, Image.BlocksDown, Image.BlocksAcross,
           Image.McusDown, Image.McusAcross, BlockAt, Real, Mixed, NoAc;
      var c, w := g.comps[ci].comp, g.comps[ci].mcuWidth;
      var row := Mixed(iMCU_row_num, img.comps[c].vSamp, yindex + yoffset);
      MCU_buffer := mcu;
      var xindex := 0;
      while xindex < blockcnt
        invariant xindex <= blockcnt <= w
        invariant Built(img, whole_image, scan, iMCU_row_num, yoffset, MCU_col_num, MCU_buffer, ci,
          Mixed(yindex, w, xindex))
      {
        SpotReal(img, scan, ci, iMCU_row_num, yoffset, MCU_col_num, yindex, xindex);
        StepReal(img, whole_image, scan, iMCU_row_num, yoffset, MCU_col_num, MCU_buffer, ci, yindex, xindex);
        NextBlock(yindex, w, xindex);
        MCU_buffer := MCU_buffer + [BlockAt(img, whole_image, c, row, Mixed(MCU_col_num, w, xindex))];
        xindex := xindex + 1;
      }
    }

    /** Any dummy blocks needed in a block row of an MCU. */
    method AddDummyBlocks(mcu: seq<Block>, ci: nat, yoffset: nat, MCU_col_num: nat, yindex: nat, from: nat)
      returns (MCU_buffer: seq<Block>)
      requires Valid() && Spot(img, scan, ci, iMCU_row_num, yoffset, MCU_col_num, yindex, 0)
        && from <= g.comps[ci].mcuWidth
      requires (iMCU_row_num < img.McusDown() - 1 || yindex + yoffset < g.comps[ci].lastRowHeight) ==>
        from >= if MCU_col_num < g.mcusPerRow - 1 then g.comps[ci].mcuWidth else g.comps[ci].lastColWidth
      requires Built(img, whole_image, scan, iMCU_row_num, yoffset, MCU_col_num, mcu, ci,
        Mixed(yindex, g.comps[ci].mcuWidth, from))
      modifies dummy_buffer
      ensures Valid()
      ensures Built(img, whole_image, scan, iMCU_row_num, yoffset, MCU_col_num, MCU_buffer, ci,
        Mixed(yindex, g.comps[ci].mcuWidth, g.comps[ci].mcuWidth))
    {
      hide Built, FrameFor, RowsIn, Image.Ok, Image.Across, Image.Down, Image.BlocksDown, Image.BlocksAcross,
           Image.McusDown, Image.McusAcross, BlockAt, DcOnly, Real, Mixed, NoAc;
      var w := g.comps[ci].mcuWidth;
      MCU_buffer := mcu;
      var xindex := from;
      while xindex < w
        invariant from <= xindex <= w && Valid()
        invariant Built(img, whole_image, scan, iMCU_row_num, yoffset, MCU_col_num, MCU_buffer, ci,
          Mixed(yindex, w, xindex))
      {
        SpotReal(img, scan, ci, iMCU_row_num, yoffset, MCU_col_num, yindex, xindex);
        StepPadding(img, whole_image, scan, iMCU_row_num, yoffset, MCU_col_num, MCU_buffer, ci, yindex, xindex);
        NextBlock(yindex, w, xindex);
        var blkn := |MCU_buffer|;
        SetDc(dummy_buffer[blkn], MCU_buffer[blkn - 1][0]);
        dummy_buffer[blkn] := dummy_buffer[blkn][0 := MCU_buffer[blkn - 1][0]];
        MCU_buffer := MCU_buffer + [dummy_buffer[blkn]];
        xindex := xindex + 1;
      }
    }

    /** One row of blocks of one component of an MCU. */
    method AddBlockRow(mcu: seq<Block>, ci: nat, yoffset: nat, MCU_col_num: nat, yindex: nat)
      returns (MCU_buffer: seq<Block>)
      requires Valid() && Spot(img, scan, ci, iMCU_row_num, yoffset, MCU_col_num, yindex, 0)
      requires Built(img, whole_image, scan, iMCU_row_num, yoffset, MCU_col_num, mcu, ci,
        Mixed(yindex, g.comps[ci].mcuWidth, 0))
      modifies dummy_buffer
      ensures Valid()
      ensures Built(img, whole_image, scan, iMCU_row_num, yoffset, MCU_col_num, MCU_buffer, ci,
        Mixed(yindex, g.comps[ci].mcuWidth, g.comps[ci].mcuWidth))
    {
      hide Built, FrameFor, RowsIn, Image.Ok, Image.Across, Image.Down, Image.BlocksDown, Image.BlocksAcross,
           Image.McusDown, Image.McusAcross, Mixed, NoAc;
      var compptr := g.comps[ci];
      var blockcnt := if MCU_col_num < g.mcusPerRow - 1 then compptr.mcuWidth else compptr.lastColWidth;
      var xindex := 0;
      MCU_buffer := mcu;
      if iMCU_row_num < img.McusDown() - 1 || yindex + yoffset < compptr.lastRowHeight {
        MCU_buffer := AddRealBlocks(MCU_buffer, ci, yoffset, MCU_col_num, yindex, blockcnt);
        xindex := blockcnt;
      }
      MCU_buffer := AddDummyBlocks(MCU_buffer, ci, yoffset, MCU_col_num, yindex, xindex);
    }

    /** The list of blocks of one MCU. */
    method BuildMcu(yoffset: nat, MCU_col_num: nat) returns (MCU_buffer: seq<Block>)
      requires Valid() && AtMcu(img, scan, iMCU_row_num, yoffset, MCU_col_num)
      modifies dummy_buffer
      ensures Valid()
      ensures McusBefore(img, scan, iMCU_row_num, yoffset, MCU_col_num) < |AllMcus(img, whole_image, scan)|
      ensures MCU_buffer == AllMcus(img, whole_image, scan)[McusBefore(img, scan, iMCU_row_num, yoffset, MCU_col_num)]
    {
      hide Built, FrameFor, RowsIn, RowStart, Image.Ok, Image.Across, Image.Down, Image.BlocksDown,
           Image.BlocksAcross, Image.McusDown, Image.McusAcross, AllMcus;
      MCU_buffer := [];
      BuiltNothing(img, whole_image, scan, iMCU_row_num, yoffset, MCU_col_num);
      for ci := 0 to |g.comps|
        invariant Valid() && Built(img, whole_image, scan, iMCU_row_num, yoffset, MCU_col_num, MCU_buffer, ci, 0)
      {
        var compptr := g.comps[ci];
        for yindex := 0 to compptr.mcuHeight
          invariant Valid() && Built(img, whole_image, scan, iMCU_row_num, yoffset, MCU_col_num, MCU_buffer, ci,
            Mixed(yindex, compptr.mcuWidth, 0))
        {
          MCU_buffer := AddBlockRow(MCU_buffer, ci, yoffset, MCU_col_num, yindex);
          NextRow(yindex, compptr.mcuWidth);
        }
        WholeComp(compptr);
        BuiltComp(img, whole_image, scan, iMCU_row_num, yoffset, MCU_col_num, MCU_buffer, ci);
      }
      BuiltAll(img, whole_image, scan, iMCU_row_num, yoffset, MCU_col_num, MCU_buffer);
    }

    /** compress_output: one interleaved MCU row, or as much of it as the entropy encoder takes. */
    method CompressOutput(sink: McuSink) returns (completed: bool)
      requires Valid() && iMCU_row_num < img.McusDown()
      requires Progress() <= |AllMcus(img, whole_image, scan)|
        && sink.out == AllMcus(img, whole_image, scan)[..Progress()]
      modifies this`iMCU_row_num, this`mcu_ctr, this`MCU_vert_offset, this`MCU_rows_per_iMCU_row, dummy_buffer, sink
      ensures Valid() && old(Progress()) <= Progress() <= |AllMcus(img, whole_image, scan)|
      ensures sink.out == AllMcus(img, whole_image, scan)[..Progress()]
        && sink.room == old(sink.room) - (Progress() - old(Progress()))
      ensures completed ==> iMCU_row_num == old(iMCU_row_num) + 1 && mcu_ctr == MCU_vert_offset == 0
      ensures !completed ==>
        iMCU_row_num == old(iMCU_row_num) && sink.room == 0 && Progress() < |AllMcus(img, whole_image, scan)|
    {
      hide FrameFor, RowsIn, RowStart, Image.Ok, Image.Across, Image.Down, Image.BlocksDown, Image.BlocksAcross,
           Image.McusDown, Image.McusAcross, AllMcus, Mixed;
      ghost var all, r := AllMcus(img, whole_image, scan), iMCU_row_num;
      ScanStart(img, scan);
      var yoffset := MCU_vert_offset;
      while yoffset < MCU_rows_per_iMCU_row
        invariant Valid() && iMCU_row_num == r && yoffset <= MCU_rows_per_iMCU_row
        invariant var p := McusBefore(img, scan, r, yoffset, if yoffset < MCU_rows_per_iMCU_row then mcu_ctr else 0);
          old(Progress()) <= p <= |all| && sink.out == all[..p] && sink.room == old(sink.room) - (p - old(Progress()))
        invariant yoffset == MCU_rows_per_iMCU_row ==> mcu_ctr == 0
      {
        var MCU_col_num := mcu_ctr;
        while MCU_col_num < g.mcusPerRow
          invariant Valid() && iMCU_row_num == r && yoffset < MCU_rows_per_iMCU_row && MCU_col_num <= g.mcusPerRow
          invariant var p := McusBefore(img, scan, r, yoffset, MCU_col_num);
            old(Progress()) <= p <= |all| && sink.out == all[..p] && sink.room == old(sink.room) - (p - old(Progress()))
        {
          var MCU_buffer := BuildMcu(yoffset, MCU_col_num);
          NextMcu(img, scan, r, yoffset, MCU_col_num);
          var ok := sink.EncodeMcu(MCU_buffer);
          if !ok {
            MCU_vert_offset, mcu_ctr := yoffset, MCU_col_num;
            return false;
          }
          MCU_col_num := MCU_col_num + 1;
        }
        NextMcuRow(img, scan, r, yoffset);
        mcu_ctr := 0;
        yoffset := yoffset + 1;
      }
      NextIMcuRow(img, scan, r);
      iMCU_row_num := iMCU_row_num + 1;
      StartIMcuRow();
      completed := true;
    }
  }

  /** The loop of jpeg_finish_compress over the interleaved MCU rows of a pass: it fails exactly when
      the entropy encoder refuses an MCU, and otherwise has sent every MCU of the scan in order. */
  method CompressPass(coef: TransCoefController, sink: McuSink) returns (ok: bool)
    requires coef.Valid() && coef.iMCU_row_num == coef.mcu_ctr == coef.MCU_vert_offset == 0 && sink.out == []
    modifies coef, coef.dummy_buffer, sink
    ensures coef.Valid()
    ensures ok <==> |AllMcus(coef.img, coef.whole_image, coef.scan)| <= old(sink.room)
    ensures ok ==> sink.out == AllMcus(coef.img, coef.whole_image, coef.scan)
  {
    hide FrameFor, RowsIn, RowStart, GeometryOf, Image.Ok, Image.McusDown, AllMcus, Mixed;
    ghost var all := AllMcus(coef.img, coef.whole_image, coef.scan);
    ScanStart(coef.img, coef.scan);
    var iMCU_row := 0;
    while iMCU_row < coef.img.McusDown()
      invariant iMCU_row <= coef.img.McusDown() && coef.Valid() && coef.iMCU_row_num == iMCU_row
      invariant coef.mcu_ctr == coef.MCU_vert_offset == 0
      invariant coef.Progress() <= |all| && sink.out == all[..coef.Progress()]
        && sink.room == old(sink.room) - coef.Progress()
    {
      ok := coef.CompressOutput(sink);
      if !ok {
        return;
      }
      iMCU_row := iMCU_row + 1;
    }
    ScanEnd(coef.img, coef.whole_image, coef.scan);
    assert all[..|all|] == all;
    ok := true;
  }

  ghost predicate NoAc(b: Block) {
    forall k :: 1 <= k < 64 ==> b[k] == 0
  }

  lemma SetDc(b: Block, dc: int)
    requires NoAc(b)
    ensures b[0 := dc] == DcOnly(dc) && NoAc(b[0 := dc])
  {}
}
