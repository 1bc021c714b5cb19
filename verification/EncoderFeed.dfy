/** The interface between a coefficient controller and the entropy encoder, and the MCU counters. */
module EncoderFeed {
  import opened Coefficients
  import opened Frames
  import opened McuGeometry
  import opened McuLayout
  import opened DummyBlocks
  import opened McuFilling

  /** The entropy encoder as a controller sees it: it takes MCUs one at a time, and may refuse. */
  class McuSink {
    var out: seq<seq<Block>>
    var room: nat

    constructor (room: nat)
      ensures out == [] && this.room == room
    {
      out, this.room := [], room;
    }

    method EncodeMcu(mcu: seq<Block>) returns (ok: bool)
      modifies this
      ensures ok == (old(room) > 0)
      ensures ok ==> out == old(out) + [mcu] && room == old(room) - 1
      ensures !ok ==> out == old(out) && room == old(room)
    {
      ok := room > 0;
      if ok {
        out, room := out + [mcu], room - 1;
      }
    }
  }

  /** How many MCUs come before column mcu_ctr of row vert_offset of interleaved MCU row r. */
  function McusBefore(img: Image, scan: seq<nat>, r: nat, vert_offset: nat, mcu_ctr: nat): nat
    requires img.Ok() && Selects(img, scan) && scan != []
  {
    Mixed(RowStart(img, scan, r) + vert_offset, GeometryOf(img, scan).mcusPerRow, mcu_ctr)
  }

  lemma ScanStart(img: Image, scan: seq<nat>)
    requires ScanReady(img, scan)
    ensures GeometryOf(img, scan).mcusPerRow >= 1 && img.McusDown() >= 1 && McusBefore(img, scan, 0, 0, 0) == 0
  {
    hide Image.Across, Image.Down, Image.McusAcross, Image.BlocksAcross, Image.BlocksDown, Image.McusDown;
    SomeBlocks(img, scan[0]);
    PaddedSizes(img, scan[0]);
    RowsAddUp(img, scan, 0);
  }

  lemma ScanEnd(img: Image, f: Frame, scan: seq<nat>)
    requires ScanReady(img, scan) && FrameFor(img, f)
    ensures McusBefore(img, scan, img.McusDown(), 0, 0) == |AllMcus(img, f, scan)|
  {
    hide Image.Across, Image.Down, Image.McusAcross, Image.BlocksAcross, Image.BlocksDown, Image.McusDown, McuBlocks,
         Filled;
    ScanStart(img, scan);
    RowsAddUp(img, scan, 0);
  }

  lemma NextBlock(y: nat, w: nat, x: nat)
    ensures Mixed(y, w, x + 1) == Mixed(y, w, x) + 1
  {}

  lemma NextRow(y: nat, w: nat)
    ensures Mixed(y, w, w) == Mixed(y + 1, w, 0)
  {}

  lemma WholeComp(sc: ScanComp)
    ensures Mixed(sc.mcuHeight, sc.mcuWidth, 0) == McuSize(sc)
  {}

  lemma NextMcu(img: Image, scan: seq<nat>, r: nat, yoffset: nat, X: nat)
    requires img.Ok() && Selects(img, scan) && scan != []
    ensures McusBefore(img, scan, r, yoffset, X + 1) == McusBefore(img, scan, r, yoffset, X) + 1
  {
    hide RowStart;
  }

  lemma NextMcuRow(img: Image, scan: seq<nat>, r: nat, yoffset: nat)
    requires img.Ok() && Selects(img, scan) && scan != []
    ensures McusBefore(img, scan, r, yoffset + 1, 0) == McusBefore(img, scan, r, yoffset,
      GeometryOf(img, scan).mcusPerRow)
  {
    hide RowStart;
    NextRow(RowStart(img, scan, r) + yoffset, GeometryOf(img, scan).mcusPerRow);
  }

  lemma NextIMcuRow(img: Image, scan: seq<nat>, r: nat)
    requires img.Ok() && Selects(img, scan) && scan != [] && r < img.McusDown()
    ensures McusBefore(img, scan, r + 1, 0, 0) == McusBefore(img, scan, r, RowsIn(img, scan, r), 0)
  {
    hide RowStart, RowsIn;
    RowsAddUp(img, scan, r);
  }

  lemma McuBound(img: Image, scan: seq<nat>)
    requires ScanReady(img, scan)
    ensures |Membership(CompsOf(img, scan))| <= MAX_BLOCKS_IN_MCU
  {
    if |scan| == 1 {
      assert CompsOf(img, scan)[..0] == [];
    }
  }
}
