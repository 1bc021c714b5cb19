/** A file as a sequence of groups: the headers of a scan, then its entropy-coded data. What a scan header and a
    frame header mean for the entropy coders on either side. */
module FileFormat {
  import opened Coefficients
  import opened HuffmanTables
  import opened DerivedTables
  import opened BitReader
  import opened Coding
  import opened Decoding
  import opened TokenBits
  import opened ScanRoundTrip
  import opened Frames
  import opened McuGeometry
  import opened McuLayout
  import opened DummyBlocks
  import opened McuFilling
  import opened CoefConsumer
  import opened ScanCodec
  import opened ScriptRoundTrip
  import opened ImageRoundTrip
  import ScanScripts
  import S = MarkerSegments
  import W = MarkerWriter

  /** DC tables are kept in slots 0 to 3 of a list of tables, AC tables in slots 4 to 7. */
  const SLOTS: nat := 8

  // ---- What the headers say ----

  function ImageIn(f: S.Frame): Image {
    Image(f.width, f.height, seq(|f.comps|, c requires 0 <= c < |f.comps| => Component(f.comps[c].h, f.comps[c].v)))
  }

  function InfoIn(h: S.ScanHeader): (s: ScanScripts.ScanInfo)
    ensures |s.component_index| == |h.comps|
  {
    ScanScripts.ScanInfo(seq(|h.comps|, i requires 0 <= i < |h.comps| => h.comps[i].ci), h.Ss, h.Se, h.Ah, h.Al)
  }

  function DcSlots(h: S.ScanHeader): (r: seq<nat>)
    ensures |r| == |h.comps|
  {
    seq(|h.comps|, i requires 0 <= i < |h.comps| => h.comps[i].td)
  }

  function AcSlots(h: S.ScanHeader): (r: seq<nat>)
    ensures |r| == |h.comps|
  {
    seq(|h.comps|, i requires 0 <= i < |h.comps| => 4 + h.comps[i].ta)
  }

  /** per_scan_setup accepts the scan of the header. */
  ghost predicate HeaderOk(img: Image, h: S.ScanHeader) {
    && ScanReady(img, CompsIn(InfoIn(h))) && ParamsOk(InfoIn(h)) && ScanScripts.ComponentsOk(InfoIn(h), |img.comps|)
    && forall i :: 0 <= i < |h.comps| ==> h.comps[i].td < 4 && h.comps[i].ta < 4
  }

  /** The scan that the header and the restart interval describe, to the entropy coders. */
  function ScanIn(img: Image, h: S.ScanHeader, ri: nat): (scan: Scan)
    requires HeaderOk(img, h)
    ensures scan.Ok()
  {
    ScanIsOk(img, h, ri);
    Scan(ModeOf(InfoIn(h)), h.Ss, h.Se, h.Al, ri, GeometryOf(img, CompsIn(InfoIn(h))).membership, |h.comps|,
         DcSlots(h), AcSlots(h))
  }

  lemma ScanIsOk(img: Image, h: S.ScanHeader, ri: nat)
    requires HeaderOk(img, h)
    ensures Scan(ModeOf(InfoIn(h)), h.Ss, h.Se, h.Al, ri, GeometryOf(img, CompsIn(InfoIn(h))).membership, |h.comps|,
                 DcSlots(h), AcSlots(h)).Ok()
  {
    hide Image.Ok, Image.BlocksAcross, Image.BlocksDown, Image.McusAcross, Image.McusDown, Membership, Distinct;
    var cur := CompsIn(InfoIn(h));
    if |cur| == 1 { OneMember(img, cur); }
  }

  lemma OneMember(img: Image, cur: seq<nat>)
    requires ScanReady(img, cur) && |cur| == 1
    ensures GeometryOf(img, cur).membership == [0]
  {
    hide Image.BlocksAcross, Image.BlocksDown, Image.McusAcross, Image.McusDown, Leftover;
    var comps := CompsOf(img, cur);
    assert comps[..0] == [] && McuSize(comps[0]) == 1;
    assert Membership(comps) == Membership([]) + seq(1, _ => 0);
  }

  lemma DcBelow(img: Image, h: S.ScanHeader, ri: nat)
    requires HeaderOk(img, h)
    ensures |ScanIn(img, h, ri).dcTbl| == |ScanIn(img, h, ri).acTbl| == ScanIn(img, h, ri).ncomps
    ensures forall i :: 0 <= i < ScanIn(img, h, ri).ncomps ==>
      ScanIn(img, h, ri).dcTbl[i] < 4 <= ScanIn(img, h, ri).acTbl[i] < SLOTS
  {
    hide ScanReady, ParamsOk;
  }

  /** A slot that the scan uses holds a table that has been sent. */
  ghost function HeldIn(s: S.Fields, t: nat): Option<S.Listed>
    requires s.Ok() && t < SLOTS
  {
    if t < 4 then s.dc[t] else s.ac[t - 4]
  }

  /** Slot t of a reader holds the table of the entropy encoder. */
  ghost predicate Announced(s: S.Fields, tabs: seq<Tab>, t: nat) {
    && s.Ok() && t < SLOTS == |tabs| && W.HuffOk(tabs[t].h) && HeldIn(s, t) == Some(W.ListedOf(tabs[t].h))
  }

  /** A frame of 16-bit values. */
  ghost predicate AllCoefs(f: Frame) {
    forall q :: In(q, f) ==> Coefs(At(f, q))
  }

  // ---- One scan of a file ----

  /** The headers of a scan, what a reader held before them, where they start, and the tables that the encoder
      used for the data behind them. */
  datatype Group = Group(segs: seq<S.Segment>, before: S.Fields, start: nat, tabs: seq<Tab>)
  {
    ghost predicate Ok() {
      && before.Ok() && S.AllOk(segs, before) && W.EndsInScan([], segs) && After().frame.Some? && After().scan.Some?
    }

    /** What a reader holds after them. */
    ghost function After(): (s: S.Fields)
      requires before.Ok() && S.AllShaped(segs)
      ensures s.Ok()
    {
      S.ApplyAll(segs, before)
    }

    ghost function Header(): S.ScanHeader
      requires Ok()
    {
      After().scan.value
    }

    /** Where the data starts. */
    ghost function Pos(): nat
      requires Ok()
    {
      start + |S.AllBytes(segs)|
    }
  }

  ghost function McusOf(img: Image, cs: Frame, h: S.ScanHeader): (mcus: seq<seq<Block>>)
    requires HeaderOk(img, h) && FrameFor(img, cs)
  {
    McuFilling.AllMcus(img, cs, CompsIn(InfoIn(h)))
  }

  lemma OrderMcus(img: Image, cur: seq<nat>, cs: Frame)
    requires ScanReady(img, cur) && FrameFor(img, cs) && Fits(Order(img, cur), Filled(img, cs))
    ensures McuFilling.AllMcus(img, cs, cur) == Collect(Order(img, cur), Filled(img, cs))
  {
    hide ScanReady, FrameFor, ScanLayout, Filled, Fits;
  }

  /** The tables that the scan uses are those that its headers have announced; they serve both sides, and have a
      code for every symbol. */
  ghost predicate Tabled(scan: Scan, tabs: seq<Tab>, s: S.Fields, mcus: seq<seq<Block>>)
    requires scan.Ok() && Mcus(scan, mcus) && s.Ok()
  {
    && |tabs| == SLOTS
    && (forall t: nat :: UsesTable(scan, t) ==>
          Announced(s, tabs, t) && SlotOk(tabs, t) && DecoderAccepts(tabs[t].h, t < 4))
    && (forall i :: 0 <= i < |Segments(scan, mcus)| ==> AllEmittable(tabs, Segments(scan, mcus)[i]))
  }

  /** The group belongs to a scan of the coefficients cs that could be encoded. */
  ghost predicate GroupFor(img: Image, cs: Frame, g: Group) {
    && g.Ok() && img.Ok() && FrameFor(img, cs) && ImageIn(g.After().frame.value) == img && HeaderOk(img, g.Header())
    && var scan, mcus := ScanIn(img, g.Header(), g.After().restart_interval), McusOf(img, cs, g.Header());
       Mcus(scan, mcus) && AllFit(scan, mcus) && Tabled(scan, g.tabs, g.After(), mcus)
  }

  ghost function Data(img: Image, cs: Frame, g: Group): seq<nat>
    requires GroupFor(img, cs, g)
  {
    var scan, mcus := ScanIn(img, g.Header(), g.After().restart_interval), McusOf(img, cs, g.Header());
    ScanBytes(g.tabs, Segments(scan, mcus))
  }

  /** Where the data ends and the next group starts. */
  ghost function DataEnd(img: Image, cs: Frame, g: Group): nat
    requires GroupFor(img, cs, g)
  {
    g.Pos() + |Data(img, cs, g)|
  }

  /** The group lies in the file. */
  ghost predicate Lies(img: Image, cs: Frame, g: Group, file: seq<nat>)
    requires GroupFor(img, cs, g)
  {
    && DataEnd(img, cs, g) <= |file| && file[g.start..g.Pos()] == S.AllBytes(g.segs)
    && file[g.Pos()..DataEnd(img, cs, g)] == Data(img, cs, g)
  }

  lemma LiesStill(img: Image, cs: Frame, g: Group, file: seq<nat>, more: seq<nat>)
    requires GroupFor(img, cs, g) && Lies(img, cs, g, file) && file <= more
    ensures Lies(img, cs, g, more)
  {
    hide HeaderOk, AllFit, Tabled, Data, Mcus, S.SegmentOk, S.AllBytes;
    assert more[g.start..g.Pos()] == file[g.start..g.Pos()];
    assert more[g.Pos()..DataEnd(img, cs, g)] == file[g.Pos()..DataEnd(img, cs, g)];
  }

  // ---- The file ----

  /** The groups follow each other from `start` on, where a reader holds `held`. */
  ghost predicate Follow(img: Image, cs: Frame, gs: seq<Group>, start: nat, held: S.Fields) {
    forall i :: 0 <= i < |gs| ==>
      && GroupFor(img, cs, gs[i])
      && (i == 0 ==> gs[i].start == start && gs[i].before == held)
      && (i > 0 ==>
         GroupFor(img, cs, gs[i - 1]) && gs[i].start == DataEnd(img, cs, gs[i - 1])
           && gs[i].before == gs[i - 1].After())
  }

  /** The scans that the groups are for. */
  ghost predicate Scans(img: Image, cs: Frame, gs: seq<Group>, script: seq<ScanScripts.ScanInfo>) {
    |gs| == |script| && forall i :: 0 <= i < |gs| ==> gs[i].Ok() && InfoIn(gs[i].Header()) == script[i]
  }

  ghost predicate AllLie(img: Image, cs: Frame, gs: seq<Group>, file: seq<nat>) {
    forall i :: 0 <= i < |gs| ==> GroupFor(img, cs, gs[i]) && Lies(img, cs, gs[i], file)
  }

  /** Where the groups end. */
  ghost function End(img: Image, cs: Frame, gs: seq<Group>, start: nat): nat
    requires gs != [] ==> GroupFor(img, cs, gs[|gs| - 1])
  {
    if gs == [] then start else DataEnd(img, cs, gs[|gs| - 1])
  }

  /** A complete file of the coefficients cs, behind SOI and whatever comes before the first header. */
  ghost predicate FileFor(img: Image, cs: Frame, script: seq<ScanScripts.ScanInfo>, gs: seq<Group>, file: seq<nat>,
                          start: nat, held: S.Fields) {
    && ScanScripts.ScriptAccepted(script, |img.comps|) && Scans(img, cs, gs, script)
    && Follow(img, cs, gs, start, held) && AllLie(img, cs, gs, file) && Bytes(file)
    && GroupFor(img, cs, gs[|gs| - 1]) && file[End(img, cs, gs, start)..] == [0xFF, 0xD9]
  }
}
