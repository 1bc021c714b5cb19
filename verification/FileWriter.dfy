/** Writing a whole file in two passes per scan: statistics and optimal tables, then the headers, which announce the
    new tables, and the data. */
module FileWriter {
  import opened Coefficients
  import opened HuffmanTables
  import opened DerivedTables
  import opened BitReader
  import opened BitWriter
  import opened Coding
  import opened Decoding
  import opened TokenBits
  import opened ScanRoundTrip
  import opened McuEncoder
  import opened HuffmanTree
  import opened OptimalTable
  import opened Frames
  import opened McuGeometry
  import opened McuLayout
  import opened DummyBlocks
  import opened McuFilling
  import opened CoefConsumer
  import opened ScanCodec
  import opened TwoPass
  import opened ScriptRoundTrip
  import opened ImageRoundTrip
  import opened FileFormat
  import ScanScripts
  import PassControl
  import S = MarkerSegments
  import W = MarkerWriter

  // ---- A scan, before its headers are written ----

  /** The compression parameters are those of the image. */
  ghost predicate Describes(w: W.Writer, img: Image) {
    && w.ParamsOk() && w.image_height == img.height && w.image_width == img.width && |w.comp_info| == |img.comps|
    && forall c :: 0 <= c < |img.comps| ==>
      w.comp_info[c].h == img.comps[c].hSamp && w.comp_info[c].v == img.comps[c].vSamp
  }

  predicate UsesDcTables(s: ScanScripts.ScanInfo) {
    ScanScripts.FullBand(s) || (s.Ss == 0 && s.Ah == 0)
  }

  predicate UsesAcTables(s: ScanScripts.ScanInfo) {
    ScanScripts.FullBand(s) || s.Ss != 0
  }

  /** The header of a scan. */
  function HeaderFor(comp_info: seq<W.Component>, s: ScanScripts.ScanInfo): (h: S.ScanHeader)
    requires ParamsOk(s) && ScanScripts.ComponentsOk(s, |comp_info|)
  {
    S.ScanHeader(W.SelectorsOf(comp_info, CompsIn(s), UsesDcTables(s), UsesAcTables(s)), s.Ss, s.Se, s.Ah, s.Al)
  }

  /** per_scan_setup accepts the scan. */
  ghost predicate ScanDue(w: W.Writer, img: Image, s: ScanScripts.ScanInfo) {
    && Describes(w, img) && ScanReady(img, CompsIn(s)) && ParamsOk(s)
    && ScanScripts.ComponentsOk(s, |w.comp_info|) && (w.progressive_mode <==> !ScanScripts.FullBand(s))
  }

  lemma DueHeader(w: W.Writer, img: Image, s: ScanScripts.ScanInfo)
    requires ScanDue(w, img, s)
    ensures HeaderOk(img, HeaderFor(w.comp_info, s)) && InfoIn(HeaderFor(w.comp_info, s)) == s
  {
    hide ScanReady;
    var h := HeaderFor(w.comp_info, s);
    assert InfoIn(h).component_index == s.component_index;
  }

  /** The scan, to the entropy coder. */
  function ScanFor(w: W.Writer, img: Image, s: ScanScripts.ScanInfo, ri: nat): (scan: Scan)
    requires ScanDue(w, img, s)
    ensures scan.Ok()
  {
    DueHeader(w, img, s);
    ScanIn(img, HeaderFor(w.comp_info, s), ri)
  }

  /** The parameters of the scan are selected. */
  ghost predicate Selected(w: W.Writer, s: ScanScripts.ScanInfo, ri: nat)
    reads w`cur_comp_info, w`Ss, w`Se, w`Ah, w`Al, w`restart_interval
  {
    && w.cur_comp_info == CompsIn(s) && w.Ss == s.Ss && w.Se == s.Se && w.Ah == s.Ah && w.Al == s.Al
    && w.restart_interval == ri
  }

  lemma SelectedHeader(w: W.Writer, img: Image, s: ScanScripts.ScanInfo, ri: nat)
    requires Selected(w, s, ri) && ScanDue(w, img, s) && ri < 65536
    ensures w.ScanOk() && w.HeaderOf() == HeaderFor(w.comp_info, s)
    ensures (w.NeedsDc() <==> UsesDcTables(s)) && (w.NeedsAc() <==> UsesAcTables(s))
  {
    hide ScanReady;
  }

  /** select_scan_parameters, and the restart interval of per_scan_setup. */
  method SelectScan(w: W.Writer, img: Image, s: ScanScripts.ScanInfo, ri: nat)
    requires w.Valid() && ScanDue(w, img, s) && ri < 65536
    modifies w`cur_comp_info, w`Ss, w`Se, w`Ah, w`Al, w`restart_interval
    ensures w.Valid() && Selected(w, s, ri)
  {
    hide ScanReady, W.HuffOk, S.AllOk, S.ApplyAll, S.AllBytes;
    w.cur_comp_info := CompsIn(s);
    w.Ss, w.Se, w.Ah, w.Al := s.Ss, s.Se, s.Ah, s.Al;
    w.restart_interval := ri;
  }

  // ---- The MCUs of a scan can be coded in two passes ----

  lemma FilledCoefs(img: Image, cs: Frame)
    requires img.Ok() && FrameFor(img, cs) && AllCoefs(cs)
    ensures AllCoefs(Filled(img, cs))
  {
    hide Image.Ok, Image.Across, Image.Down, FilledBlock;
    forall q | In(q, Filled(img, cs)) ensures Coefs(At(Filled(img, cs), q)) {
      IdxPlace(img, q.comp, q.idx);
      FilledBlockCoefs(img, cs, q.comp, IdxRow(img, q.comp, q.idx), IdxCol(img, q.comp, q.idx));
    }
  }

  lemma FilledBlockCoefs(img: Image, cs: Frame, c: nat, row: nat, col: nat)
    requires img.Ok() && FrameFor(img, cs) && AllCoefs(cs)
    requires c < |img.comps| && row < img.Down(c) && col < img.Across(c)
    ensures Coefs(FilledBlock(img, cs, c, row, col))
  {
    hide Image.Ok, Image.Across, Image.Down, Image.BlocksAcross, Image.BlocksDown, Real, SourceRow, SourceCol;
    PaddedSizes(img, c);
    if Real(img, c, row, col) {
      AtCoefs(img, cs, c, row, col);
    } else {
      AtCoefs(img, cs, c, SourceRow(img, c, row), SourceCol(img, c, row, col));
    }
  }

  lemma AtCoefs(img: Image, cs: Frame, c: nat, row: nat, col: nat)
    requires img.Ok() && FrameFor(img, cs) && AllCoefs(cs)
    requires c < |img.comps| && row < img.Down(c) && col < img.Across(c)
    ensures Coefs(BlockAt(img, cs, c, row, col))
  {
    hide Image.Ok, Image.Across, Image.Down, Coefs;
    PosIn(img, cs, c, row, col);
  }

  /** Every component of a scan has a block in each MCU. */
  lemma {:induction false} EachMember(comps: seq<ScanComp>, k: nat)
    requires k < |comps| && forall i :: 0 <= i < |comps| ==> comps[i].mcuWidth >= 1 && comps[i].mcuHeight >= 1
    ensures k in Membership(comps)
  {
    hide McuSize;
    var n := |comps| - 1;
    if k < n {
      EachMember(comps[..n], k);
    } else {
      SomeSize(comps[n]);
      var own := seq(McuSize(comps[n]), _ => n);
      assert own[0] == n && Membership(comps) == Membership(comps[..n]) + own;
    }
  }

  lemma SomeSize(sc: ScanComp)
    requires sc.mcuWidth >= 1 && sc.mcuHeight >= 1
    ensures McuSize(sc) >= 1
  {
    MulMono(1, sc.mcuWidth, sc.mcuHeight);
  }

  lemma MembersOf(img: Image, cur: seq<nat>)
    requires ScanReady(img, cur)
    ensures forall k :: 0 <= k < |cur| ==> k in GeometryOf(img, cur).membership
  {
    hide Image.Ok, Image.Across, Image.Down, Image.BlocksAcross, Image.BlocksDown, Image.McusAcross, Image.McusDown,
         Membership, Leftover;
    var comps := CompsOf(img, cur);
    forall k | 0 <= k < |cur| ensures k in Membership(comps) { EachMember(comps, k); }
  }

  lemma SomeMcus(img: Image, cur: seq<nat>)
    requires ScanReady(img, cur)
    ensures GeometryOf(img, cur).mcuRows * GeometryOf(img, cur).mcusPerRow >= 1
  {
    hide Image.Ok, Image.Across, Image.Down, Image.BlocksAcross, Image.BlocksDown, Image.McusAcross, Image.McusDown,
         Membership, Leftover;
    PaddedSizes(img, cur[0]);
    SomeBlocks(img, cur[0]);
    var g := GeometryOf(img, cur);
    MulMono(1, g.mcuRows, g.mcusPerRow);
  }

  /** The number of symbols of each table stays below the search sentinel of jpeg_gen_optimal_table. */
  ghost predicate Moderate(scan: Scan, mcus: seq<seq<Block>>) {
    scan.Ok() && Mcus(scan, mcus) && forall t: nat :: UsesTable(scan, t) ==> Total(scan, mcus, t) <= SENTINEL
  }

  ghost function McusFor(w: W.Writer, img: Image, s: ScanScripts.ScanInfo, cs: Frame): seq<seq<Block>>
    requires ScanDue(w, img, s) && FrameFor(img, cs)
  {
    McuFilling.AllMcus(img, cs, CompsIn(s))
  }

  lemma DueMcus(w: W.Writer, img: Image, s: ScanScripts.ScanInfo, ri: nat, cs: Frame)
    requires ScanDue(w, img, s) && FrameFor(img, cs) && AllCoefs(cs)
    ensures Mcus(ScanFor(w, img, s, ri), McusFor(w, img, s, cs)) && McusFor(w, img, s, cs) != []
  {
    hide Order, Filled, FrameFor, GeometryOf, Coefs, NoBlockTwice, ParamsOk, Describes, Image.Ok, Scannable, Distinct,
         HeaderFor;
    DueHeader(w, img, s);
    var cur := CompsIn(s);
    FilledCoefs(img, cs);
    OrderFacts(img, cur, Filled(img, cs));
    OrderMcus(img, cur, cs);
    SomeMcus(img, cur);
    var all := McusFor(w, img, s, cs);
    forall i | 0 <= i < |all|
      ensures |all[i]| == |ScanFor(w, img, s, ri).members| && forall j :: 0 <= j < |all[i]| ==> Coefs(all[i][j])
    {
      forall j | 0 <= j < |all[i]| ensures Coefs(all[i][j]) {
        assert In(Order(img, cur)[i][j], Filled(img, cs));
      }
    }
  }

  lemma HeaderMcus(w: W.Writer, img: Image, s: ScanScripts.ScanInfo, cs: Frame)
    requires ScanDue(w, img, s) && FrameFor(img, cs)
    ensures HeaderOk(img, HeaderFor(w.comp_info, s))
    ensures McusFor(w, img, s, cs) == McusOf(img, cs, HeaderFor(w.comp_info, s))
  {
    hide FrameFor, ParamsOk, Describes, ScanReady, HeaderFor;
    DueHeader(w, img, s);
  }

  lemma DueCodable(w: W.Writer, img: Image, s: ScanScripts.ScanInfo, ri: nat, cs: Frame)
    requires ScanDue(w, img, s) && FrameFor(img, cs) && AllCoefs(cs)
    requires Moderate(ScanFor(w, img, s, ri), McusFor(w, img, s, cs))
    ensures Codable(ScanFor(w, img, s, ri), McusFor(w, img, s, cs)) && TablesBelow(ScanFor(w, img, s, ri), SLOTS)
  {
    hide FrameFor, GeometryOf, ScanReady, Describes, McusFor, UsesTable, Total, Mcus;
    DueMcus(w, img, s, ri, cs);
    DueHeader(w, img, s);
    DcBelow(img, HeaderFor(w.comp_info, s), ri);
    MembersOf(img, CompsIn(s));
  }

  // ---- The tables of a scan ----

  /** The tables that the scan uses serve both sides, and have a code for every symbol. */
  ghost predicate Serving(scan: Scan, mcus: seq<seq<Block>>, tabs: seq<Tab>)
    requires scan.Ok() && Mcus(scan, mcus)
  {
    && |tabs| == SLOTS && AllTyped(tabs) && AllFit(scan, mcus) && TabsOk(scan, tabs) && EncoderTables(scan, tabs)
    && (forall t: nat :: UsesTable(scan, t) ==>
          t < SLOTS && SlotOk(tabs, t) && W.HuffOk(tabs[t].h) && DecoderAccepts(tabs[t].h, t < 4))
    && forall i :: 0 <= i < |Segments(scan, mcus)| ==> AllEmittable(tabs, Segments(scan, mcus)[i])
  }

  /** DC tables are in slots 0 to 3, AC tables in slots 4 to 7. */
  ghost predicate Slotted(scan: Scan) {
    scan.Ok() && forall i :: 0 <= i < scan.ncomps ==> scan.dcTbl[i] < 4 <= scan.acTbl[i] < SLOTS
  }

  lemma OptimalServes(scan: Scan, mcus: seq<seq<Block>>, tabs: seq<Tab>, t: nat)
    requires Slotted(scan) && Mcus(scan, mcus) && UsesTable(scan, t) && Optimized(scan, mcus, tabs, t)
    ensures t < SLOTS && SlotOk(tabs, t) && W.HuffOk(tabs[t].h) && DecoderAccepts(tabs[t].h, t < 4)
    ensures DcSlot(scan, t) <==> t < 4
  {
    hide TableFor, Encodes, Decodes;
  }

  lemma {:induction false} OptimalServing(scan: Scan, mcus: seq<seq<Block>>, tabs: seq<Tab>)
    requires Slotted(scan) && Mcus(scan, mcus) && AllFit(scan, mcus) && |tabs| == SLOTS && AllTyped(tabs)
    requires forall t: nat :: UsesTable(scan, t) ==> Optimized(scan, mcus, tabs, t)
    ensures Serving(scan, mcus, tabs)
  {
    hide AllFit, UsesTable, Optimized, EncoderTables, TabsOk, Segments, AllEmittable, SlotOk, DecoderAccepts, AllTyped,
         Slotted, Mcus;
    SlottedOk(scan);
    OptimizedServe(scan, tabs, mcus);
    forall t: nat | UsesTable(scan, t)
      ensures t < SLOTS && SlotOk(tabs, t) && W.HuffOk(tabs[t].h) && DecoderAccepts(tabs[t].h, t < 4)
    {
      OptimalServes(scan, mcus, tabs, t);
    }
  }

  lemma SlottedOk(scan: Scan)
    requires Slotted(scan)
    ensures scan.Ok()
  {}

  /** A DC refinement scan has no value out of range and needs no table. */
  lemma {:induction false} RefineFits(scan: Scan, mcus: seq<seq<Block>>)
    requires scan.Ok() && Mcus(scan, mcus) && scan.mode == DcRefine
    ensures AllFit(scan, mcus)
  {
    hide Run, McuToks;
    if mcus != [] { RefineFits(scan, mcus[..|mcus| - 1]); }
  }

  lemma {:induction false} NoUses(scan: Scan, mcus: seq<seq<Block>>, t: nat, s: nat)
    requires scan.Ok() && Mcus(scan, mcus) && scan.mode == DcRefine && AllFit(scan, mcus)
    ensures Uses(scan, mcus, t, s) == 0
  {
    hide Uses, AllFit;
    if Uses(scan, mcus, t, s) > 0 {
      UsesAreProper(scan, mcus, t, s);
      assert false;
    }
  }

  lemma {:induction false} RefineServing(scan: Scan, mcus: seq<seq<Block>>, tabs: seq<Tab>)
    requires scan.Ok() && Mcus(scan, mcus) && scan.mode == DcRefine && |tabs| == SLOTS && AllTyped(tabs)
    ensures Serving(scan, mcus, tabs)
  {
    hide AllFit, Uses, Segments, AllEmittable;
    RefineFits(scan, mcus);
    forall t: nat, s: nat ensures Uses(scan, mcus, t, s) == 0 { NoUses(scan, mcus, t, s); }
    CountedCodesSuffice(scan, tabs, mcus);
  }

  /** Slot t of the writer holds the new table, not yet announced. */
  ghost predicate Installed(w: W.Writer, tabs: seq<Tab>, t: nat)
    reads w
  {
    && |tabs| == SLOTS && |w.dc| == |w.ac| == 4 && t < SLOTS
    && (if t < 4 then w.dc[t] else w.ac[t - 4]) == Some(W.HuffSlot(tabs[t].h, false))
  }

  /** The tables that jpeg_gen_optimal_table has made, with their sent_table flags cleared. */
  method InstallTables(w: W.Writer, scan: Scan, tabs: seq<Tab>)
    requires w.Valid() && Slotted(scan) && |tabs| == SLOTS
    requires forall t: nat :: UsesTable(scan, t) ==> t < SLOTS && W.HuffOk(tabs[t].h)
    modifies w`dc, w`ac
    ensures w.Valid() && forall t: nat :: UsesTable(scan, t) ==> Installed(w, tabs, t)
  {
    hide W.Writer.Valid, W.HuffOk;
    InSlots(w);
    for i := 0 to scan.ncomps
      invariant w.Valid() && |w.dc| == |w.ac| == 4
      invariant scan.UsesDc() ==> forall j :: 0 <= j < i ==> Installed(w, tabs, scan.dcTbl[j])
      invariant scan.UsesAc() ==> forall j :: 0 <= j < i ==> Installed(w, tabs, scan.acTbl[j])
    {
      if scan.UsesDc() {
        assert UsesTable(scan, scan.dcTbl[i]);
        w.ReplaceHuff(scan.dcTbl[i], false, tabs[scan.dcTbl[i]].h);
      }
      if scan.UsesAc() {
        assert UsesTable(scan, scan.acTbl[i]);
        w.ReplaceHuff(scan.acTbl[i] - 4, true, tabs[scan.acTbl[i]].h);
      }
    }
  }

  lemma InSlots(w: W.Writer)
    requires w.Valid()
    ensures |w.dc| == |w.ac| == |w.quant| == S.NUM_TBLS == 4
  {
    hide S.AllOk, S.ApplyAll, S.AllBytes, W.HuffOk;
  }

  /** The statistics pass of a scan, which DC refinement does without, and the tables that come of it. */
  method PrepareTables(w: W.Writer, scan: Scan, statistics: bool, tabs0: seq<Tab>, mcus: seq<seq<array<int>>>,
                       ghost all: seq<seq<Block>>)
    returns (ok: bool, tabs: seq<Tab>)
    requires w.Valid() && Slotted(scan) && Codable(scan, all) && Holding(mcus, all) && TablesBelow(scan, SLOTS)
    requires |tabs0| == SLOTS && AllTyped(tabs0) && (statistics <==> scan.mode != DcRefine)
    modifies w`dc, w`ac
    ensures !ok ==> !AllFit(scan, all) || Overflows(scan, all)
    ensures ok ==> Serving(scan, all, tabs) && |tabs| == SLOTS && AllTyped(tabs)
    ensures ok ==> w.Valid() && forall t: nat :: UsesTable(scan, t) ==> Installed(w, tabs, t)
  {
    hide W.Writer.Valid, AllFit, UsesTable, Optimized, Overflows, AllTyped, Slotted, Segments, AllEmittable, TabsOk,
         EncoderTables, Installed, Holding, W.HuffOk, SlotOk, DecoderAccepts;
    CodableOk(scan, all);
    ok, tabs := true, tabs0;
    if statistics {
      ok, tabs := OptimizeScan(scan, tabs0, mcus, all);
      if !ok {
        return;
      }
      StillTyped(scan, all, tabs0, tabs);
      OptimalServing(scan, all, tabs);
      InstallTables(w, scan, tabs);
    } else {
      RefineServing(scan, all, tabs);
      NoTables(scan);
    }
  }

  lemma StillTyped(scan: Scan, mcus: seq<seq<Block>>, tabs0: seq<Tab>, tabs: seq<Tab>)
    requires scan.Ok() && Mcus(scan, mcus) && AllTyped(tabs0) && |tabs| == |tabs0|
    requires forall t: nat :: UsesTable(scan, t) ==> Optimized(scan, mcus, tabs, t)
    requires forall u: nat :: u < |tabs| && !UsesTable(scan, u) ==> tabs[u] == tabs0[u]
    ensures AllTyped(tabs)
  {
    hide UsesTable, TableFor, Encodes, Decodes, Legal;
    forall t | 0 <= t < |tabs| ensures tabs[t].h.WellTyped() {
      if UsesTable(scan, t) { assert Optimized(scan, mcus, tabs, t); }
    }
  }

  lemma NoTables(scan: Scan)
    requires scan.Ok() && scan.mode == DcRefine
    ensures forall t: nat :: !UsesTable(scan, t)
  {}

  // ---- The headers of a scan ----

  /** A reader holds the frame of the image. */
  ghost predicate Framed(frame: Option<S.Frame>, comps: seq<S.FrameComp>, img: Image) {
    frame.Some? && S.FrameOk(frame.value) && frame.value.comps == comps && ImageIn(frame.value) == img
  }

  /** Every component has its quantisation table. */
  ghost predicate HasQuants(infos: seq<W.Component>, quant: seq<Option<W.QuantSlot>>) {
    forall i :: 0 <= i < |infos| ==> infos[i].tq < |quant| && quant[infos[i].tq].Some?
  }

  /** A reader holds the quantisation tables of all components. */
  ghost predicate Quantised(infos: seq<W.Component>, quant: seq<Option<W.QuantSlot>>, held: seq<Option<seq<nat>>>) {
    HasQuants(infos, quant) && forall i :: 0 <= i < |infos| ==>
      infos[i].tq < |held| && held[infos[i].tq] == Some(quant[infos[i].tq].value.quantval)
  }

  /** A reader of what has been written holds the frame and the quantisation tables. */
  ghost predicate Told(w: W.Writer, img: Image)
    requires w.Valid()
    reads w
  {
    Framed(w.Reader().frame, w.FrameComps(), img) && Quantised(w.comp_info, w.quant, w.Reader().quant)
  }

  /** Between scans. */
  ghost predicate Ready(w: W.Writer, img: Image, first: bool)
    reads w
  {
    && w.Valid() && Describes(w, img) && w.segs == []
    && if first then w.Reader().frame.None? else Told(w, img)
  }

  /** The table that slot t of the writer holds is that of the entropy encoder. */
  ghost predicate Carried(dc: seq<Option<W.HuffSlot>>, ac: seq<Option<W.HuffSlot>>, tabs: seq<Tab>, t: nat) {
    && |tabs| == SLOTS && |dc| == |ac| == 4 && t < SLOTS
    && var slot := if t < 4 then dc[t] else ac[t - 4]; slot.Some? && slot.value.h == tabs[t].h
  }

  /** The headers of a scan have been written. */
  ghost predicate Headed(w: W.Writer, img: Image, s: ScanScripts.ScanInfo, ri: nat, tabs: seq<Tab>)
    reads w
  {
    && w.Valid() && ScanDue(w, img, s) && W.EndsInScan([], w.segs) && Told(w, img)
    && w.Reader().scan == Some(HeaderFor(w.comp_info, s)) && w.Reader().restart_interval == ri
    && forall t: nat :: UsesTable(ScanFor(w, img, s, ri), t) ==> Announced(w.Reader(), tabs, t)
  }

  lemma FrameShows(w: W.Writer, img: Image, code: nat)
    requires w.Valid() && Describes(w, img) && img.Ok() && w.Reader().frame == Some(w.FrameOf(code))
    requires S.M_SOF0 <= code <= S.M_SOF2
    ensures Framed(w.Reader().frame, w.FrameComps(), img)
  {
    hide S.AllOk, S.ApplyAll, S.AllBytes, W.HuffOk;
    assert ImageIn(w.FrameOf(code)).comps == img.comps;
  }

  /** write_frame_header, before the first scan: it fails only for a missing quantisation table. */
  method WriteFrame(w: W.Writer, img: Image) returns (ok: bool)
    requires Ready(w, img, true) && img.Ok()
    modifies w`out, w`quant, w`segs
    ensures ok <==> HasQuants(w.comp_info, old(w.quant))
    ensures ok ==> w.Valid() && Told(w, img) && W.Extends([], w.segs) && W.SameQuants(old(w.quant), w.quant)
  {
    hide S.SegmentOk, S.ApplyAll, S.AllBytes, W.HuffOk, S.FrameOk, W.Writer.FrameComps, W.Large;
    ok := w.WriteFrameHeader();
    if ok {
      FrameShows(w, img, w.Reader().frame.value.code);
    }
  }

  /** The tables of the components of a scan. */
  lemma SlotsUsed(w: W.Writer, img: Image, s: ScanScripts.ScanInfo, ri: nat)
    requires ScanDue(w, img, s)
    ensures Slotted(ScanFor(w, img, s, ri))
    ensures ScanFor(w, img, s, ri).mode == DcRefine <==> !PassControl.NeedsStatistics(s)
    ensures forall i :: 0 <= i < |CompsIn(s)| ==>
      && (UsesDcTables(s) ==> UsesTable(ScanFor(w, img, s, ri), w.comp_info[CompsIn(s)[i]].td))
      && (UsesAcTables(s) ==> UsesTable(ScanFor(w, img, s, ri), 4 + w.comp_info[CompsIn(s)[i]].ta))
  {
    hide ScanReady, Describes, UsesTable, GeometryOf;
    DueHeader(w, img, s);
    DcBelow(img, HeaderFor(w.comp_info, s), ri);
    forall i | 0 <= i < |CompsIn(s)|
      ensures UsesDcTables(s) ==> UsesTable(ScanFor(w, img, s, ri), w.comp_info[CompsIn(s)[i]].td)
      ensures UsesAcTables(s) ==> UsesTable(ScanFor(w, img, s, ri), 4 + w.comp_info[CompsIn(s)[i]].ta)
    {
      SlotUsed(ScanFor(w, img, s, ri), i);
    }
  }

  lemma SlotUsed(scan: Scan, i: nat)
    requires scan.Ok() && i < scan.ncomps
    ensures scan.UsesDc() ==> UsesTable(scan, scan.dcTbl[i])
    ensures scan.UsesAc() ==> UsesTable(scan, scan.acTbl[i])
  {}

  lemma SlotOf(w: W.Writer, img: Image, s: ScanScripts.ScanInfo, ri: nat, t: nat) returns (i: nat)
    requires ScanDue(w, img, s) && UsesTable(ScanFor(w, img, s, ri), t)
    ensures i < |CompsIn(s)| && CompsIn(s)[i] < |w.comp_info| && t < SLOTS && w.ParamsOk()
    ensures t < 4 ==> UsesDcTables(s) && t == w.comp_info[CompsIn(s)[i]].td
    ensures t >= 4 ==> UsesAcTables(s) && t == 4 + w.comp_info[CompsIn(s)[i]].ta
  {
    hide ScanReady, GeometryOf;
    DueHeader(w, img, s);
    var scan := ScanFor(w, img, s, ri);
    DcBelow(img, HeaderFor(w.comp_info, s), ri);
    if t < 4 {
      i :| 0 <= i < scan.ncomps && scan.dcTbl[i] == t;
    } else {
      i :| 0 <= i < scan.ncomps && scan.acTbl[i] == t;
    }
  }

  lemma ServedTable(w: W.Writer, img: Image, s: ScanScripts.ScanInfo, ri: nat, tabs: seq<Tab>, r: S.Fields, t: nat)
    requires ScanDue(w, img, s) && UsesTable(ScanFor(w, img, s, ri), t) && Carried(w.dc, w.ac, tabs, t) && r.Ok()
    requires (w.NeedsDc() <==> UsesDcTables(s)) && (w.NeedsAc() <==> UsesAcTables(s))
    requires forall i :: 0 <= i < |CompsIn(s)| && CompsIn(s)[i] < |w.comp_info| ==> w.Served(CompsIn(s)[i], r)
    ensures Announced(r, tabs, t)
  {
    hide ScanReady, UsesTable, ParamsOk, W.HuffOk, Describes, W.Writer.ParamsOk;
    var i := SlotOf(w, img, s, ri, t);
    assert w.Served(CompsIn(s)[i], r);
  }

  lemma HasAll(w: W.Writer, img: Image, s: ScanScripts.ScanInfo, ri: nat, tabs: seq<Tab>)
    requires ScanDue(w, img, s) && (w.NeedsDc() <==> UsesDcTables(s)) && (w.NeedsAc() <==> UsesAcTables(s))
    requires |w.dc| == |w.ac| == 4 && w.ParamsOk()
    requires forall t: nat :: UsesTable(ScanFor(w, img, s, ri), t) ==> Carried(w.dc, w.ac, tabs, t)
    ensures forall i :: 0 <= i < |CompsIn(s)| && CompsIn(s)[i] < |w.comp_info| ==> w.HasTables(CompsIn(s)[i])
  {
    hide ScanReady, UsesTable, ParamsOk, Describes;
    SlotsUsed(w, img, s, ri);
    forall i | 0 <= i < |CompsIn(s)| && CompsIn(s)[i] < |w.comp_info| ensures w.HasTables(CompsIn(s)[i]) {
      assert UsesDcTables(s) ==> Carried(w.dc, w.ac, tabs, w.comp_info[CompsIn(s)[i]].td);
      assert UsesAcTables(s) ==> Carried(w.dc, w.ac, tabs, 4 + w.comp_info[CompsIn(s)[i]].ta);
    }
  }

  lemma StillCarried(dc: seq<Option<W.HuffSlot>>, ac: seq<Option<W.HuffSlot>>, dc': seq<Option<W.HuffSlot>>,
                     ac': seq<Option<W.HuffSlot>>, tabs: seq<Tab>, t: nat)
    requires Carried(dc, ac, tabs, t) && W.SameHuffs(dc, dc') && W.SameHuffs(ac, ac')
    ensures Carried(dc', ac', tabs, t)
  {}

  lemma EndsAll(some: seq<S.Segment>, all: seq<S.Segment>)
    requires W.Extends([], some) && W.EndsInScan(some, all)
    ensures W.EndsInScan([], all)
  {
    forall i | 0 <= i < |all| ensures all[i].Sos? <==> i == |all| - 1 {
      if i < |some| { assert all[i] == some[i]; }
    }
  }

  /** write_scan_header: it does not fail, for the tables have just been made, or are not needed. */
  method WriteHead(w: W.Writer, img: Image, s: ScanScripts.ScanInfo, ri: nat, ghost tabs: seq<Tab>)
    requires w.Valid() && ScanDue(w, img, s) && Selected(w, s, ri) && ri < 65536
    requires Told(w, img) && W.Extends([], w.segs)
    requires forall t: nat :: UsesTable(ScanFor(w, img, s, ri), t) ==> Carried(w.dc, w.ac, tabs, t)
    modifies w`out, w`dc, w`ac, w`segs, w`last_restart_interval
    ensures Headed(w, img, s, ri, tabs)
  {
    hide S.SegmentOk, S.ApplyAll, S.AllBytes, W.HuffOk, S.FrameOk, W.Writer.FrameComps, W.SelectorsOf, UsesTable,
         ScanReady, ParamsOk, HeaderFor, Carried, Announced, W.Writer.HasTables, W.Writer.Served, W.SameHuffs,
         Quantised, W.QuantSync, W.HuffSync, ScanFor;
    ghost var scan := ScanFor(w, img, s, ri);
    SelectedHeader(w, img, s, ri);
    InSlots(w);
    HasAll(w, img, s, ri, tabs);
    ghost var dc, ac, segs := w.dc, w.ac, w.segs;
    var ok := w.WriteScanHeader();
    EndsAll(segs, w.segs);
    forall t: nat | UsesTable(scan, t) ensures Announced(w.Reader(), tabs, t) {
      StillCarried(dc, ac, w.dc, w.ac, tabs, t);
      ServedTable(w, img, s, ri, tabs, w.Reader(), t);
    }
  }

  // ---- One scan of the file ----

  /** The headers that have been written since the data of the scan before. */
  ghost function GroupNow(w: W.Writer, tabs: seq<Tab>): Group
    reads w
  {
    Group(w.segs, w.before, |w.start|, tabs)
  }

  lemma GroupMade(w: W.Writer, img: Image, s: ScanScripts.ScanInfo, ri: nat, cs: Frame, tabs: seq<Tab>)
    requires Headed(w, img, s, ri, tabs) && FrameFor(img, cs) && AllCoefs(cs)
    requires Mcus(ScanFor(w, img, s, ri), McusFor(w, img, s, cs))
    requires Serving(ScanFor(w, img, s, ri), McusFor(w, img, s, cs), tabs)
    ensures GroupFor(img, cs, GroupNow(w, tabs)) && InfoIn(GroupNow(w, tabs).Header()) == s
    ensures GroupNow(w, tabs).After() == w.Reader()
    ensures Data(img, cs, GroupNow(w, tabs)) ==
      ScanBytes(tabs, Segments(ScanFor(w, img, s, ri), McusFor(w, img, s, cs)))
  {
    hide S.SegmentOk, S.ApplyAll, S.AllBytes, W.HuffOk, S.FrameOk, W.Writer.FrameComps, UsesTable, FrameFor, HeaderFor,
         ParamsOk, ScanReady, AllFit, Mcus, TabsOk, EncoderTables, Segments, AllEmittable, SlotOk, DecoderAccepts,
         ScanBytes, AllTyped, Describes, HeaderOk, Quantised, W.QuantSync, W.HuffSync, GeometryOf, CompsIn, McusFor,
         McusOf;
    DueHeader(w, img, s);
    HeaderMcus(w, img, s, cs);
    DueImage(img, s);
  }

  lemma DueImage(img: Image, s: ScanScripts.ScanInfo)
    requires ScanReady(img, CompsIn(s))
    ensures img.Ok()
  {}

  /** The data of the scan. */
  method WriteData(w: W.Writer, scan: Scan, tabs: seq<Tab>, mcus: seq<seq<array<int>>>, ghost all: seq<seq<Block>>)
    requires w.Valid() && scan.Ok() && Mcus(scan, all) && Holding(mcus, all) && Serving(scan, all, tabs)
    modifies w`out, w`start, w`before, w`segs
    ensures w.Valid() && w.segs == [] && w.start == w.out == old(w.out) + ScanBytes(tabs, Segments(scan, all))
    ensures w.before == w.Reader() == old(w.Reader())
  {
    hide W.Writer.Valid, W.Writer.Reader, AllFit, TabsOk, EncoderTables, Segments, AllEmittable, SlotOk, DecoderAccepts,
         ScanBytes, AllTyped, UsesTable, W.HuffOk, BitWriter.Valid, Holding, Mcus, Restorable, Run;
    var writer := new BitWriter();
    var enc := new EntropyEncoder(scan, tabs, false, writer, 0);
    var ok := OutputScan(enc, mcus, all);
    w.ScanData(writer.out);
  }

  /** A coefficient is out of range, or Huffman's procedure overflows. */
  ghost predicate Refused(scan: Scan, mcus: seq<seq<Block>>) {
    scan.Ok() && Mcus(scan, mcus) && (!AllFit(scan, mcus) || Overflows(scan, mcus))
  }

  lemma InstalledCarried(w: W.Writer, tabs: seq<Tab>, t: nat)
    requires Installed(w, tabs, t)
    ensures Carried(w.dc, w.ac, tabs, t)
  {}

  /** What one scan adds to the file. */
  ghost predicate Added(w: W.Writer, img: Image, cs: Frame, s: ScanScripts.ScanInfo, g: Group, out: seq<nat>,
                        held: S.Fields)
    reads w
  {
    && GroupFor(img, cs, g) && InfoIn(g.Header()) == s && g.start == |out| && g.before == held && w.before == g.After()
    && w.out == out + S.AllBytes(g.segs) + Data(img, cs, g)
  }

  /** One scan: statistics and tables, the headers, the data. */
  method WriteScan(w: W.Writer, img: Image, s: ScanScripts.ScanInfo, ri: nat, first: bool, tabs0: seq<Tab>,
                   mcus: seq<seq<array<int>>>, ghost cs: Frame)
    returns (ok: bool, tabs: seq<Tab>, ghost g: Group)
    requires Ready(w, img, first) && ScanDue(w, img, s) && ri < 65536 && img.Ok() && FrameFor(img, cs) && AllCoefs(cs)
    requires |tabs0| == SLOTS && AllTyped(tabs0) && Holding(mcus, McusFor(w, img, s, cs))
    requires Moderate(ScanFor(w, img, s, ri), McusFor(w, img, s, cs))
    modifies w
    ensures !ok ==>
      Refused(ScanFor(w, img, s, ri), McusFor(w, img, s, cs)) || (first && !HasQuants(w.comp_info, old(w.quant)))
    ensures ok ==> |tabs| == SLOTS && AllTyped(tabs) && Ready(w, img, false)
    ensures ok ==> if first then W.SameQuants(old(w.quant), w.quant) else w.quant == old(w.quant)
    ensures ok ==> Added(w, img, cs, s, g, old(w.out), old(w.before))
  {
    hide S.SegmentOk, S.AllBytes, W.HuffOk, S.FrameOk, W.Writer.FrameComps, UsesTable, FrameFor, HeaderFor, ParamsOk,
         ScanReady, AllFit, Mcus, Data, AllTyped, Describes, Quantised, Framed, HasQuants, Serving, Codable, Moderate,
         ScanFor, McusFor, Holding, Installed, Carried, Slotted, Overflows, AllCoefs, GroupFor, W.QuantSync, W.HuffSync,
         ScanBytes, Segments, Announced, TablesBelow, Selected, W.SameQuants;
    ghost var all := McusFor(w, img, s, cs);
    NothingYet(w);
    SelectScan(w, img, s, ri);
    var scan := ScanFor(w, img, s, ri);
    DueMcus(w, img, s, ri, cs);
    DueCodable(w, img, s, ri, cs);
    SlotsUsed(w, img, s, ri);
    ok, tabs := PrepareTables(w, scan, PassControl.NeedsStatistics(s), tabs0, mcus, all);
    g := GroupNow(w, tabs);
    if !ok {
      return;
    }
    forall t: nat | UsesTable(scan, t) ensures Carried(w.dc, w.ac, tabs, t) { InstalledCarried(w, tabs, t); }
    if first {
      ok := WriteFrame(w, img);
      if !ok {
        return;
      }
    }
    WriteHead(w, img, s, ri, tabs);
    g := GroupNow(w, tabs);
    GroupMade(w, img, s, ri, cs, tabs);
    WriteData(w, scan, tabs, mcus, all);
  }

  lemma NothingYet(w: W.Writer)
    requires w.Valid() && w.segs == []
    ensures w.out == w.start && w.Reader() == w.before
  {
    hide S.SegmentOk, W.HuffOk;
  }

  // ---- The whole file ----

  /** The groups written so far, from `start` on, where a reader holds `held`. */
  ghost predicate Written(w: W.Writer, img: Image, cs: Frame, script: seq<ScanScripts.ScanInfo>, gs: seq<Group>,
                          start: nat, held: S.Fields)
    reads w
  {
    && Scans(img, cs, gs, script) && Follow(img, cs, gs, start, held) && AllLie(img, cs, gs, w.out) && Bytes(w.out)
    && (gs == [] ==> |w.out| == start && w.before == held)
    && (gs != [] ==>
       GroupFor(img, cs, gs[|gs| - 1]) && DataEnd(img, cs, gs[|gs| - 1]) == |w.out|
         && w.before == gs[|gs| - 1].After())
  }

  lemma AddedBytes(img: Image, cs: Frame, g: Group)
    requires GroupFor(img, cs, g)
    ensures g.Ok() && S.InBytes(S.AllBytes(g.segs)) && Bytes(Data(img, cs, g))
  {
    hide HeaderOk, AllFit, Tabled, S.SegmentOk, S.ApplyAll, S.AllBytes, FrameFor, Mcus, ScanBytes, Segments;
    S.AllInBytes(g.segs, g.before);
    var scan, all := ScanIn(img, g.Header(), g.After().restart_interval), McusOf(img, cs, g.Header());
    SomeSegment(scan, all);
    ScanAreBytes(g.tabs, Segments(scan, all));
  }

  lemma SomeSegment(scan: Scan, all: seq<seq<Block>>)
    requires scan.Ok() && Mcus(scan, all)
    ensures |Segments(scan, all)| > 0
  {}

  /** A new group lies where it was added. */
  lemma AddedLies(img: Image, cs: Frame, g: Group, out: seq<nat>, file: seq<nat>)
    requires GroupFor(img, cs, g) && g.Ok() && g.start == |out|
    requires file == out + S.AllBytes(g.segs) + Data(img, cs, g)
    ensures Lies(img, cs, g, file) && DataEnd(img, cs, g) == |file|
  {
    hide GroupFor, S.AllBytes, Data, S.SegmentOk, S.ApplyAll;
    var a, b := S.AllBytes(g.segs), Data(img, cs, g);
    assert file[|out|..|out| + |a|] == a && file[|out| + |a|..] == b;
  }

  lemma AllLieStill(img: Image, cs: Frame, gs: seq<Group>, file: seq<nat>, more: seq<nat>)
    requires AllLie(img, cs, gs, file) && file <= more
    ensures AllLie(img, cs, gs, more)
  {
    hide GroupFor, Lies;
    forall i | 0 <= i < |gs| ensures GroupFor(img, cs, gs[i]) && Lies(img, cs, gs[i], more) {
      LiesStill(img, cs, gs[i], file, more);
    }
  }

  /** One more scan. */
  lemma OneMoreGroup(img: Image, cs: Frame, script: seq<ScanScripts.ScanInfo>, s: ScanScripts.ScanInfo, gs: seq<Group>,
                     g: Group, start: nat, held: S.Fields, out: seq<nat>, file: seq<nat>)
    requires Scans(img, cs, gs, script) && Follow(img, cs, gs, start, held) && AllLie(img, cs, gs, out) && Bytes(out)
    requires GroupFor(img, cs, g) && g.Ok() && InfoIn(g.Header()) == s && g.start == |out|
    requires gs == [] ==> g.start == start && g.before == held
    requires gs != [] ==>
      GroupFor(img, cs, gs[|gs| - 1]) && DataEnd(img, cs, gs[|gs| - 1]) == |out| && g.before == gs[|gs| - 1].After()
    requires file == out + S.AllBytes(g.segs) + Data(img, cs, g)
    ensures Scans(img, cs, gs + [g], script + [s]) && Follow(img, cs, gs + [g], start, held)
    ensures AllLie(img, cs, gs + [g], file) && Bytes(file) && DataEnd(img, cs, g) == |file|
  {
    hide GroupFor, Lies, S.AllBytes, Data, DataEnd, Group.Ok;
    AddedBytes(img, cs, g);
    AddedLies(img, cs, g, out, file);
    assert out <= file;
    AllLieStill(img, cs, gs, out, file);
  }

  /** Every scan of the run can be set up, its MCUs are those of the coefficients cs, and it has no more symbols than
      the statistics can count. */
  ghost predicate RunDue(w: W.Writer, img: Image, script: seq<ScanScripts.ScanInfo>, ris: seq<nat>, cs: Frame) {
    && ScanScripts.ScriptAccepted(script, |img.comps|) && |ris| == |script| && img.Ok() && FrameFor(img, cs)
    && AllCoefs(cs) && forall i :: 0 <= i < |script| ==>
      && ScanDue(w, img, script[i]) && ris[i] < 65536
      && Moderate(ScanFor(w, img, script[i], ris[i]), McusFor(w, img, script[i], cs))
  }

  /** Some scan is refused. */
  ghost predicate SomeRefused(w: W.Writer, img: Image, script: seq<ScanScripts.ScanInfo>, ris: seq<nat>, cs: Frame) {
    && RunDue(w, img, script, ris, cs)
    && exists i :: 0 <= i < |script| && ScanDue(w, img, script[i])
         && Refused(ScanFor(w, img, script[i], ris[i]), McusFor(w, img, script[i], cs))
  }

  lemma NoGroups(img: Image, cs: Frame, script: seq<ScanScripts.ScanInfo>, out: seq<nat>, start: nat, held: S.Fields)
    ensures Scans(img, cs, [], script[..0]) && Follow(img, cs, [], start, held) && AllLie(img, cs, [], out)
  {}

  lemma AcceptedSome(script: seq<ScanScripts.ScanInfo>, n: nat)
    requires ScanScripts.ScriptAccepted(script, n)
    ensures script != []
  {}

  /** The end of the file. */
  lemma Closed(img: Image, cs: Frame, script: seq<ScanScripts.ScanInfo>, gs: seq<Group>, start: nat, held: S.Fields,
               out: seq<nat>)
    requires ScanScripts.ScriptAccepted(script, |img.comps|) && Scans(img, cs, gs, script)
    requires Follow(img, cs, gs, start, held) && AllLie(img, cs, gs, out) && Bytes(out)
    requires gs != [] ==> GroupFor(img, cs, gs[|gs| - 1]) && DataEnd(img, cs, gs[|gs| - 1]) == |out|
    ensures FileFor(img, cs, script, gs, out + [0xFF, S.M_EOI], start, held)
  {
    hide GroupFor, Lies, DataEnd, Follow, AllLie, ScanScripts.ProgressiveScript, ScanScripts.SequentialScript;
    AllLieStill(img, cs, gs, out, out + [0xFF, S.M_EOI]);
    assert (out + [0xFF, S.M_EOI])[|out|..] == [0xFF, S.M_EOI];
  }

  /** A whole file with optimal tables, new ones for every scan. It fails only for a coefficient out of range, a
      code of more than 32 bits, or a missing quantisation table. */
  method WriteFile(w: W.Writer, img: Image, script: seq<ScanScripts.ScanInfo>, ris: seq<nat>, tabs0: seq<Tab>,
                   mcus: seq<seq<seq<array<int>>>>, ghost cs: Frame)
    returns (ok: bool, ghost gs: seq<Group>)
    requires Ready(w, img, true) && RunDue(w, img, script, ris, cs) && |mcus| == |script| && Bytes(w.out)
    requires forall i :: 0 <= i < |script| ==>
      ScanDue(w, img, script[i]) && Holding(mcus[i], McusFor(w, img, script[i], cs))
    requires |tabs0| == SLOTS && AllTyped(tabs0)
    modifies w
    ensures !ok ==> SomeRefused(w, img, script, ris, cs) || !HasQuants(w.comp_info, old(w.quant))
    ensures ok ==> old(w.out) <= w.out && FileFor(img, cs, script, gs, w.out, |old(w.out)|, old(w.before))
    ensures ok ==> gs != [] && gs[|gs| - 1].Ok() && Framed(gs[|gs| - 1].After().frame, w.FrameComps(), img)
    ensures ok ==> Quantised(w.comp_info, w.quant, gs[|gs| - 1].After().quant) && W.SameQuants(old(w.quant), w.quant)
  {
    hide ScanDue, Moderate, ScanFor, McusFor, Refused, HasQuants, AllTyped, Holding, GroupFor, Lies, FrameFor, Framed,
         Quantised, W.SameQuants, Describes, W.QuantSync, W.HuffSync, S.SegmentOk, Group.Ok, Image.Ok, AllCoefs,
           S.AllBytes, Data, DataEnd, ScanScripts.ScriptAccepted, Bytes, Scans, Follow, AllLie;
    ghost var start, held := |w.out|, w.before;
    var tabs := tabs0;
    gs := [];
    NoGroups(img, cs, script, w.out, start, held);
    var i := 0;
    while i < |script|
      invariant i <= |script| && Ready(w, img, i == 0) && |tabs| == SLOTS && AllTyped(tabs)
      invariant Written(w, img, cs, script[..i], gs, start, held) && |gs| == i && old(w.out) <= w.out
      invariant if i == 0 then w.quant == old(w.quant) else W.SameQuants(old(w.quant), w.quant)
      invariant forall k :: 0 <= k < |script| ==>
        ScanDue(w, img, script[k]) && Holding(mcus[k], McusFor(w, img, script[k], cs))
    {
      ghost var out, before := w.out, w.before;
      ghost var g;
      ok, tabs, g := WriteScan(w, img, script[i], ris[i], i == 0, tabs, mcus[i], cs);
      if !ok {
        return;
      }
      assert script[..i + 1] == script[..i] + [script[i]];
      AddedBytes(img, cs, g);
      OneMoreGroup(img, cs, script[..i], script[i], gs, g, start, held, out, w.out);
      gs := gs + [g];
      i := i + 1;
    }
    assert script[..i] == script;
    ghost var out := w.out;
    NothingYet(w);
    AcceptedSome(script, |img.comps|);
    AddedBytes(img, cs, gs[|gs| - 1]);
    w.EmitMarker(S.M_EOI);
    Closed(img, cs, script, gs, start, held, out);
    ok := true;
  }
}
