/** Reading a whole file: the headers of a scan by the marker reader, its tables derived from what has arrived, its
    data by the coefficient controller, which leaves the input at the marker of the next header. */
module FileReader {
  import opened Coefficients
  import opened HuffmanTables
  import opened DerivedTables
  import opened BitReader
  import opened Coding
  import opened Decoding
  import opened TokenBits
  import opened McuDecoding
  import opened ScanRoundTrip
  import opened Suspension
  import opened NaturalOrder
  import opened McuDecoder
  import opened Frames
  import opened McuGeometry
  import opened McuLayout
  import opened DummyBlocks
  import opened McuFilling
  import opened CoefConsumer
  import opened ScanCodec
  import opened ScriptRoundTrip
  import opened ImageRoundTrip
  import opened TableExchange
  import opened FileFormat
  import ScanScripts
  import S = MarkerSegments
  import W = MarkerWriter
  import R = MarkerReader

  // ---- The tables of a scan ----

  /** For the slots that the scan uses: the definition that has arrived, the encoder's codes, and what the decoder
      has derived. */
  ghost predicate Joined(scan: Scan, enc: seq<Tab>, tabs: seq<Tab>)
    requires scan.Ok()
  {
    |enc| == |tabs| == SLOTS && forall t: nat :: UsesTable(scan, t) ==>
      && t < SLOTS && W.HuffOk(enc[t].h) && tabs[t].h == Sent(enc[t].h) && TableOk(tabs[t].h, tabs[t].d)
      && tabs[t].c == enc[t].c
  }

  lemma {:induction false} JoinedServe(scan: Scan, mcus: seq<seq<Block>>, s: S.Fields, enc: seq<Tab>, tabs: seq<Tab>)
    requires scan.Ok() && Mcus(scan, mcus) && AllFit(scan, mcus) && s.Ok() && Tabled(scan, enc, s, mcus)
    requires Joined(scan, enc, tabs)
    requires scan.UsesDc() ==> forall i :: 0 <= i < scan.ncomps ==> scan.dcTbl[i] < 4
    ensures TabsOk(scan, tabs) && ScanBytes(tabs, Segments(scan, mcus)) == ScanBytes(enc, Segments(scan, mcus))
    ensures forall i :: 0 <= i < |Segments(scan, mcus)| ==> AllEmittable(tabs, Segments(scan, mcus)[i])
  {
    hide AllFit, Run, Flush, Sent, TableOk, DecoderAccepts, ScanBytes, Encodes, DcTable, W.HuffOk, Uses, AllEmittable;
    var segs := Segments(scan, mcus);
    forall t: nat | UsesTable(scan, t) ensures SlotOk(tabs, t) && (t < 4 ==> DcTable(tabs[t].h)) {
      TableServes(enc[t], tabs[t], t < 4);
    }
    forall i | 0 <= i < scan.ncomps
      ensures scan.UsesDc() ==> UsesTable(scan, scan.dcTbl[i])
      ensures scan.UsesAc() ==> UsesTable(scan, scan.acTbl[i])
    {}
    forall i | 0 <= i < |segs| ensures SameEncoder(enc, tabs, segs[i]) {
      forall j | 0 <= j < |segs[i]| && segs[i][j].Sym? ensures UsesTable(scan, segs[i][j].tbl) {
        UsedSymbolsAreCounted(scan, mcus, i, j);
      }
    }
    SameScanBytes(enc, tabs, segs);
  }

  lemma TableServes(enc: Tab, dec: Tab, isDC: bool)
    requires W.HuffOk(enc.h) && Encodes(enc.h, enc.c) && DecoderAccepts(enc.h, isDC)
    requires dec.h == Sent(enc.h) && TableOk(dec.h, dec.d) && dec.c == enc.c
    ensures Encodes(dec.h, dec.c) && (isDC ==> DcTable(dec.h))
  {
    hide Encodes, Decodes, Sent, Legal;
    SentServes(enc.h, enc.c, isDC);
  }

  /** Table t has arrived and the decoder's part of it has been derived. */
  ghost predicate Derived(enc: seq<Tab>, tabs: seq<Tab>, t: nat) {
    && t < |enc| && t < |tabs| && W.HuffOk(enc[t].h)
    && tabs[t].h == Sent(enc[t].h) && TableOk(tabs[t].h, tabs[t].d)
  }

  /** Table t has been announced, and the decoder will accept it. */
  ghost predicate Usable(s: S.Fields, enc: seq<Tab>, t: nat) {
    Announced(s, enc, t) && DecoderAccepts(enc[t].h, t < 4)
  }

  method DeriveTable(s: S.Fields, t: nat, tabs0: seq<Tab>, ghost enc: seq<Tab>) returns (tabs: seq<Tab>)
    requires Usable(s, enc, t) && |tabs0| == SLOTS
    ensures |tabs| == SLOTS && Derived(enc, tabs, t)
    ensures forall u :: 0 <= u < SLOTS && u != t ==> tabs[u] == tabs0[u]
  {
    hide Decodes, DecoderAccepts, Sent, Legal, W.HuffOk;
    Accepted(enc[t].h, t < 4);
    var listed := if t < 4 then s.dc[t].value else s.ac[t - 4].value;
    var h := TableOf(listed);
    var d := MakeDDerived(h, t < 4);
    tabs := tabs0[t := Tab(h, CTbl([], []), d.value)];
  }

  lemma Accepted(h: HuffTbl, isDC: bool)
    requires W.HuffOk(h) && DecoderAccepts(h, isDC)
    ensures |W.ListedOf(h).symbols| <= 256 && Sent(h) == TableOf(W.ListedOf(h)) && Sent(h).WellTyped()
    ensures DecoderAccepts(Sent(h), isDC) && Legal(Sent(h).bits)
  {
    SentServes(h, CTbl([], []), isDC);
  }

  /** jpeg_make_d_derived_tbl for the tables of a scan (start_pass). */
  method DeriveTables(s: S.Fields, scan: Scan, ghost enc: seq<Tab>) returns (tabs: seq<Tab>)
    requires scan.Ok() && forall t: nat :: UsesTable(scan, t) ==> Usable(s, enc, t)
    ensures |tabs| == SLOTS && forall t: nat :: UsesTable(scan, t) ==> Derived(enc, tabs, t)
  {
    hide Derived, Usable;
    tabs := seq(SLOTS, _ => Tab(HuffTbl([], []), CTbl([], []), DTbl([], [], [], [], [])));
    for i := 0 to scan.ncomps
      invariant |tabs| == SLOTS
      invariant scan.UsesDc() ==> forall j :: 0 <= j < i ==> Derived(enc, tabs, scan.dcTbl[j])
      invariant scan.UsesAc() ==> forall j :: 0 <= j < i ==> Derived(enc, tabs, scan.acTbl[j])
    {
      if scan.UsesDc() {
        assert UsesTable(scan, scan.dcTbl[i]);
        tabs := DeriveNext(s, scan, scan.dcTbl[i], tabs, enc, i);
      }
      if scan.UsesAc() {
        assert UsesTable(scan, scan.acTbl[i]);
        tabs := DeriveNext(s, scan, scan.acTbl[i], tabs, enc, i);
      }
    }
  }

  method DeriveNext(s: S.Fields, scan: Scan, t: nat, tabs0: seq<Tab>, ghost enc: seq<Tab>, ghost i: nat)
    returns (tabs: seq<Tab>)
    requires scan.Ok() && i < scan.ncomps && Usable(s, enc, t) && |tabs0| == SLOTS
    ensures |tabs| == SLOTS && Derived(enc, tabs, t)
    ensures forall u: nat :: Derived(enc, tabs0, u) ==> Derived(enc, tabs, u)
  {
    hide TableOk, W.HuffOk, Sent, Usable;
    tabs := DeriveTable(s, t, tabs0, enc);
  }

  // ---- The data of a scan ----

  /** Decoding the scan that starts at pos. */
  ghost function Decoded(img: Image, cur: seq<nat>, scan: Scan, tabs: seq<Tab>, data: seq<nat>, pos: nat, start: Frame)
    : (r: Option<ScanOut>)
    requires Decodable(img, cur, scan, tabs, data, start)
  {
    StartFacts(img, cur, scan, tabs, data, start);
    DecodeAll(scan, data, |data|, tabs, StartPass(scan, pos), Collect(Order(img, cur), start))
  }

  /** A scan that the decoder can start on, with the arrays holding `start`. */
  ghost predicate Decodable(img: Image, cur: seq<nat>, scan: Scan, tabs: seq<Tab>, data: seq<nat>, start: Frame) {
    && ScanReady(img, cur) && scan.Ok() && TabsOk(scan, tabs) && Bytes(data)
    && scan.members == GeometryOf(img, cur).membership && FrameFor(img, start) && AllCoefs(start)
  }

  lemma StartFacts(img: Image, cur: seq<nat>, scan: Scan, tabs: seq<Tab>, data: seq<nat>, start: Frame)
    requires Decodable(img, cur, scan, tabs, data, start)
    ensures Fits(Order(img, cur), start) && Sized(scan, Collect(Order(img, cur), start))
    ensures forall i :: 0 <= i < |Order(img, cur)| ==> |Collect(Order(img, cur), start)[i]| == |scan.members|
    ensures forall pos :: DecOk(scan, StartPass(scan, pos))
  {
    hide ScanReady, Order, TabsOk, Bytes, FrameFor, GeometryOf, Coefs, NoBlockTwice;
    OrderFacts(img, cur, start);
    var all := Collect(Order(img, cur), start);
    forall i | 0 <= i < |all| ensures Shorts(all[i]) {
      forall j | 0 <= j < |all[i]| ensures Coefs(all[i][j]) {}
    }
  }

  /** consume_data until the scan is complete, all the input being present. */
  method Consume(consumer: CoefficientConsumer)
    requires consumer.Valid() && consumer.input_iMCU_row < consumer.img.McusDown()
    requires consumer.entropy.arrived == |consumer.entropy.data|
    requires !Undecodable(consumer.img, consumer.cur_comp_info, consumer.src)
    modifies consumer, consumer.entropy, AllBlocks(consumer.whole_image)
    ensures consumer.Valid() && Complete(consumer)
  {
    hide CoefficientConsumer.Valid, Undecodable, Image.McusDown, AllBlocks, Contents, Scatter, Order, DecodeWhole,
         Collect, SourceOk, ArraysFor, Sized, Fits, TabsOk, Bytes, DecOk;
    ConsumerImage(consumer);
    var done := false;
    while !done
      invariant consumer.img.Ok() && consumer.Valid() && consumer.entropy.arrived == |consumer.entropy.data|
      invariant if done then Complete(consumer) else consumer.input_iMCU_row < consumer.img.McusDown()
      decreases !done, consumer.img.McusDown() - consumer.input_iMCU_row
    {
      var r := consumer.ConsumeData();
      if r.JpegSuspended? {
        assert false;
      }
      done := r.JpegScanCompleted?;
    }
  }

  lemma ConsumerImage(consumer: CoefficientConsumer)
    requires consumer.Valid()
    ensures consumer.img.Ok()
  {
    hide Midway, ArraysFor, TabsOk, Bytes, DecOk, Image.Ok, Distinct, Scannable;
  }

  /** The arrays hold the decoded scan, and the input is where the decoder has left it. */
  ghost predicate Complete(consumer: CoefficientConsumer)
    requires consumer.Valid()
    reads consumer, consumer.entropy, AllBlocks(consumer.whole_image)
  {
    var src, layout := consumer.src, Order(consumer.img, consumer.cur_comp_info);
    && DecodeWhole(src.scan, src.data, src.tabs, src.d0, Collect(layout, src.start)) ==
       Some(ScanOut(consumer.entropy.State(), consumer.outs))
    && Contents(consumer.img, consumer.whole_image) == Scatter(layout, consumer.outs, src.start)
  }

  /** The data of one scan: the input is left where the decoder has left it, the decoded blocks in the arrays. */
  method ConsumeScan(img: Image, cur: seq<nat>, whole: Arrays, scan: Scan, tabs: seq<Tab>, data: seq<nat>, pos: nat,
                     ghost start: Frame)
    returns (next: nat, marker: nat)
    requires Decodable(img, cur, scan, tabs, data, start) && ArraysFor(img, whole) && Contents(img, whole) == start
    requires Decoded(img, cur, scan, tabs, data, pos, start).Some?
    modifies AllBlocks(whole)
    ensures var so := Decoded(img, cur, scan, tabs, data, pos, start).value;
      && next == so.dec.rd.pos && marker == so.dec.rd.marker
      && Contents(img, whole) == Scatter(Order(img, cur), so.outs, start)
  {
    hide ScanReady, Order, TabsOk, Bytes, FrameFor, GeometryOf, AllCoefs, NoBlockTwice, Fits, Sized, DecodeAll,
         Scatter, Contents, ArraysFor, Image.Ok, Image.McusDown, CoefficientConsumer.Valid, DecOk, Collect;
    StartFacts(img, cur, scan, tabs, data, start);
    WholeIsAll(scan, data, tabs, StartPass(scan, pos), Collect(Order(img, cur), start));
    SomeRows(img, cur);
    var entropy := new EntropyDecoder(scan, tabs, data, pos);
    entropy.arrived := |data|;
    var consumer := new CoefficientConsumer(img, cur, whole, entropy);
    Consume(consumer);
    next, marker := entropy.next_input_byte, entropy.unread_marker;
  }

  lemma SomeRows(img: Image, cur: seq<nat>)
    requires ScanReady(img, cur)
    ensures img.McusDown() >= 1
  {
    hide Image.BlocksAcross, Image.BlocksDown, Image.McusAcross, Image.McusDown, Membership, Image.Across, Image.Down;
    PaddedSizes(img, cur[0]);
  }

  lemma {:induction false} OutsShort(scan: Scan, data: seq<nat>, lim: nat, tabs: seq<Tab>, d: Dec, bss: seq<seq<Block>>)
    requires DecOk(scan, d) && TabsOk(scan, tabs) && lim <= |data| && Bytes(data) && Sized(scan, bss)
    requires DecodeAll(scan, data, lim, tabs, d, bss).Some?
    ensures Sized(scan, DecodeAll(scan, data, lim, tabs, d, bss).value.outs)
  {
    hide DecodeMcu, TabsOk, Bytes, DecOk, Shorts;
    if bss != [] {
      var n := |bss| - 1;
      OutsShort(scan, data, lim, tabs, d, bss[..n]);
      var before := DecodeAll(scan, data, lim, tabs, d, bss[..n]).value;
      DecodeMcuOk(scan, data, lim, tabs, before.dec, bss[n]);
      McuShorts(scan, data, lim, tabs, before.dec, bss[n]);
    }
  }

  lemma ScatterShort(layout: Layout, outs: seq<seq<Block>>, f: Frame)
    requires AllCoefs(f) && forall i :: 0 <= i < |outs| ==> Shorts(outs[i])
    ensures AllCoefs(Scatter(layout, outs, f))
  {
    hide Coefs, Visits;
    forall q | In(q, Scatter(layout, outs, f)) ensures Coefs(At(Scatter(layout, outs, f), q)) {
      assert Coefs(At(f, q));
    }
  }

  // ---- What the decoder makes of one group ----

  /** The scan of a group, as the theorem about scripts has it. */
  ghost function PassOf(img: Image, cs: Frame, g: Group, file: seq<nat>, tabs: seq<Tab>, m: nat): Pass
    requires GroupFor(img, cs, g)
  {
    var h := g.Header();
    Pass(InfoIn(h), Order(img, CompsIn(InfoIn(h))), GeometryOf(img, CompsIn(InfoIn(h))).membership, DcSlots(h),
         AcSlots(h), g.After().restart_interval, tabs, file, |file|, g.Pos(), m)
  }

  ghost function ScanFor(img: Image, cs: Frame, g: Group): (scan: Scan)
    requires GroupFor(img, cs, g)
    ensures scan.Ok()
  {
    ScanIn(img, g.Header(), g.After().restart_interval)
  }

  /** The marker m is next in the file. */
  ghost predicate MarkerAt(img: Image, cs: Frame, g: Group, file: seq<nat>, m: nat)
    requires GroupFor(img, cs, g)
  {
    var e := DataEnd(img, cs, g);
    0 < m < 0xFF && e + 2 <= |file| && file[e] == 0xFF && file[e + 1] == m
  }

  lemma GroupFacts(img: Image, cs: Frame, g: Group)
    requires GroupFor(img, cs, g)
    ensures g.Ok() && img.Ok() && FrameFor(img, cs) && HeaderOk(img, g.Header())
    ensures Mcus(ScanFor(img, cs, g), McusOf(img, cs, g.Header()))
    ensures AllFit(ScanFor(img, cs, g), McusOf(img, cs, g.Header()))
    ensures Tabled(ScanFor(img, cs, g), g.tabs, g.After(), McusOf(img, cs, g.Header()))
    ensures Data(img, cs, g) == ScanBytes(g.tabs, Segments(ScanFor(img, cs, g), McusOf(img, cs, g.Header())))
  {
    hide HeaderOk, AllFit, Tabled, Group.Ok, ScanBytes;
  }

  /** What the encoder has made of the scan, in terms of the joined tables. */
  lemma DataServes(img: Image, cs: Frame, g: Group, tabs: seq<Tab>)
    requires GroupFor(img, cs, g) && Joined(ScanFor(img, cs, g), g.tabs, tabs)
    ensures TabsOk(ScanFor(img, cs, g), tabs) && Mcus(ScanFor(img, cs, g), McusOf(img, cs, g.Header()))
    ensures var segs := Segments(ScanFor(img, cs, g), McusOf(img, cs, g.Header()));
      ScanBytes(tabs, segs) == Data(img, cs, g) && forall i :: 0 <= i < |segs| ==> AllEmittable(tabs, segs[i])
  {
    hide GroupFor, HeaderOk, AllFit, Joined, Tabled, ScanBytes, Run, Flush, UsesTable, Data, AllEmittable, Mcus, McusOf,
         TabsOk;
    GroupFacts(img, cs, g);
    DcBelow(img, g.Header(), g.After().restart_interval);
    JoinedServe(ScanFor(img, cs, g), McusOf(img, cs, g.Header()), g.After(), g.tabs, tabs);
  }

  lemma PassCoded(img: Image, cs: Frame, g: Group, file: seq<nat>, tabs: seq<Tab>, m: nat)
    requires GroupFor(img, cs, g) && Lies(img, cs, g, file) && Bytes(file) && MarkerAt(img, cs, g, file, m)
    requires Joined(ScanFor(img, cs, g), g.tabs, tabs)
    ensures ImagePass(PassOf(img, cs, g, file, tabs, m), img, cs)
    ensures ScanOf(PassOf(img, cs, g, file, tabs, m)) == ScanFor(img, cs, g)
  {
    hide GroupFor, Order, ScanReady, Joined, Bytes, Filled, FrameFor, NoBlockTwice, Lies, MarkerAt, GeometryOf, Tabled,
         Job.Coded, AllFit, Mcus, Data;
    GroupFacts(img, cs, g);
    var cur := CompsIn(InfoIn(g.Header()));
    OrderFacts(img, cur, Filled(img, cs));
    OrderMcus(img, cur, cs);
    JobCoded(img, cs, g, file, tabs, m);
  }

  lemma JobCoded(img: Image, cs: Frame, g: Group, file: seq<nat>, tabs: seq<Tab>, m: nat)
    requires GroupFor(img, cs, g) && Lies(img, cs, g, file) && Bytes(file) && MarkerAt(img, cs, g, file, m)
    requires Joined(ScanFor(img, cs, g), g.tabs, tabs)
    ensures var mcus := McusOf(img, cs, g.Header());
      Job(ScanFor(img, cs, g), tabs, mcus, mcus, file, |file|, g.Pos(), m).Coded()
  {
    hide GroupFor, AllFit, Joined, Bytes, ScanBytes, Tabled, Data, Run, Flush, Mcus, TabsOk, AllEmittable, Segments,
         HeaderOk, McusOf, ScanFor;
    GroupFacts(img, cs, g);
    DataServes(img, cs, g, tabs);
    MarkerFollows(file, g.Pos(), Data(img, cs, g), m);
  }

  lemma MarkerFollows(file: seq<nat>, pos: nat, data: seq<nat>, m: nat)
    requires pos + |data| + 2 <= |file| && file[pos..pos + |data|] == data
    requires file[pos + |data|] == 0xFF && file[pos + |data| + 1] == m
    ensures file[pos..pos + |data + [0xFF, m]|] == data + [0xFF, m]
  {
    assert file[pos..pos + |data| + 2] == file[pos..pos + |data|] + [file[pos + |data|], file[pos + |data| + 1]];
  }

  /** What the decoder knows of the image: the arrays f are at the given levels. */
  ghost predicate Got(img: Image, cs: Frame, levels: ScanScripts.Levels, f: Frame)
    requires img.Ok() && FrameFor(img, cs)
  {
    FrameFor(img, f) && AllCoefs(f) && Knows(levels, Shown(img), Filled(img, cs), f)
  }

  ghost function CurOf(g: Group): seq<nat>
    requires g.Ok()
  {
    CompsIn(InfoIn(g.Header()))
  }

  /** The data of a group: the decoder goes through it without a warning, reaches the next marker, and knows more
      of the image. */
  lemma GroupDecodes(img: Image, cs: Frame, g: Group, file: seq<nat>, tabs: seq<Tab>, m: nat,
                     levels: ScanScripts.Levels, f: Frame)
    requires GroupFor(img, cs, g) && Lies(img, cs, g, file) && Bytes(file) && MarkerAt(img, cs, g, file, m)
    requires Joined(ScanFor(img, cs, g), g.tabs, tabs) && img.Ok() && FrameFor(img, cs)
    requires Got(img, cs, levels, f) && ScanScripts.Continues(levels, InfoIn(g.Header()))
    ensures Decodable(img, CurOf(g), ScanFor(img, cs, g), tabs, file, f)
    ensures Decoded(img, CurOf(g), ScanFor(img, cs, g), tabs, file, g.Pos(), f).Some?
    ensures var so := Decoded(img, CurOf(g), ScanFor(img, cs, g), tabs, file, g.Pos(), f).value;
      && !so.dec.rd.dry && AtMarker(file, so.dec.rd, m, DataEnd(img, cs, g) + 2)
      && Got(img, cs, ScanScripts.Mark(levels, InfoIn(g.Header())), Scatter(Order(img, CurOf(g)), so.outs, f))
  {
    hide GroupFor, Order, ScanReady, Joined, Bytes, Filled, FrameFor, Data, GeometryOf, TabsOk, Knows, ImagePass,
         PassOk, ScanScripts.Continues, ScanScripts.Mark, AllCoefs, Lies, MarkerAt, Scatter, AtMarker, Decoded,
         Decodable, PassOf;
    GroupFacts(img, cs, g);
    var p := PassOf(img, cs, g, file, tabs, m);
    PassCoded(img, cs, g, file, tabs, m);
    PassIs(p, img, cs);
    GroupStart(img, cs, g, file, tabs, f);
    GroupReaches(img, cs, g, file, tabs, m, levels, f);
    PassGives(img, cs, g, file, tabs, m, levels, f);
    DecodedShort(img, CurOf(g), ScanFor(img, cs, g), tabs, file, g.Pos(), f);
  }

  lemma GroupReaches(img: Image, cs: Frame, g: Group, file: seq<nat>, tabs: seq<Tab>, m: nat,
                     levels: ScanScripts.Levels, f: Frame)
    requires GroupFor(img, cs, g) && Decodable(img, CurOf(g), ScanFor(img, cs, g), tabs, file, f)
    requires PassOk(PassOf(img, cs, g, file, tabs, m), Shown(img), Filled(img, cs))
    requires Knows(levels, Shown(img), Filled(img, cs), f) && ScanScripts.Continues(levels, InfoIn(g.Header()))
    requires ScanOf(PassOf(img, cs, g, file, tabs, m)) == ScanFor(img, cs, g)
      && Joined(ScanFor(img, cs, g), g.tabs, tabs)
    ensures var r := Decoded(img, CurOf(g), ScanFor(img, cs, g), tabs, file, g.Pos(), f);
      && r.Some? && !r.value.dec.rd.dry && AtMarker(file, r.value.dec.rd, m, DataEnd(img, cs, g) + 2)
  {
    hide GroupFor, Order, ScanReady, Joined, Bytes, Filled, FrameFor, Data, GeometryOf, TabsOk, Knows, PassOk,
         ScanScripts.Continues, AllCoefs, DecodeAll, AtMarker, Startable, Decodable, McusOf, ScanBytes, Collect;
    GroupFacts(img, cs, g);
    DataServes(img, cs, g, tabs);
    GroupJob(img, cs, g, file, tabs, m);
    StartFacts(img, CurOf(g), ScanFor(img, cs, g), tabs, file, f);
    PassReaches(PassOf(img, cs, g, file, tabs, m), levels, Shown(img), Filled(img, cs), f);
  }

  lemma GroupJob(img: Image, cs: Frame, g: Group, file: seq<nat>, tabs: seq<Tab>, m: nat)
    requires GroupFor(img, cs, g) && PassOk(PassOf(img, cs, g, file, tabs, m), Shown(img), Filled(img, cs))
    requires TabsOk(ScanFor(img, cs, g), tabs) && Mcus(ScanFor(img, cs, g), McusOf(img, cs, g.Header()))
    ensures var p := PassOf(img, cs, g, file, tabs, m);
      EndOf(p, Filled(img, cs)) ==
        g.Pos() + |ScanBytes(tabs, Segments(ScanFor(img, cs, g), McusOf(img, cs, g.Header())))| + 2
  {
    hide GroupFor, Order, ScanReady, Filled, FrameFor, GeometryOf, TabsOk, ScanBytes, Segments, Coverage, NoBlockTwice,
         ParamsOk, Mcus, Fits, Job.Coded;
    GroupFacts(img, cs, g);
    OrderMcus(img, CurOf(g), cs);
  }

  lemma PassGives(img: Image, cs: Frame, g: Group, file: seq<nat>, tabs: seq<Tab>, m: nat,
                  levels: ScanScripts.Levels, f: Frame)
    requires GroupFor(img, cs, g) && Decodable(img, CurOf(g), ScanFor(img, cs, g), tabs, file, f)
    requires PassOk(PassOf(img, cs, g, file, tabs, m), Shown(img), Filled(img, cs))
    requires Knows(levels, Shown(img), Filled(img, cs), f) && ScanScripts.Continues(levels, InfoIn(g.Header()))
    requires ScanOf(PassOf(img, cs, g, file, tabs, m)) == ScanFor(img, cs, g)
    requires Decoded(img, CurOf(g), ScanFor(img, cs, g), tabs, file, g.Pos(), f).Some?
    ensures Knows(ScanScripts.Mark(levels, InfoIn(g.Header())), Shown(img), Filled(img, cs),
      Scatter(Order(img, CurOf(g)), Decoded(img, CurOf(g), ScanFor(img, cs, g), tabs, file, g.Pos(), f).value.outs, f))
  {
    hide GroupFor, Order, ScanReady, Bytes, Filled, FrameFor, GeometryOf, TabsOk, Knows, PassOk, ScanScripts.Continues,
         ScanScripts.Mark, AllCoefs, DecodeAll, Decodable, Scatter, Collect, Fits;
    GroupFacts(img, cs, g);
    StartFacts(img, CurOf(g), ScanFor(img, cs, g), tabs, file, f);
    PassDecodes(PassOf(img, cs, g, file, tabs, m), levels, Shown(img), Filled(img, cs), f);
  }

  lemma DecodedShort(img: Image, cur: seq<nat>, scan: Scan, tabs: seq<Tab>, data: seq<nat>, pos: nat, f: Frame)
    requires img.Ok() && Decodable(img, cur, scan, tabs, data, f) && Decoded(img, cur, scan, tabs, data, pos, f).Some?
    ensures var g := Scatter(Order(img, cur), Decoded(img, cur, scan, tabs, data, pos, f).value.outs, f);
      FrameFor(img, g) && AllCoefs(g)
  {
    hide ScanReady, Order, TabsOk, Bytes, FrameFor, GeometryOf, AllCoefs, DecodeAll, Scatter, Collect, Fits, Shorts;
    StartFacts(img, cur, scan, tabs, data, f);
    OutsShort(scan, data, |data|, tabs, StartPass(scan, pos), Collect(Order(img, cur), f));
    var so := Decoded(img, cur, scan, tabs, data, pos, f).value;
    ScatterShort(Order(img, cur), so.outs, f);
    ScatterFrame(img, Scatter(Order(img, cur), so.outs, f), f);
  }

  lemma GroupStart(img: Image, cs: Frame, g: Group, file: seq<nat>, tabs: seq<Tab>, f: Frame)
    requires GroupFor(img, cs, g) && Bytes(file) && Joined(ScanFor(img, cs, g), g.tabs, tabs) && img.Ok()
    requires FrameFor(img, f) && AllCoefs(f)
    ensures Decodable(img, CurOf(g), ScanFor(img, cs, g), tabs, file, f)
  {
    hide GroupFor, ScanReady, Joined, Bytes, FrameFor, TabsOk, AllCoefs, GeometryOf, Data;
    GroupFacts(img, cs, g);
    DataServes(img, cs, g, tabs);
  }

  // ---- From group to group ----

  /** A group starts with the marker of its first segment. */
  lemma {:induction false} FirstBytes(segs: seq<S.Segment>, s: S.Fields)
    requires s.Ok() && S.AllOk(segs, s) && segs != []
    ensures 0 < S.Code(segs[0]) < 0xFF && [0xFF, S.Code(segs[0])] <= S.AllBytes(segs)
  {
    hide S.AllBytes, S.ApplyAll, S.SegmentOk, S.Payload;
    S.SegmentAt(segs, 0, s);
    assert segs[..0] == [];
    R.NoSegments(s);
    R.CodeKnown(segs[0], S.ApplyAll([], s));
  }

  /** The marker behind the data of group i. */
  function MarkerBehind(gs: seq<Group>, i: nat): nat
    requires i < |gs|
  {
    if i + 1 < |gs| && gs[i + 1].segs != [] then S.Code(gs[i + 1].segs[0]) else S.M_EOI
  }

  lemma BehindGroup(img: Image, cs: Frame, script: seq<ScanScripts.ScanInfo>, gs: seq<Group>, file: seq<nat>,
                    start: nat,
                    held: S.Fields, i: nat)
    requires FileFor(img, cs, script, gs, file, start, held) && i < |gs|
    ensures GroupFor(img, cs, gs[i]) && Lies(img, cs, gs[i], file)
      && MarkerAt(img, cs, gs[i], file, MarkerBehind(gs, i))
  {
    hide GroupFor, Lies, Scans, ScanScripts.ScriptAccepted, Bytes, DataEnd, Group.Ok, AllLie, Follow, S.Code;
    GroupLies(img, cs, gs, file, i);
    LiesInside(img, cs, gs[i], file);
    if i + 1 < |gs| {
      NextGroup(img, cs, gs, start, held, i);
      GroupLies(img, cs, gs, file, i + 1);
      LiesInside(img, cs, gs[i + 1], file);
    } else {
      EndMarker(file, DataEnd(img, cs, gs[i]));
    }
  }

  lemma EndMarker(file: seq<nat>, e: nat)
    requires e <= |file| && file[e..] == [0xFF, S.M_EOI]
    ensures e + 2 == |file| && file[e] == 0xFF && file[e + 1] == S.M_EOI
  {
    assert file[e..][0] == file[e] && file[e..][1] == file[e + 1];
  }

  lemma GroupLies(img: Image, cs: Frame, gs: seq<Group>, file: seq<nat>, i: nat)
    requires AllLie(img, cs, gs, file) && i < |gs|
    ensures GroupFor(img, cs, gs[i]) && Lies(img, cs, gs[i], file)
  {
    hide GroupFor, Lies;
  }

  lemma NextGroup(img: Image, cs: Frame, gs: seq<Group>, start: nat, held: S.Fields, i: nat)
    requires Follow(img, cs, gs, start, held) && i + 1 < |gs|
    ensures GroupFor(img, cs, gs[i]) && GroupFor(img, cs, gs[i + 1])
    ensures gs[i + 1].start == DataEnd(img, cs, gs[i]) && gs[i + 1].before == gs[i].After()
  {
    hide GroupFor, DataEnd, Group.Ok;
    assert GroupFor(img, cs, gs[i + 1]);
  }

  lemma LiesInside(img: Image, cs: Frame, g: Group, file: seq<nat>)
    requires GroupFor(img, cs, g) && Lies(img, cs, g, file)
    ensures g.Ok() && g.segs != [] && 0 < S.Code(g.segs[0]) < 0xFF && DataEnd(img, cs, g) <= |file|
    ensures g.start + 2 <= |file| && file[g.start] == 0xFF && file[g.start + 1] == S.Code(g.segs[0])
  {
    hide HeaderOk, AllFit, Tabled, Mcus, S.SegmentOk, S.AllBytes, ScanBytes, Data;
    FirstBytes(g.segs, g.before);
    var b := S.AllBytes(g.segs);
    assert file[g.start..g.Pos()][0] == b[0] && file[g.start..g.Pos()][1] == b[1];
  }

  /** What the marker reader needs to know of a group. */
  lemma GroupExpected(img: Image, cs: Frame, g: Group, file: seq<nat>)
    requires GroupFor(img, cs, g) && Lies(img, cs, g, file)
    ensures g.Ok() && R.Expected(file, |file|, g.segs, g.before, g.start)
  {
    hide HeaderOk, AllFit, Tabled, Mcus, S.SegmentOk, S.AllBytes, Data, S.ApplyAll;
  }

  // ---- The reader ----

  /** The decoder has got as far as the scan of the group continues. */
  ghost predicate Due(img: Image, cs: Frame, g: Group, levels: ScanScripts.Levels, f: Frame)
    requires GroupFor(img, cs, g) && img.Ok() && FrameFor(img, cs)
  {
    Got(img, cs, levels, f) && ScanScripts.Continues(levels, InfoIn(g.Header()))
  }

  /** The decoder goes through the data of the group to the marker m. */
  ghost predicate Landing(img: Image, cs: Frame, g: Group, file: seq<nat>, tabs: seq<Tab>, m: nat,
                          levels: ScanScripts.Levels, f: Frame)
    requires GroupFor(img, cs, g) && img.Ok() && FrameFor(img, cs)
    requires Decodable(img, CurOf(g), ScanFor(img, cs, g), tabs, file, f)
  {
    var r := Decoded(img, CurOf(g), ScanFor(img, cs, g), tabs, file, g.Pos(), f);
    && r.Some? && r.value.dec.rd.marker in {0, m}
    && r.value.dec.rd.pos == DataEnd(img, cs, g) + (if r.value.dec.rd.marker == 0 then 0 else 2)
    && Got(img, cs, ScanScripts.Mark(levels, InfoIn(g.Header())), Scatter(Order(img, CurOf(g)), r.value.outs, f))
  }

  /** The decoder on the data of a group, with the tables it has derived. */
  lemma GroupRead(img: Image, cs: Frame, g: Group, file: seq<nat>, tabs: seq<Tab>, m: nat, levels: ScanScripts.Levels,
                  f: Frame)
    requires GroupFor(img, cs, g) && Lies(img, cs, g, file) && Bytes(file) && MarkerAt(img, cs, g, file, m)
    requires img.Ok() && FrameFor(img, cs) && Due(img, cs, g, levels, f) && |g.tabs| == |tabs| == SLOTS
    requires forall t: nat :: UsesTable(ScanFor(img, cs, g), t) ==> Derived(g.tabs, tabs, t)
    ensures Decodable(img, CurOf(g), ScanFor(img, cs, g), tabs, file, f)
    ensures Landing(img, cs, g, file, tabs, m, levels, f)
  {
    hide GroupFor, Lies, Got, ScanScripts.Continues, ScanScripts.Mark, Bytes, Data, Decodable, Decoded, FrameFor,
         Joined, Order, UsesTable, Derived, SameDecoder, Scatter;
    GroupFacts(img, cs, g);
    var scan := ScanFor(img, cs, g);
    var joined := Join(g.tabs, tabs);
    JoinsUp(scan, g.tabs, tabs);
    GroupDecodes(img, cs, g, file, joined, m, levels, f);
    SameOutcome(img, CurOf(g), scan, tabs, joined, file, g.Pos(), f);
  }

  /** start_pass: the scan of the header that has been read, and its tables. */
  method StartScan(image: Image, fields: S.Fields, ghost cs: Frame, ghost g: Group)
    returns (scan: Scan, tabs: seq<Tab>)
    requires GroupFor(image, cs, g) && fields == g.After()
    ensures scan == ScanFor(image, cs, g) && |g.tabs| == |tabs| == SLOTS
    ensures forall t: nat :: UsesTable(scan, t) ==> Derived(g.tabs, tabs, t)
  {
    hide GroupFor, HeaderOk, Tabled, AllFit, UsesTable, Derived, Usable, Mcus, Data;
    GroupFacts(image, cs, g);
    scan := ScanIn(image, fields.scan.value, fields.restart_interval);
    TablesAnnounced(scan, McusOf(image, cs, g.Header()), fields, g.tabs);
    tabs := DeriveTables(fields, scan, g.tabs);
  }

  /** consume_data on the data of a group. */
  method ConsumeGroup(image: Image, cur: seq<nat>, whole: Arrays, scan: Scan, tabs: seq<Tab>, data: seq<nat>, pos: nat,
                      ghost cs: Frame, ghost g: Group, ghost m: nat, ghost levels: ScanScripts.Levels)
    returns (next: nat, marker: nat)
    requires GroupFor(image, cs, g) && image.Ok() && FrameFor(image, cs) && ArraysFor(image, whole)
    requires cur == CurOf(g) && scan == ScanFor(image, cs, g) && pos == g.Pos()
    requires Decodable(image, cur, scan, tabs, data, Contents(image, whole))
    requires Landing(image, cs, g, data, tabs, m, levels, Contents(image, whole))
    modifies AllBlocks(whole)
    ensures Got(image, cs, ScanScripts.Mark(levels, InfoIn(g.Header())), Contents(image, whole))
    ensures marker in {0, m} && next == DataEnd(image, cs, g) + if marker == 0 then 0 else 2
  {
    hide GroupFor, Got, ScanScripts.Mark, ArraysFor, Contents, AllBlocks, Decodable, Decoded, Image.Ok, FrameFor,
         Scatter, Order, CurOf, InfoIn, ScanFor, DataEnd;
    next, marker := ConsumeScan(image, cur, whole, scan, tabs, data, pos, Contents(image, whole));
  }

  /** The data of the scan whose header has been read: start_pass, then consume_data. */
  method ReadData(fields: S.Fields, image: Image, whole: Arrays, file: seq<nat>, pos: nat, ghost cs: Frame,
                  ghost g: Group, ghost m: nat, ghost levels: ScanScripts.Levels)
    returns (next: nat, marker: nat)
    requires GroupFor(image, cs, g) && Lies(image, cs, g, file) && MarkerAt(image, cs, g, file, m) && Bytes(file)
    requires fields == g.After() && pos == g.Pos()
    requires image.Ok() && FrameFor(image, cs) && ArraysFor(image, whole)
    requires Due(image, cs, g, levels, Contents(image, whole))
    modifies AllBlocks(whole)
    ensures Got(image, cs, ScanScripts.Mark(levels, InfoIn(g.Header())), Contents(image, whole))
    ensures marker in {0, m} && next == DataEnd(image, cs, g) + if marker == 0 then 0 else 2
  {
    hide GroupFor, Lies, MarkerAt, Got, Due, ScanScripts.Mark, Bytes, ArraysFor, Contents, Decodable, Landing, Image.Ok,
         FrameFor, UsesTable, Derived, CompsIn, InfoIn, ScanFor, DataEnd, HeaderOk, Tabled, AllFit, Mcus, Data;
    GroupFacts(image, cs, g);
    var scan, tabs := StartScan(image, fields, cs, g);
    GroupRead(image, cs, g, file, tabs, m, levels, Contents(image, whole));
    next, marker := ConsumeGroup(image, CompsIn(InfoIn(fields.scan.value)), whole, scan, tabs, file, pos, cs, g, m,
      levels);
  }

  /** The decoder's tables with the encoder's codes. */
  ghost function Join(enc: seq<Tab>, tabs: seq<Tab>): (joined: seq<Tab>)
    requires |enc| == |tabs|
    ensures |joined| == |tabs|
  {
    seq(|tabs|, t requires 0 <= t < |tabs| => Tab(tabs[t].h, enc[t].c, tabs[t].d))
  }

  lemma JoinsUp(scan: Scan, enc: seq<Tab>, tabs: seq<Tab>)
    requires scan.Ok() && |enc| == |tabs| == SLOTS && forall t: nat :: UsesTable(scan, t) ==> Derived(enc, tabs, t)
    ensures Joined(scan, enc, Join(enc, tabs)) && SameDecoder(tabs, Join(enc, tabs))
  {
    hide UsesTable, TableOk, Sent, W.HuffOk;
    forall t: nat | UsesTable(scan, t) ensures Derived(enc, tabs, t) {}
  }

  lemma TablesAnnounced(scan: Scan, mcus: seq<seq<Block>>, s: S.Fields, enc: seq<Tab>)
    requires scan.Ok() && Mcus(scan, mcus) && s.Ok() && Tabled(scan, enc, s, mcus)
    ensures |enc| == SLOTS && forall t: nat :: UsesTable(scan, t) ==> Usable(s, enc, t)
  {
    hide UsesTable, SlotOk, W.HuffOk, DecoderAccepts, Segments;
  }

  lemma SameOutcome(img: Image, cur: seq<nat>, scan: Scan, tabs: seq<Tab>, joined: seq<Tab>, data: seq<nat>, pos: nat,
                    f: Frame)
    requires Decodable(img, cur, scan, joined, data, f) && SameDecoder(tabs, joined)
    ensures Decodable(img, cur, scan, tabs, data, f)
    ensures Decoded(img, cur, scan, tabs, data, pos, f) == Decoded(img, cur, scan, joined, data, pos, f)
  {
    hide ScanReady, Order, TabsOk, Bytes, FrameFor, GeometryOf, AllCoefs, DecodeAll, Collect, SameDecoder;
    SameOk(scan, tabs, joined);
    StartFacts(img, cur, scan, tabs, data, f);
    SameDecoding(scan, data, |data|, tabs, joined, StartPass(scan, pos), Collect(Order(img, cur), f));
  }

  // ---- The coefficient arrays ----

  /** The virtual array of one component, pre-zeroed. */
  method NewComponent(n: nat) returns (blocks: seq<array<int>>)
    ensures |blocks| == n
    ensures forall i :: 0 <= i < n ==> fresh(blocks[i]) && Zeroed(blocks[i])
    ensures forall i, j :: 0 <= i < j < n ==> blocks[i] != blocks[j]
  {
    blocks := [];
    for k := 0 to n
      invariant |blocks| == k
      invariant forall i :: 0 <= i < k ==> fresh(blocks[i]) && Zeroed(blocks[i])
      invariant forall i, j :: 0 <= i < j < k ==> blocks[i] != blocks[j]
    {
      var block := new int[64](_ => 0);
      blocks := blocks + [block];
    }
  }

  ghost predicate Zeroed(a: array<int>)
    reads a
  {
    a.Length == 64 && forall k :: 0 <= k < 64 ==> a[k] == 0
  }

  /** realize_virt_arrays */
  method NewArrays(image: Image) returns (whole: Arrays)
    requires image.Ok()
    ensures ArraysFor(image, whole) && fresh(AllBlocks(whole)) && AllZero(image, whole)
  {
    hide Image.Ok, Image.Down, Image.Across;
    whole := [];
    for k := 0 to |image.comps|
      invariant |whole| == k
      invariant forall c :: 0 <= c < k ==> |whole[c]| == image.Down(c) * image.Across(c)
      invariant forall c, i :: 0 <= c < k && 0 <= i < |whole[c]| ==> fresh(whole[c][i]) && Zeroed(whole[c][i])
      invariant forall c, i, c', i' :: 0 <= c < k && 0 <= i < |whole[c]| && 0 <= c' < k && 0 <= i' < |whole[c']| ==>
        whole[c][i] == whole[c'][i'] ==> c == c' && i == i'
    {
      var blocks := NewComponent(image.Down(k) * image.Across(k));
      whole := whole + [blocks];
    }
  }

  ghost predicate AllZero(image: Image, whole: Arrays)
    requires image.Ok() && ArraysFor(image, whole)
    reads AllBlocks(whole)
  {
    forall c, i :: 0 <= c < |whole| && 0 <= i < |whole[c]| ==> Zeroed(whole[c][i])
  }

  lemma ZeroContents(image: Image, whole: Arrays, cs: Frame)
    requires image.Ok() && ArraysFor(image, whole) && AllZero(image, whole) && FrameFor(image, cs)
    ensures Contents(image, whole) == Zeros(cs)
  {
    hide Image.Ok, Image.Down, Image.Across, Contents, Zigzag;
    forall p | InArrays(whole, p) ensures In(p, Zeros(cs)) && At(Zeros(cs), p) == Zigzag(whole[p.comp][p.idx][..]) {
      assert Zeroed(whole[p.comp][p.idx]);
      ZigzagZero(whole[p.comp][p.idx][..]);
    }
    ContentsAre(image, whole, Zeros(cs));
  }

  lemma ZigzagZero(s: seq<int>)
    requires |s| == 64 && forall k :: 0 <= k < 64 ==> s[k] == 0
    ensures Zigzag(s) == ZeroBlock()
  {}

  // ---- The whole file ----

  ghost function LevelsAt(img: Image, script: seq<ScanScripts.ScanInfo>, i: nat): ScanScripts.Levels
    requires i <= |script|
  {
    ScanScripts.LevelsAfter(script[..i], ScanScripts.Unsent(|img.comps|))
  }

  /** Every coefficient of the image is there down to the last bit that the script sends of it; if the script sends
      everything, the blocks of the image are there. */
  ghost predicate Recovered(img: Image, cs: Frame, script: seq<ScanScripts.ScanInfo>, f: Frame)
    requires img.Ok() && FrameFor(img, cs)
  {
    var levels := ScanScripts.LevelsAfter(script, ScanScripts.Unsent(|img.comps|));
    && FrameFor(img, f) && |levels| == |img.comps|
    && (forall q, k :: q in Shown(img) && In(q, cs) && In(q, f) && 0 <= k < 64 && |levels[q.comp]| == 64 ==>
          At(f, q)[k] == Remaining(At(cs, q)[k], k, levels[q.comp][k]))
    && (levels == AllSent(|img.comps|) ==> forall q :: q in Shown(img) && In(q, cs) && In(q, f) ==>
       At(f, q) == At(cs, q))
  }

  lemma GotAll(img: Image, cs: Frame, script: seq<ScanScripts.ScanInfo>, f: Frame)
    requires img.Ok() && FrameFor(img, cs) && Got(img, cs, LevelsAt(img, script, |script|), f)
    ensures Recovered(img, cs, script, f)
  {
    hide Image.Ok, Image.Down, Image.Across, Filled, Shown, ScanScripts.LevelsAfter, Level, AllCoefs;
    assert script[..|script|] == script;
    var levels := ScanScripts.LevelsAfter(script, ScanScripts.Unsent(|img.comps|));
    forall q | q in Shown(img) && In(q, cs) && In(q, f)
      ensures In(q, Filled(img, cs)) && At(Filled(img, cs), q) == At(cs, q)
      ensures Known(levels[q.comp], true, At(cs, q), At(f, q))
    {
      FilledReal(img, cs, q);
    }
    if levels == AllSent(|img.comps|) {
      forall q | q in Shown(img) && In(q, cs) && In(q, f) ensures At(f, q) == At(cs, q) {
        forall k | 0 <= k < 64 ensures At(f, q)[k] == At(cs, q)[k] { LevelZero(At(cs, q)[k], k); }
      }
    }
  }

  lemma GotNothing(img: Image, cs: Frame, script: seq<ScanScripts.ScanInfo>)
    requires img.Ok() && FrameFor(img, cs)
    ensures Got(img, cs, LevelsAt(img, script, 0), Zeros(cs))
  {
    hide Image.Ok, Image.Down, Image.Across, Filled, Shown, Knows;
    SameZeros(img, cs);
    KnowsNothing(Shown(img), Filled(img, cs));
  }

  /** Group i is due after those before it. */
  lemma GroupDue(img: Image, cs: Frame, script: seq<ScanScripts.ScanInfo>, gs: seq<Group>, file: seq<nat>, start: nat,
                 held: S.Fields, i: nat, f: Frame)
    requires FileFor(img, cs, script, gs, file, start, held) && i < |gs| && img.Ok() && FrameFor(img, cs)
    requires i <= |script| && Got(img, cs, LevelsAt(img, script, i), f)
    ensures |gs| == |script| && GroupFor(img, cs, gs[i]) && Due(img, cs, gs[i], LevelsAt(img, script, i), f)
    ensures LevelsAt(img, script, i + 1) == ScanScripts.Mark(LevelsAt(img, script, i), InfoIn(gs[i].Header()))
  {
    hide GroupFor, Follow, AllLie, Bytes, ScanScripts.ScriptAccepted, Steps, ScanScripts.Continues, ScanScripts.Mark,
         ScanScripts.LevelsAfter, Group.Ok, Knows, FrameFor, AllCoefs, DataEnd;
    GroupLies(img, cs, gs, file, i);
    AcceptedSteps(script, |img.comps|);
    StepFollows(script, ScanScripts.Unsent(|img.comps|), i);
  }

  /** The reader has read the headers of group i, or the end of the file. */
  ghost predicate AtData(rd: R.Reader, img: Image, cs: Frame, gs: seq<Group>, i: nat, r: R.ReadResult)
    reads rd
  {
    && rd.Valid() && rd.arrived == |rd.data| && 0 < |gs| && i <= |gs|
    && (if i < |gs| then
          && r == R.ReachedSOS && gs[i].Ok() && rd.State() == gs[i].After()
          && rd.unread_marker == 0 && rd.next_input_byte == gs[i].Pos()
        else r == R.ReachedEOI && gs[i - 1].Ok() && rd.State() == gs[i - 1].After())
  }

  /** read_markers at the start of group i. */
  method ReadHeaders(rd: R.Reader, ghost img: Image, ghost cs: Frame, ghost gs: seq<Group>, ghost i: nat)
    returns (r: R.ReadResult)
    requires rd.Valid() && rd.arrived == |rd.data| && i < |gs|
    requires GroupFor(img, cs, gs[i]) && Lies(img, cs, gs[i], rd.data)
    requires rd.State() == gs[i].before && rd.Here() == gs[i].start
    requires rd.unread_marker != 0 ==> gs[i].segs != [] && rd.unread_marker == S.Code(gs[i].segs[0])
    modifies rd
    ensures AtData(rd, img, cs, gs, i, r)
  {
    hide GroupFor, Lies, R.Reader.Announced, S.AllBytes, S.ApplyAll;
    GroupNext(rd, img, cs, gs[i]);
    r := rd.ReadMarkers(gs[i].segs);
  }

  lemma GroupNext(rd: R.Reader, img: Image, cs: Frame, g: Group)
    requires rd.Valid() && rd.arrived == |rd.data| && GroupFor(img, cs, g) && Lies(img, cs, g, rd.data)
    requires rd.State() == g.before && rd.Here() == g.start
    requires rd.unread_marker != 0 ==> g.segs != [] && rd.unread_marker == S.Code(g.segs[0])
    ensures g.Ok() && rd.Announced(g.segs)
  {
    hide GroupFor, Lies, R.Expected, S.AllBytes, S.ApplyAll;
    GroupExpected(img, cs, g, rd.data);
  }

  /** What stays true from scan to scan. */
  ghost predicate Reading(rd: R.Reader, img: Image, cs: Frame, script: seq<ScanScripts.ScanInfo>, gs: seq<Group>,
                          start: nat, held: S.Fields)
    reads rd
  {
    && rd.Valid() && rd.arrived == |rd.data| && img.Ok() && FrameFor(img, cs) && |gs| == |script|
    && FileFor(img, cs, script, gs, rd.data, start, held)
  }

  /** After a scan: the headers of the next one, or the end. */
  method ReadOn(rd: R.Reader, next: nat, marker: nat, ghost img: Image, ghost cs: Frame,
                ghost script: seq<ScanScripts.ScanInfo>, ghost gs: seq<Group>, ghost start: nat, ghost held: S.Fields,
                ghost i: nat)
    returns (r: R.ReadResult)
    requires Reading(rd, img, cs, script, gs, start, held) && i < |gs| && GroupFor(img, cs, gs[i])
    requires rd.State() == gs[i].After()
    requires marker in {0, MarkerBehind(gs, i)} && next == DataEnd(img, cs, gs[i]) + if marker == 0 then 0 else 2
    modifies rd
    ensures AtData(rd, img, cs, gs, i + 1, r)
  {
    hide GroupFor, Lies, DataEnd, R.Reader.Announced, S.AllBytes, S.ApplyAll, Scans, Follow, AllLie, Bytes, S.Code,
         Group.Ok,
         ScanScripts.ScriptAccepted, FrameFor, Image.Ok;
    BehindGroup(img, cs, script, gs, rd.data, start, held, i);
    LiesInside(img, cs, gs[i], rd.data);
    rd.next_input_byte, rd.unread_marker := next, marker;
    ghost var segs := if i + 1 < |gs| then gs[i + 1].segs else [];
    if i + 1 < |gs| {
      NextGroup(img, cs, gs, start, held, i);
      GroupLies(img, cs, gs, rd.data, i + 1);
      LiesInside(img, cs, gs[i + 1], rd.data);
      GroupNext(rd, img, cs, gs[i + 1]);
    } else {
      assert rd.AtEnd();
    }
    r := rd.ReadMarkers(segs);
  }

  /** One scan: its data, then the headers of the next one. */
  method ReadScan(rd: R.Reader, image: Image, whole: Arrays, ghost cs: Frame, ghost script: seq<ScanScripts.ScanInfo>,
                  ghost gs: seq<Group>, ghost start: nat, ghost held: S.Fields, ghost i: nat)
    returns (r: R.ReadResult)
    requires Reading(rd, image, cs, script, gs, start, held) && i < |gs| && AtData(rd, image, cs, gs, i, R.ReachedSOS)
    requires image.Ok() && FrameFor(image, cs) && ArraysFor(image, whole) && |gs| == |script|
    requires Got(image, cs, LevelsAt(image, script, i), Contents(image, whole))
    modifies rd, AllBlocks(whole)
    ensures Reading(rd, image, cs, script, gs, start, held) && AtData(rd, image, cs, gs, i + 1, r)
    ensures Got(image, cs, LevelsAt(image, script, i + 1), Contents(image, whole))
  {
    hide GroupFor, Lies, MarkerAt, Got, Due, Bytes, ArraysFor, Contents, FrameFor, DataEnd, Scans, Follow, AllLie,
         MarkerBehind, LevelsAt, ScanScripts.ScriptAccepted, Image.Ok, Group.Ok;
    GroupDue(image, cs, script, gs, rd.data, start, held, i, Contents(image, whole));
    BehindGroup(image, cs, script, gs, rd.data, start, held, i);
    var fields := S.Fields(rd.quant, rd.dc, rd.ac, rd.restart_interval, rd.frame, rd.scan);
    var next, marker := ReadData(fields, image, whole, rd.data, rd.next_input_byte, cs, gs[i], MarkerBehind(gs, i),
      LevelsAt(image, script, i));
    ghost var f := Contents(image, whole);
    r := ReadOn(rd, next, marker, image, cs, script, gs, start, held, i);
    assert Contents(image, whole) == f;
  }

  lemma FileStarts(img: Image, cs: Frame, script: seq<ScanScripts.ScanInfo>, gs: seq<Group>, file: seq<nat>, start: nat,
                   held: S.Fields)
    requires FileFor(img, cs, script, gs, file, start, held)
    ensures 0 < |gs| == |script| && GroupFor(img, cs, gs[0]) && Lies(img, cs, gs[0], file)
    ensures gs[0].start == start && gs[0].before == held
    ensures gs[0].Ok() && gs[0].After().frame.Some? && ImageIn(gs[0].After().frame.value) == img
  {
    hide Lies, Bytes, HeaderOk, Tabled, AllFit, Mcus, FrameFor, Image.Ok, ScanScripts.ProgressiveScript, Scans,
         ScanScripts.SequentialScript, DataEnd, S.AllOk, S.ApplyAll;
    ScriptNotEmpty(img, cs, script, gs);
  }

  lemma ScriptNotEmpty(img: Image, cs: Frame, script: seq<ScanScripts.ScanInfo>, gs: seq<Group>)
    requires Scans(img, cs, gs, script)
    ensures |gs| == |script|
  {}

  /** Reading a whole file, all of which has arrived: the reader ends up with everything that the headers have said,
      and the arrays that it has made for the image hold every coefficient as the script sends it. */
  method ReadFile(rd: R.Reader, ghost img: Image, ghost cs: Frame, ghost script: seq<ScanScripts.ScanInfo>,
                  ghost gs: seq<Group>)
    returns (image: Image, whole: Arrays)
    requires rd.Valid() && rd.arrived == |rd.data| && rd.unread_marker == 0 && img.Ok() && FrameFor(img, cs)
    requires FileFor(img, cs, script, gs, rd.data, rd.next_input_byte, rd.State())
    modifies rd
    ensures image == img && ArraysFor(img, whole) && fresh(AllBlocks(whole))
    ensures Recovered(img, cs, script, Contents(img, whole))
    ensures gs != [] && gs[|gs| - 1].Ok() && rd.State() == gs[|gs| - 1].After()
  {
    hide GroupFor, Lies, DataEnd, Scans, Follow, AllLie, Bytes, Group.Ok, ScanScripts.ScriptAccepted, FrameFor,
         Image.Ok, ArraysFor, Contents, Got, Recovered, FileFor, LevelsAt, AllZero, S.ApplyAll, S.AllBytes;
    ghost var start, held := rd.next_input_byte, rd.State();
    FileStarts(img, cs, script, gs, rd.data, start, held);
    var r := ReadHeaders(rd, img, cs, gs, 0);
    image := ImageIn(rd.frame.value);
    whole := NewArrays(image);
    ZeroContents(img, whole, cs);
    GotNothing(img, cs, script);
    ghost var i := 0;
    while r == R.ReachedSOS
      invariant i <= |gs| == |script| && AtData(rd, img, cs, gs, i, r) && Reading(rd, img, cs, script, gs, start, held)
      invariant fresh(AllBlocks(whole)) && Got(img, cs, LevelsAt(img, script, i), Contents(img, whole))
      decreases |gs| - i
    {
      r := ReadScan(rd, image, whole, cs, script, gs, start, held, i);
      i := i + 1;
    }
    GotAll(img, cs, script, Contents(img, whole));
  }
}
