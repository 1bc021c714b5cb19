/** A whole image: encoding every scan of a script, sequential or progressive, and decoding the scans,
    in order, into zeroed blocks. */
module ScriptRoundTrip {
  import Bits
  import opened Coefficients
  import opened Frames
  import opened HuffmanTables
  import opened BitReader
  import opened Coding
  import opened Decoding
  import opened TokenRoundTrip
  import opened McuDecoding
  import opened ScanRoundTrip
  import opened ScanScripts

  /** One scan as it is sent: parameters, MCU layout, tables, restart interval, and where its bytes are. */
  datatype Pass = Pass(info: ScanInfo, layout: Layout, members: seq<nat>, dcTbl: seq<nat>, acTbl: seq<nat>, ri: nat,
                       tabs: seq<Tab>, data: seq<nat>, lim: nat, pos: nat, m: nat)

  /** The parameters of one scan, progressive or sequential. */
  ghost predicate ParamsOk(s: ScanInfo) {
    RangesOk(s) || FullBand(s)
  }

  function ModeOf(s: ScanInfo): Mode {
    if FullBand(s) then Sequential
    else if s.Ss == 0 then (if s.Ah == 0 then DcFirst else DcRefine) else (if s.Ah == 0 then AcFirst else AcRefine)
  }

  function ScanOf(p: Pass): Scan
    requires ParamsOk(p.info)
  {
    Scan(ModeOf(p.info), p.info.Ss, p.info.Se, p.info.Al, p.ri, p.members, |p.info.component_index|, p.dcTbl, p.acTbl)
  }

  ghost function JobOf(p: Pass, cs: Frame, bs: Frame): Job
    requires ParamsOk(p.info) && Fits(p.layout, cs) && Fits(p.layout, bs)
  {
    Job(ScanOf(p), p.tabs, Collect(p.layout, cs), Collect(p.layout, bs), p.data, p.lim, p.pos, p.m)
  }

  /** A scan visits the real blocks (shown) of its components, and possibly padding at the edges if it is
      interleaved; a scan of AC coefficients keeps to the real blocks. */
  ghost predicate Coverage(p: Pass, shown: iset<Pos>, cs: Frame) {
    forall q :: In(q, cs) ==>
      && (Visits(p.layout, q) ==> q.comp in p.info.component_index && (p.info.Ss != 0 ==> q in shown))
      && (q in shown && q.comp in p.info.component_index ==> Visits(p.layout, q))
  }

  /** The scan was encoded from the coefficients cs without error. */
  ghost predicate PassOk(p: Pass, shown: iset<Pos>, cs: Frame) {
    && ParamsOk(p.info) && Fits(p.layout, cs) && NoBlockTwice(p.layout) && Coverage(p, shown, cs)
    && JobOf(p, cs, cs).Coded()
  }

  /** Can the decoder start on this scan? */
  ghost predicate Startable(p: Pass, f: Frame) {
    && ParamsOk(p.info) && ScanOf(p).Ok() && TabsOk(ScanOf(p), p.tabs) && Bytes(p.data) && p.lim <= |p.data|
    && Fits(p.layout, f) && forall i :: 0 <= i < |p.layout| ==> |p.layout[i]| == |p.members|
  }

  /** Decoding one scan into the frame. */
  ghost function DecodePass(p: Pass, f: Frame): Option<Frame> {
    if !Startable(p, f) then None
    else
      match DecodeAll(ScanOf(p), p.data, p.lim, p.tabs, StartPass(ScanOf(p), p.pos), Collect(p.layout, f))
      case None => None
      case Some(so) => if so.dec.rd.dry then None else Some(Scatter(p.layout, so.outs, f))
  }

  /** Decoding a sequence of scans. */
  ghost function DecodePasses(ps: seq<Pass>, f: Frame): Option<Frame> {
    if ps == [] then Some(f)
    else
      match DecodePasses(ps[..|ps| - 1], f)
      case None => None
      case Some(g) => DecodePass(ps[|ps| - 1], g)
  }

  function Infos(ps: seq<Pass>): (s: seq<ScanInfo>)
    ensures |s| == |ps|
  {
    seq(|ps|, i requires 0 <= i < |ps| => ps[i].info)
  }

  // ---- One block ----

  /** What the decoder holds of a block whose coefficients have got to the given levels. Of padding it need not
      know anything: whichever scans visited it, the bits still to come of its DC value are clear. */
  ghost predicate Known(row: seq<int>, inImage: bool, c: Block, b: Block)
    requires |row| == 64
  {
    && (forall k :: 0 <= k < 64 ==> if row[k] < 0 then b[k] == 0 else inImage ==> b[k] == Level(c[k], k, row[k]))
    && (row[0] >= 0 ==> Level(b[0], 0, row[0]) == b[0] && -32768 <= b[0] < 32768)
  }

  /** A DC refinement scan sends one bit of each block: it could as well have come from a block that differs
      from the decoder's in this bit only. */
  function Agreeing(scan: Scan, c: Block, b: Block): Block {
    if scan.mode == DcRefine then c[0 := b[0] + if Bit(c[0], scan.Al) then Bits.Pow2(scan.Al) else 0] else c
  }

  lemma {:induction false} SarScale(a: int, n: nat, m: nat)
    ensures Sar(Scale(a, n), n + m) == Sar(a, m)
  {
    if n > 0 { SarScale(a, n - 1, m); }
  }

  /** One more bit under a value whose lower bits are clear. */
  lemma {:induction false} BitAdded(b: int, bit: bool, n: nat)
    requires Level(b, 0, n + 1) == b && -32768 <= b < 32768 && n <= 14
    ensures var x := b + if bit then Bits.Pow2(n) else 0;
      && Level(x, 0, n + 1) == b && Level(x, 0, n) == x && (Bit(x, n) <==> bit) && -32768 <= x < 32768
  {
    hide Scale, Sar;
    var h, t := Sar(b, n + 1), if bit then 1 else 0;
    ScaleBit(h, t, n);
    var x := Scale(2 * h + t, n);
    SarScale(2 * h + t, n, 0);
    SarScale(2 * h + t, n, 1);
    SarSteps(2 * h + t);
    if bit { RoomAbove(h, n); }
  }

  lemma {:induction false} SarSteps(y: int)
    ensures Sar(y, 0) == y && Sar(y, 1) == y / 2
  {}

  lemma {:induction false} RoomAbove(h: int, n: nat)
    requires Scale(h, n + 1) < 32768 && n <= 14
    ensures Scale(h, n + 1) + Bits.Pow2(n) < 32768
  {
    ScaleRoom(h, n + 1, 15);
    Bits.Pow2Values();
    assert Bits.Pow2(n + 1) == 2 * Bits.Pow2(n);
  }

  /** Below a power of two, a multiple of a smaller one leaves room for one more. */
  lemma {:induction false} ScaleRoom(h: int, n: nat, m: nat)
    requires n <= m && Scale(h, n) < Bits.Pow2(m)
    ensures Scale(h, n) + Bits.Pow2(n) <= Bits.Pow2(m)
  {
    if n > 0 { ScaleRoom(h, n - 1, m - 1); }
  }

  /** Levels are values whose lower bits are clear. */
  lemma LevelTwice(c: int, n: nat)
    ensures Level(Level(c, 0, n), 0, n) == Level(c, 0, n)
  {
    SarScale(Sar(c, n), n, 0);
  }

  lemma LevelBelow(b: int, n: nat)
    requires Level(b, 0, n + 1) == b
    ensures Level(b, 0, n) == b
  {
    var h := Sar(b, n + 1);
    ScaleTwice(h, n);
    SarScale(2 * h, n, 0);
  }

  lemma LevelOfZero(n: nat)
    ensures Level(0, 0, n) == 0
  {
    ScaleZero(n);
    SarScale(0, n, 0);
  }

  /** The scan has the parameters s. */
  ghost predicate For(scan: Scan, s: ScanInfo) {
    ParamsOk(s) && scan.mode == ModeOf(s) && scan.Ss == s.Ss && scan.Se == s.Se && scan.Al == s.Al
  }

  /** A block that the scan visits is ready for it. */
  lemma BlockReady(scan: Scan, s: ScanInfo, row: seq<int>, inImage: bool, c: Block, b: Block)
    requires For(scan, s) && |row| == 64 && RowOk(row, s) && Known(row, inImage, c, b) && (s.Ss != 0 ==> inImage)
      && Coefs(c)
    ensures Ready(scan, Agreeing(scan, c, b), b) && Coefs(Agreeing(scan, c, b))
  {
    hide Level, Bit, Bits.Pow2;
    assert NextBit(row[s.Ss], s);
    if scan.mode == DcRefine { BitAdded(b[0], Bit(c[0], s.Al), s.Al); }
    forall k | 0 <= k < 64 && scan.InBand(k)
      ensures b[k] == if scan.Refines() then Level(Agreeing(scan, c, b)[k], k, scan.Al + 1) else 0
    {
      assert NextBit(row[k], s);
    }
  }

  /** The block after the scan. */
  lemma BlockSent(scan: Scan, s: ScanInfo, row: seq<int>, inImage: bool, c: Block, b: Block)
    requires For(scan, s) && |row| == 64 && RowOk(row, s) && Known(row, inImage, c, b) && (s.Ss != 0 ==> inImage)
      && Coefs(c)
    ensures Known(MarkRow(row, s), inImage, c, Target(scan, Agreeing(scan, c, b), b))
  {
    hide Level, Bit, Bits.Pow2;
    var t := Target(scan, Agreeing(scan, c, b), b);
    assert NextBit(row[s.Ss], s);
    if s.Ss == 0 { DcSent(scan, s, row, inImage, c, b); }
    forall k | 0 <= k < 64
      ensures if MarkRow(row, s)[k] < 0 then t[k] == 0 else inImage ==> t[k] == Level(c[k], k, MarkRow(row, s)[k])
    {
      if k > 0 { assert t[k] == if scan.InBand(k) then Level(c[k], k, s.Al) else b[k]; }
    }
  }

  lemma DcSent(scan: Scan, s: ScanInfo, row: seq<int>, inImage: bool, c: Block, b: Block)
    requires For(scan, s) && |row| == 64 && NextBit(row[0], s) && Known(row, inImage, c, b) && s.Ss == 0 && Coefs(c)
    ensures var x := Target(scan, Agreeing(scan, c, b), b)[0];
      && x == Level(Agreeing(scan, c, b)[0], 0, s.Al) && Level(x, 0, s.Al) == x && -32768 <= x < 32768
      && (inImage ==> x == Level(c[0], 0, s.Al))
  {
    hide Scale, Sar, Bit, Bits.Pow2, Level;
    if scan.mode == DcRefine {
      BitAdded(b[0], Bit(c[0], s.Al), s.Al);
      DcLevel(c[0], s.Al);
    } else {
      LevelShort(c[0], 0, s.Al);
      LevelTwice(c[0], s.Al);
    }
  }

  /** The DC level grows by the bit that is sent. */
  lemma DcLevel(c: int, n: nat)
    ensures Level(c, 0, n) == Level(c, 0, n + 1) + if Bit(c, n) then Bits.Pow2(n) else 0
  {
    hide Scale, Sar, Bit;
    DcBit(c, n);
    ScaleBit(Sar(c, n + 1), if Bit(c, n) then 1 else 0, n);
  }

  /** A padding block of a component of the scan that the scan does not visit. */
  lemma PaddingSkipped(s: ScanInfo, row: seq<int>, c: Block, b: Block)
    requires ParamsOk(s) && |row| == 64 && RowOk(row, s) && Known(row, false, c, b)
    ensures Known(MarkRow(row, s), false, c, b)
  {
    hide Level;
    if s.Ss == 0 {
      assert NextBit(row[0], s);
      if row[0] < 0 { LevelOfZero(s.Al); } else { LevelBelow(b[0], s.Al); }
    }
  }

  // ---- One scan ----

  /** The coefficients from which the decoder's blocks could have been encoded. */
  ghost function Seen(p: Pass, cs: Frame, f: Frame): (g: Frame)
    requires ParamsOk(p.info) && SameSizes(f, cs)
    ensures SameSizes(g, cs)
  {
    seq(|cs|, c requires 0 <= c < |cs| =>
      seq(|cs[c]|, idx requires 0 <= idx < |cs[c]| => Agreeing(ScanOf(p), cs[c][idx], f[c][idx])))
  }

  /** The decoder's blocks are at the given levels. */
  ghost predicate Knows(levels: Levels, shown: iset<Pos>, cs: Frame, f: Frame) {
    && Shape(levels, |cs|) && SameSizes(f, cs)
    && forall q :: In(q, cs) && In(q, f) ==> Known(levels[q.comp], q in shown, At(cs, q), At(f, q))
  }

  lemma KnowsNothing(shown: iset<Pos>, cs: Frame)
    ensures Knows(Unsent(|cs|), shown, cs, Zeros(cs))
  {}

  /** What is sent of a block of a DC refinement scan. */
  predicate SameBit(scan: Scan, c: Block, d: Block) {
    Sar(c[0], scan.Al) % 2 == Sar(d[0], scan.Al) % 2
  }

  ghost predicate SameBits(scan: Scan, mcus: seq<seq<Block>>, others: seq<seq<Block>>) {
    && |mcus| == |others|
    && forall i :: 0 <= i < |mcus| ==> |mcus[i]| == |others[i]| && forall j :: 0 <= j < |mcus[i]| ==>
      SameBit(scan, mcus[i][j], others[i][j])
  }

  lemma {:induction false} SameToks(scan: Scan, mcu: seq<Block>, other: seq<Block>, i: nat, last: seq<int>)
    requires scan.Ok() && scan.mode == DcRefine && |last| == scan.ncomps
    requires |mcu| == |other| == |scan.members| && i <= |mcu|
    requires forall j :: 0 <= j < |mcu| ==> SameBit(scan, mcu[j], other[j])
    ensures McuToks(scan, mcu, i, last) == McuToks(scan, other, i, last)
  {
    if i > 0 { SameToks(scan, mcu, other, i - 1, last); }
  }

  lemma {:induction false} SameRun(scan: Scan, mcus: seq<seq<Block>>, others: seq<seq<Block>>)
    requires scan.Ok() && scan.mode == DcRefine && Mcus(scan, mcus) && Mcus(scan, others)
    requires SameBits(scan, mcus, others)
    ensures Run(scan, mcus) == Run(scan, others) && AllFit(scan, others)
  {
    hide SameBit, McuToks;
    if mcus != [] {
      var n := |mcus| - 1;
      SameRun(scan, mcus[..n], others[..n]);
      var st := BeginMcu(scan, Run(scan, mcus[..n]));
      SameToks(scan, mcus[n], others[n], |mcus[n]|, st.last);
    }
  }

  lemma AgreeingBit(scan: Scan, s: ScanInfo, row: seq<int>, inImage: bool, c: Block, b: Block)
    requires For(scan, s) && scan.mode == DcRefine && |row| == 64 && RowOk(row, s) && Known(row, inImage, c, b)
    ensures SameBit(scan, c, Agreeing(scan, c, b))
  {
    hide Level, Sar;
    assert NextBit(row[0], s);
    BitAdded(b[0], Bit(c[0], s.Al), s.Al);
  }

  lemma CoverageAt(p: Pass, shown: iset<Pos>, cs: Frame, q: Pos)
    requires Coverage(p, shown, cs) && In(q, cs)
    ensures Visits(p.layout, q) ==> q.comp in p.info.component_index && (p.info.Ss != 0 ==> q in shown)
    ensures q in shown && q.comp in p.info.component_index ==> Visits(p.layout, q)
  {}

  lemma LayoutShape(p: Pass, cs: Frame)
    requires ParamsOk(p.info) && Fits(p.layout, cs) && JobOf(p, cs, cs).Coded()
    ensures ScanOf(p).Ok() && TabsOk(ScanOf(p), p.tabs) && Bytes(p.data) && p.lim <= |p.data|
    ensures forall i :: 0 <= i < |p.layout| ==> |p.layout[i]| == |p.members|
    ensures forall i, j :: 0 <= i < |p.layout| && 0 <= j < |p.layout[i]| ==> Coefs(At(cs, p.layout[i][j]))
  {
    hide AllFit, ClosedBytes, ScanBytes, Segments, TabsOk, Coefs, ParamsOk;
    var mcus := Collect(p.layout, cs);
    forall i | 0 <= i < |p.layout|
      ensures |p.layout[i]| == |p.members| && forall j :: 0 <= j < |p.layout[i]| ==> Coefs(At(cs, p.layout[i][j]))
    {
      assert |mcus[i]| == |ScanOf(p).members|;
      forall j | 0 <= j < |p.layout[i]| ensures Coefs(At(cs, p.layout[i][j])) { assert Coefs(mcus[i][j]); }
    }
  }

  /** One block of the layout, before the scan. */
  lemma PlaceReady(p: Pass, levels: Levels, shown: iset<Pos>, cs: Frame, f: Frame, q: Pos)
    requires Knows(levels, shown, cs, f) && Coverage(p, shown, cs) && ParamsOk(p.info) && Continues(levels, p.info)
    requires In(q, cs) && In(q, f) && Visits(p.layout, q) && Coefs(At(cs, q))
    ensures In(q, Seen(p, cs, f)) && At(Seen(p, cs, f), q) == Agreeing(ScanOf(p), At(cs, q), At(f, q))
    ensures Ready(ScanOf(p), At(Seen(p, cs, f), q), At(f, q)) && Coefs(At(Seen(p, cs, f), q))
    ensures ScanOf(p).mode == DcRefine ==> SameBit(ScanOf(p), At(cs, q), At(Seen(p, cs, f), q))
  {
    hide Known, RowOk, ParamsOk, Agreeing, Coverage, Coefs, Ready, SameBit;
    CoverageAt(p, shown, cs, q);
    var scan, row := ScanOf(p), levels[q.comp];
    BlockReady(scan, p.info, row, q in shown, At(cs, q), At(f, q));
    if scan.mode == DcRefine { AgreeingBit(scan, p.info, row, q in shown, At(cs, q), At(f, q)); }
  }

  lemma PassPaired(p: Pass, levels: Levels, shown: iset<Pos>, cs: Frame, f: Frame)
    requires Knows(levels, shown, cs, f) && PassOk(p, shown, cs) && Continues(levels, p.info)
    ensures Startable(p, f) && Fits(p.layout, Seen(p, cs, f)) && JobOf(p, Seen(p, cs, f), f).Ok()
    ensures JobOf(p, Seen(p, cs, f), f).Segs() == JobOf(p, cs, cs).Segs()
  {
    hide AllFit, ClosedBytes, ScanBytes, Segments, TabsOk, Coefs, ParamsOk, Ready, Knows, Coverage, Continues,
         Job.Coded, SameBit, Agreeing;
    LayoutShape(p, cs);
    KnowsSizes(levels, shown, cs, f);
    var g := Seen(p, cs, f);
    FitsSame(p.layout, cs, f);
    FitsSame(p.layout, cs, g);
    var scan, mcus, bss := ScanOf(p), Collect(p.layout, g), Collect(p.layout, f);
    forall i | 0 <= i < |mcus| ensures AllReady(scan, mcus[i], bss[i]) {
      forall j | 0 <= j < |mcus[i]| ensures Coefs(mcus[i][j]) && Ready(scan, mcus[i][j], bss[i][j]) {
        LayoutReady(p, levels, shown, cs, f, i, j);
      }
    }
    CodedSeen(p, levels, shown, cs, f);
  }

  lemma KnowsSizes(levels: Levels, shown: iset<Pos>, cs: Frame, f: Frame)
    requires Knows(levels, shown, cs, f)
    ensures Shape(levels, |cs|) && SameSizes(f, cs)
  {}

  /** A block by its place in the layout. */
  lemma LayoutReady(p: Pass, levels: Levels, shown: iset<Pos>, cs: Frame, f: Frame, i: nat, j: nat)
    requires Knows(levels, shown, cs, f) && PassOk(p, shown, cs) && Continues(levels, p.info)
    requires i < |p.layout| && j < |p.layout[i]|
    ensures var q := p.layout[i][j]; var g := Seen(p, cs, f);
      && In(q, cs) && In(q, f) && In(q, g) && Coefs(At(g, q)) && Ready(ScanOf(p), At(g, q), At(f, q))
      && (ScanOf(p).mode == DcRefine ==> SameBit(ScanOf(p), At(cs, q), At(g, q)))
      && (ScanOf(p).mode != DcRefine ==> At(g, q) == At(cs, q))
  {
    hide Known, Continues, ParamsOk, Coefs, Ready, SameBit, Coverage, Job.Coded;
    LayoutShape(p, cs);
    var q := p.layout[i][j];
    assert Visits(p.layout, q);
    InSame(f, cs, q);
    PlaceReady(p, levels, shown, cs, f, q);
  }

  /** The bytes of the scan are those of the coefficients that the decoder's blocks agree with. */
  lemma CodedSeen(p: Pass, levels: Levels, shown: iset<Pos>, cs: Frame, f: Frame)
    requires Knows(levels, shown, cs, f) && PassOk(p, shown, cs) && Continues(levels, p.info)
    requires Fits(p.layout, f) && Fits(p.layout, Seen(p, cs, f))
    ensures JobOf(p, Seen(p, cs, f), f).Coded() && JobOf(p, Seen(p, cs, f), f).Segs() == JobOf(p, cs, cs).Segs()
  {
    hide ClosedBytes, ScanBytes, TabsOk, ParamsOk, Knows, Coverage, Continues, SameBit, Seen, Coefs, Run, AllFit, Flush;
    KnowsSizes(levels, shown, cs, f);
    var scan, mcus, others := ScanOf(p), Collect(p.layout, cs), Collect(p.layout, Seen(p, cs, f));
    forall i, j | 0 <= i < |others| && 0 <= j < |others[i]|
      ensures Coefs(others[i][j]) && (scan.mode == DcRefine ==> SameBit(scan, mcus[i][j], others[i][j]))
      ensures scan.mode != DcRefine ==> others[i][j] == mcus[i][j]
    {
      LayoutReady(p, levels, shown, cs, f, i, j);
    }
    if scan.mode == DcRefine {
      SameRun(scan, mcus, others);
    } else {
      forall i | 0 <= i < |mcus| ensures mcus[i] == others[i] {}
      assert mcus == others;
    }
  }

  /** One block, after the scan. */
  lemma PlaceSent(p: Pass, levels: Levels, shown: iset<Pos>, cs: Frame, f: Frame, q: Pos)
    requires Knows(levels, shown, cs, f) && Coverage(p, shown, cs) && ParamsOk(p.info) && Continues(levels, p.info)
    requires In(q, cs) && In(q, f)
    ensures In(q, Seen(p, cs, f))
    ensures Visits(p.layout, q) && Coefs(At(cs, q)) ==>
      Known(Mark(levels, p.info)[q.comp], q in shown, At(cs, q), Target(ScanOf(p), At(Seen(p, cs, f), q), At(f, q)))
    ensures !Visits(p.layout, q) ==> Known(Mark(levels, p.info)[q.comp], q in shown, At(cs, q), At(f, q))
  {
    hide Known, RowOk, ParamsOk, Agreeing, Coverage, Coefs, MarkRow, Target;
    CoverageAt(p, shown, cs, q);
    var scan, row := ScanOf(p), levels[q.comp];
    if Visits(p.layout, q) {
      if Coefs(At(cs, q)) { BlockSent(scan, p.info, row, q in shown, At(cs, q), At(f, q)); }
    } else if q.comp in p.info.component_index {
      PaddingSkipped(p.info, row, At(cs, q), At(f, q));
    }
  }

  /** Where the data of the scan ends, and the marker behind it. */
  ghost function EndOf(p: Pass, cs: Frame): nat
    requires ParamsOk(p.info) && Fits(p.layout, cs) && JobOf(p, cs, cs).Coded()
  {
    p.pos + |ScanBytes(p.tabs, JobOf(p, cs, cs).Segs())| + 2
  }

  /** The decoder goes through the scan without a warning and reaches the marker behind it. */
  lemma PassReaches(p: Pass, levels: Levels, shown: iset<Pos>, cs: Frame, f: Frame)
    requires Knows(levels, shown, cs, f) && PassOk(p, shown, cs) && Continues(levels, p.info)
    ensures Startable(p, f) && DecOk(ScanOf(p), StartPass(ScanOf(p), p.pos))
    ensures var r := DecodeAll(ScanOf(p), p.data, p.lim, p.tabs, StartPass(ScanOf(p), p.pos), Collect(p.layout, f));
      r.Some? && !r.value.dec.rd.dry && AtMarker(p.data, r.value.dec.rd, p.m, EndOf(p, cs))
  {
    hide Continues, ParamsOk, Coverage, Known, Job.Coded, Job.Segs, TabsOk, Seen, DecodeAll, AtMarker, ScanBytes,
         AllTargets;
    PassPaired(p, levels, shown, cs, f);
    ScanDecodes(JobOf(p, Seen(p, cs, f), f));
  }

  /** One scan brings the decoder to the next level. */
  lemma PassDecodes(p: Pass, levels: Levels, shown: iset<Pos>, cs: Frame, f: Frame)
    requires Knows(levels, shown, cs, f) && PassOk(p, shown, cs) && Continues(levels, p.info)
    ensures DecodePass(p, f).Some? && Knows(Mark(levels, p.info), shown, cs, DecodePass(p, f).value)
  {
    hide Continues, ParamsOk, Coverage, Known, Target, Mark, Visits, Scatter, AllFit, Job.Coded, TabsOk, Coefs, Seen;
    PassPaired(p, levels, shown, cs, f);
    LayoutShape(p, cs);
    var job := JobOf(p, Seen(p, cs, f), f);
    ScanDecodes(job);
    var so := DecodeAll(job.scan, job.data, job.lim, job.tabs, StartPass(job.scan, job.pos), job.bss).value;
    OutsShape(job, so.outs);
    var g := Scatter(p.layout, so.outs, f);
    assert DecodePass(p, f) == Some(g);
    forall q | In(q, cs) && In(q, g)
      ensures Known(Mark(levels, p.info)[q.comp], q in shown, At(cs, q), At(g, q))
    {
      InSame(f, cs, q);
      ScatterAt(p.layout, so.outs, f, q);
      PlaceSent(p, levels, shown, cs, f, q);
      if Visits(p.layout, q) {
        var i, j := FindVisit(p.layout, q);
        OutIs(job, so.outs, p, Seen(p, cs, f), f, i, j);
      }
    }
  }

  lemma OutsShape(job: Job, outs: seq<seq<Block>>)
    requires job.Ok() && AllTargets(job, outs) && |outs| == |job.mcus|
    ensures forall i :: 0 <= i < |outs| ==> |outs[i]| == |job.mcus[i]|
  {
    hide Job.Ok;
  }

  lemma OutIs(job: Job, outs: seq<seq<Block>>, p: Pass, cs: Frame, f: Frame, i: nat, j: nat)
    requires ParamsOk(p.info) && Fits(p.layout, cs) && Fits(p.layout, f) && job == JobOf(p, cs, f)
    requires job.Ok() && AllTargets(job, outs) && |outs| == |job.mcus| && i < |p.layout| && j < |p.layout[i]|
    ensures j < |outs[i]| && outs[i][j] == Target(ScanOf(p), At(cs, p.layout[i][j]), At(f, p.layout[i][j]))
  {
    hide Job.Ok, Target, ParamsOk;
  }

  // ---- All scans of a script ----

  /** Each scan is well-formed and continues where the earlier ones left off. */
  ghost predicate Steps(script: seq<ScanInfo>, start: Levels)
    requires Shape(start, |start|)
  {
    script != [] ==>
      && Steps(script[..|script| - 1], start)
      && ComponentsOk(script[|script| - 1], |start|) && ParamsOk(script[|script| - 1])
      && Continues(LevelsAfter(script[..|script| - 1], start), script[|script| - 1])
  }

  lemma {:induction false} ProgressiveSteps(script: seq<ScanInfo>, start: Levels)
    requires Shape(start, |start|) && Progressive(script, start)
    ensures Steps(script, start)
  {
    hide ComponentsOk, Continues, RangesOk;
    if script != [] { ProgressiveSteps(script[..|script| - 1], start); }
  }

  function WholeRow(sent: bool): (row: seq<int>)
    ensures |row| == 64
  {
    seq(64, _ => if sent then 0 else -1)
  }

  /** The components sent are complete, the others untouched. */
  ghost predicate SentLevels(levels: Levels, script: seq<ScanInfo>) {
    forall c :: 0 <= c < |levels| ==> levels[c] == WholeRow(Sent(script, c))
  }

  lemma {:induction false} SequentialSteps(script: seq<ScanInfo>, n: nat, i: nat)
    requires SequentialScript(script, n) && i <= |script|
    ensures Steps(script[..i], Unsent(n)) && SentLevels(LevelsAfter(script[..i], Unsent(n)), script[..i])
  {
    hide ComponentsOk, SentLevels, Sent, Continues, Mark, ParamsOk;
    if i == 0 {
      NothingYetSent(script, n);
    } else {
      SequentialSteps(script, n, i - 1);
      assert script[..i][..i - 1] == script[..i - 1];
      SequentialNext(script, n, i - 1, LevelsAfter(script[..i - 1], Unsent(n)));
    }
  }

  lemma NothingYetSent(script: seq<ScanInfo>, n: nat)
    ensures SentLevels(Unsent(n), script[..0])
  {
    hide Sent;
    NothingSent(script);
  }

  lemma SequentialNext(script: seq<ScanInfo>, n: nat, i: nat, levels: Levels)
    requires SequentialScript(script, n) && i < |script| && Shape(levels, n) && SentLevels(levels, script[..i])
    ensures ParamsOk(script[i]) && Continues(levels, script[i]) && SentLevels(Mark(levels, script[i]), script[..i + 1])
  {
    hide ComponentsOk, Sent;
    SentNext(script, i);
    forall c | 0 <= c < n && c in script[i].component_index
      ensures RowOk(levels[c], script[i]) && MarkRow(levels[c], script[i]) == WholeRow(true)
    {
      assert !Sent(script[..i], c);
    }
  }

  /** An accepted script is made of such steps. */
  lemma {:induction false} AcceptedSteps(script: seq<ScanInfo>, n: nat)
    requires ScriptAccepted(script, n)
    ensures Steps(script, Unsent(n))
    ensures forall c :: 0 <= c < n ==> LevelsAfter(script, Unsent(n))[c][0] >= 0
  {
    hide Progressive, LevelsAfter, Steps, SequentialScript;
    if script[0].Ss != 0 || script[0].Se != 63 {
      ProgressiveSteps(script, Unsent(n));
    } else {
      SequentialComplete(script, n);
    }
  }

  /** Every bit of every coefficient has been sent. */
  function AllSent(n: nat): Levels {
    seq(n, _ => seq(64, _ => 0))
  }

  /** A sequential script sends everything. */
  lemma {:induction false} SequentialComplete(script: seq<ScanInfo>, n: nat)
    requires SequentialScript(script, n)
    ensures Steps(script, Unsent(n)) && LevelsAfter(script, Unsent(n)) == AllSent(n) && ScriptAccepted(script, n)
  {
    hide LevelsAfter, Steps, Sent, ComponentsOk;
    SequentialSteps(script, n, |script|);
    assert script[..|script|] == script;
    var levels := LevelsAfter(script, Unsent(n));
    forall c | 0 <= c < n ensures levels[c] == WholeRow(true) { assert Sent(script, c); }
  }

  /** One of the steps. */
  lemma {:induction false} StepFollows(script: seq<ScanInfo>, start: Levels, i: nat)
    requires Shape(start, |start|) && Steps(script, start) && i < |script|
    ensures Continues(LevelsAfter(script[..i], start), script[i])
    ensures LevelsAfter(script[..i + 1], start) == Mark(LevelsAfter(script[..i], start), script[i])
    decreases |script|
  {
    hide ComponentsOk, Continues, ParamsOk, Mark;
    assert script[..i + 1][..i] == script[..i];
    var n := |script| - 1;
    if i < n {
      StepFollows(script[..n], start, i);
      assert script[..n][..i] == script[..i] && script[..n][..i + 1] == script[..i + 1];
    } else {
      assert script[..i + 1] == script;
    }
  }

  /** All scans of a script, in order. */
  lemma {:induction false} PassesDecode(ps: seq<Pass>, shown: iset<Pos>, cs: Frame)
    requires Steps(Infos(ps), Unsent(|cs|))
    requires forall i :: 0 <= i < |ps| ==> PassOk(ps[i], shown, cs)
    ensures DecodePasses(ps, Zeros(cs)).Some?
    ensures Knows(LevelsAfter(Infos(ps), Unsent(|cs|)), shown, cs, DecodePasses(ps, Zeros(cs)).value)
  {
    hide PassOk, Knows, Continues, ParamsOk, ComponentsOk, Mark, DecodePass;
    if ps == [] {
      KnowsNothing(shown, cs);
    } else {
      var n := |ps| - 1;
      assert Infos(ps)[..n] == Infos(ps[..n]);
      PassesDecode(ps[..n], shown, cs);
      PassDecodes(ps[n], LevelsAfter(Infos(ps[..n]), Unsent(|cs|)), shown, cs, DecodePasses(ps[..n], Zeros(cs)).value);
    }
  }

  /** What is left of coefficient k when it has been sent up to bit l (not at all if l is negative). */
  function Remaining(c: int, k: nat, l: int): int {
    if l < 0 then 0 else Level(c, k, l)
  }

  /** A coefficient comes back whatever its value if and only if all its bits have been sent. */
  lemma LosslessIff(k: nat, l: int)
    ensures (forall c :: -32768 <= c < 32768 ==> Remaining(c, k, l) == c) <==> l == 0
  {
    hide Level;
    forall c: int ensures Level(c, k, 0) == c { LevelZero(c, k); }
    if l > 0 {
      OneLost(k, l);
      assert Remaining(1, k, l) != 1;
    } else if l < 0 {
      assert Remaining(1, k, l) != 1;
    }
  }

  lemma LevelZero(c: int, k: nat)
    ensures Level(c, k, 0) == c
  {}

  lemma OneLost(k: nat, l: nat)
    requires l > 0
    ensures Level(1, k, l) == 0
  {
    assert Sar(1, l) == Sar(0, l - 1) && Bits.Shr(1, l) == Bits.Shr(0, l - 1);
    NothingLeft(l - 1);
    ScaleZero(l);
  }

  lemma {:induction false} NothingLeft(n: nat)
    ensures Sar(0, n) == 0 && Bits.Shr(0, n) == 0
  {
    if n > 0 { NothingLeft(n - 1); }
  }

  /** Coding with any accepted script: every coefficient of every real block comes back down to the last bit
      that the script sends of it, and if the script sends everything, the blocks come back unchanged. For any
      coefficients that the encoder accepts, any tables, any restart intervals, any interleaving. */
  lemma {:induction false} ScriptDecoded(ps: seq<Pass>, shown: iset<Pos>, cs: Frame)
    requires ScriptAccepted(Infos(ps), |cs|)
    requires forall i :: 0 <= i < |ps| ==> PassOk(ps[i], shown, cs)
    ensures DecodePasses(ps, Zeros(cs)).Some?
    ensures var f, levels := DecodePasses(ps, Zeros(cs)).value, LevelsAfter(Infos(ps), Unsent(|cs|));
      && SameSizes(f, cs)
      && (forall q, k :: In(q, cs) && In(q, f) && q in shown && 0 <= k < 64 ==>
            At(f, q)[k] == Remaining(At(cs, q)[k], k, levels[q.comp][k]))
      && (levels == AllSent(|cs|) ==> forall q :: In(q, cs) && In(q, f) && q in shown ==>
         At(f, q) == At(cs, q))
  {
    hide PassOk, Steps, LevelsAfter, DecodePasses, ScriptAccepted, Level;
    AcceptedSteps(Infos(ps), |cs|);
    PassesDecode(ps, shown, cs);
    var f, levels := DecodePasses(ps, Zeros(cs)).value, LevelsAfter(Infos(ps), Unsent(|cs|));
    forall q, k | In(q, cs) && In(q, f) && q in shown && 0 <= k < 64
      ensures At(f, q)[k] == Remaining(At(cs, q)[k], k, levels[q.comp][k])
    {
      assert Known(levels[q.comp], true, At(cs, q), At(f, q));
    }
    if levels == AllSent(|cs|) {
      forall q | In(q, cs) && In(q, f) && q in shown ensures At(f, q) == At(cs, q) {
        forall k | 0 <= k < 64 ensures At(f, q)[k] == At(cs, q)[k] { LevelZero(At(cs, q)[k], k); }
      }
    }
  }
}
