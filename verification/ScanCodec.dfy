/** Whole passes over a scan: statistics and output agree on the symbols, and what the output
    pass writes the decoder reads back, in whatever pieces it arrives. */
module ScanCodec {
  import opened Bits
  import opened Coefficients
  import opened HuffmanTables
  import opened BitWriter
  import opened BitReader
  import opened Coding
  import opened Decoding
  import opened SegmentRoundTrip
  import opened TokenBits
  import opened McuDecoding
  import opened ScanRoundTrip
  import opened Suspension
  import opened McuDecoder
  import opened McuEncoder
  import opened HuffmanTree
  import opened OptimalTable

  // ---- Which tokens a scan can emit ----

  /** The tables that a scan uses. */
  ghost predicate UsesTable(scan: Scan, t: nat)
    requires scan.Ok()
  {
    || (scan.UsesDc() && exists i :: 0 <= i < scan.ncomps && scan.dcTbl[i] == t)
    || (scan.UsesAc() && exists i :: 0 <= i < scan.ncomps && scan.acTbl[i] == t)
  }

  /** A size of a DC difference. */
  predicate DcSymbol(s: nat) {
    s <= MAX_COEF_BITS + 1
  }

  /** A zero run and a size of an AC coefficient, ZRL, or an end-of-band run. */
  predicate AcSymbol(s: nat) {
    s < 256 && s % 16 <= MAX_COEF_BITS
  }

  /** The symbols of each table that a scan may emit. */
  ghost function ScanSymbols(scan: Scan): iset<(nat, nat)>
    requires scan.Ok()
  {
    iset t: nat, s: nat |
      || (scan.UsesDc() && (exists i :: 0 <= i < scan.ncomps && scan.dcTbl[i] == t) && DcSymbol(s))
      || (scan.UsesAc() && (exists i :: 0 <= i < scan.ncomps && scan.acTbl[i] == t) && AcSymbol(s)) :: (t, s)
  }

  ghost predicate AllowsDc(syms: iset<(nat, nat)>, tbl: nat) {
    forall s: nat :: DcSymbol(s) ==> (tbl, s) in syms
  }

  ghost predicate AllowsAc(syms: iset<(nat, nat)>, tbl: nat) {
    forall s: nat :: AcSymbol(s) ==> (tbl, s) in syms
  }

  ghost predicate AllowsScan(syms: iset<(nat, nat)>, scan: Scan)
    requires scan.Ok()
  {
    && (scan.UsesDc() ==> forall i :: 0 <= i < scan.ncomps ==> AllowsDc(syms, scan.dcTbl[i]))
    && (scan.UsesAc() ==> forall i :: 0 <= i < scan.ncomps ==> AllowsAc(syms, scan.acTbl[i]))
  }

  lemma ScanAllowed(scan: Scan)
    requires scan.Ok()
    ensures AllowsScan(ScanSymbols(scan), scan)
  {}

  /** Bit fields are neither empty nor too long; symbols are among syms. */
  ghost predicate Proper(syms: iset<(nat, nat)>, t: Token) {
    match t
    case Raw(_, n) => 1 <= n <= 16
    case Sym(tbl, s) => (tbl, s) in syms
  }

  ghost predicate AllProper(syms: iset<(nat, nat)>, toks: seq<Token>) {
    forall i :: 0 <= i < |toks| ==> Proper(syms, toks[i])
  }

  ghost predicate ProperSt(syms: iset<(nat, nat)>, st: EncSt) {
    AllProper(syms, st.cur) && AllProper(syms, st.be) && forall i :: 0 <= i < |st.segs| ==> AllProper(syms, st.segs[i])
  }

  lemma {:induction false} ZrlProper(syms: iset<(nat, nat)>, tbl: nat, r: nat)
    requires AllowsAc(syms, tbl)
    ensures AllProper(syms, ZrlToks(tbl, r))
  {
    if r > 15 { ZrlProper(syms, tbl, r - 16); }
  }

  lemma DcProper(syms: iset<(nat, nat)>, tbl: nat, diff: int)
    requires AllowsDc(syms, tbl) && NBits(Magnitude(diff)) <= MAX_COEF_BITS + 1
    ensures AllProper(syms, DcToks(tbl, diff))
  {
    hide NBits, MagBits;
  }

  lemma CoefProper(syms: iset<(nat, nat)>, tbl: nat, r: nat, v: int)
    requires AllowsAc(syms, tbl) && v != 0 && NBits(Magnitude(v)) <= MAX_COEF_BITS
    ensures AllProper(syms, CoefToks(tbl, r, v))
  {
    hide NBits, MagBits, ZrlToks;
    ExtendMag(v);
    ZrlProper(syms, tbl, r);
  }

  lemma {:induction false} AcProper(syms: iset<(nat, nat)>, tbl: nat, blk: Block, k: nat, Se: nat, Al: nat, r: nat)
    requires AllowsAc(syms, tbl) && Se < 64 && k <= Se + 1 && AcFits(blk, k, Se, Al)
    ensures AllProper(syms, AcToks(tbl, blk, k, Se, Al, r).0)
    decreases Se + 1 - k
  {
    hide Shrink, NBits, CoefToks, Proper;
    if k <= Se {
      var v := Shrink(blk[k], Al);
      if v == 0 {
        AcProper(syms, tbl, blk, k + 1, Se, Al, r + 1);
      } else {
        CoefProper(syms, tbl, r, v);
        AcProper(syms, tbl, blk, k + 1, Se, Al, 0);
      }
    }
  }

  lemma {:induction false} RefineProper(syms: iset<(nat, nat)>, tbl: nat, blk: Block, k: nat, Se: nat, Al: nat,
                                        eob: nat, r: nat, br: seq<Token>)
    requires AllowsAc(syms, tbl) && Se < 64 && k <= Se + 1 && AllProper(syms, br) && NoneNewAfter(blk, k, Se, Al, eob)
    ensures var b := RefineToks(tbl, blk, k, Se, Al, eob, r, br); AllProper(syms, b.pre) && AllProper(syms, b.tail)
    decreases Se + 1 - k, r
  {
    hide AbsVal;
    if k <= Se {
      var a := AbsVal(blk, k, Al);
      if a == 0 { RefineProper(syms, tbl, blk, k + 1, Se, Al, eob, r + 1, br); }
      else if r > 15 && k <= eob { RefineProper(syms, tbl, blk, k, Se, Al, eob, r - 16, []); }
      else if a > 1 { RefineProper(syms, tbl, blk, k + 1, Se, Al, eob, r, br + [Raw(a % 2, 1)]); }
      else { RefineProper(syms, tbl, blk, k + 1, Se, Al, eob, 0, []); }
    }
  }

  /** No coefficient from k on, beyond eob, becomes nonzero in this scan. */
  ghost predicate NoneNewAfter(blk: Block, k: nat, Se: nat, Al: nat, eob: nat)
    requires Se < 64
  {
    forall j :: k <= j <= Se && j > eob ==> AbsVal(blk, j, Al) != 1
  }

  lemma BlockProper(syms: iset<(nat, nat)>, scan: Scan, ci: nat, blk: Block, pred: int)
    requires scan.Ok() && ci < scan.ncomps && scan.mode in {Sequential, DcFirst, DcRefine} && BlockFits(scan, blk, pred)
    requires AllowsScan(syms, scan)
    ensures AllProper(syms, BlockToks(scan, ci, blk, pred))
  {
    hide DcToks, Sar, AcToks, Shrink, NBits, AcFits;
    if scan.mode != DcRefine {
      assert UsesTable(scan, scan.dcTbl[ci]);
      DcProper(syms, scan.dcTbl[ci], DcValue(scan, blk) - pred);
    }
    if scan.mode == Sequential {
      assert UsesTable(scan, scan.acTbl[ci]);
      AcProper(syms, scan.acTbl[ci], blk, 1, 63, 0, 0);
    }
  }

  lemma FitsLast(scan: Scan, mcu: seq<Block>, i: nat, last: seq<int>)
    requires scan.Ok() && scan.mode in {Sequential, DcFirst, DcRefine} && |last| == scan.ncomps
    requires |mcu| == |scan.members| && 0 < i <= |mcu| && McuFits(scan, mcu, i, last)
    ensures McuFits(scan, mcu, i - 1, last)
    ensures BlockFits(scan, mcu[i - 1], McuToks(scan, mcu, i - 1, last).1[scan.members[i - 1]])
  {
    hide BlockFits, McuToks;
  }

  lemma {:induction false} McuProper(syms: iset<(nat, nat)>, scan: Scan, mcu: seq<Block>, i: nat, last: seq<int>)
    requires scan.Ok() && scan.mode in {Sequential, DcFirst, DcRefine} && |last| == scan.ncomps
    requires |mcu| == |scan.members| && i <= |mcu| && McuFits(scan, mcu, i, last)
    requires AllowsScan(syms, scan)
    ensures AllProper(syms, McuToks(scan, mcu, i, last).0)
  {
    hide BlockToks, BlockFits, UsesTable, Proper, McuFits;
    if i > 0 {
      FitsLast(scan, mcu, i, last);
      McuProper(syms, scan, mcu, i - 1, last);
      var ci := scan.members[i - 1];
      BlockProper(syms, scan, ci, mcu[i - 1], McuToks(scan, mcu, i - 1, last).1[ci]);
    }
  }

  lemma FlushProper(syms: iset<(nat, nat)>, scan: Scan, st: EncSt)
    requires ProperSt(syms, st) && st.n <= 0x7FFF && (st.n > 0 ==> AllowsAc(syms, RunTable(scan)))
    ensures ProperSt(syms, Flush(scan, st))
  {
    hide NBits, Low, RunTable;
    if st.n > 0 { RunSize(st.n, NBits(st.n / 2)); }
  }

  lemma BodyProper(syms: iset<(nat, nat)>, scan: Scan, st: EncSt, mcu: seq<Block>)
    requires scan.Ok() && |mcu| == |scan.members| && |st.last| == scan.ncomps && ProperSt(syms, st) && RunBounded(st)
    requires AllowsScan(syms, scan)
    requires BodyFits(scan, st, mcu)
    ensures ProperSt(syms, Body(scan, st, mcu))
  {
    hide AcToks, RefineToks, McuToks, RunToks, RunTable, McuFits, LastNew, AcFits, UsesTable, Proper;
    if scan.mode in {AcFirst, AcRefine} {
      RunTableUsed(scan);
      BandProper(syms, scan, mcu[0]);
      var b := BandOf(scan, mcu[0]);
      hide BandOf;
      FlushProper(syms, scan, st);
      var s1 := AfterBand(scan, st, b.pre);
      FlushProper(syms, scan, s1.(n := s1.n + 1, be := s1.be + b.tail));
    } else {
      McuProper(syms, scan, mcu, |mcu|, st.last);
    }
  }

  lemma RunTableAllowed(syms: iset<(nat, nat)>, scan: Scan)
    requires scan.Ok() && scan.mode in {AcFirst, AcRefine} && AllowsScan(syms, scan)
    ensures AllowsAc(syms, RunTable(scan)) && RunTable(scan) == scan.AcTable()
  {}

  lemma RunTableUsed(scan: Scan)
    requires scan.Ok() && scan.mode in {AcFirst, AcRefine}
    ensures UsesTable(scan, RunTable(scan)) && RunTable(scan) == scan.AcTable()
  {}

  lemma BandProper(syms: iset<(nat, nat)>, scan: Scan, blk: Block)
    requires scan.Ok() && scan.mode in {AcFirst, AcRefine} && BlockFits(scan, blk, 0)
    requires AllowsScan(syms, scan)
    ensures AllProper(syms, BandOf(scan, blk).pre) && AllProper(syms, BandOf(scan, blk).tail)
  {
    hide AcToks, RefineToks, AcFits, UsesTable;
    RunTableUsed(scan);
    if scan.mode == AcFirst {
      AcProper(syms, scan.AcTable(), blk, scan.Ss, scan.Se, scan.Al, 0);
    } else {
      var eob := LastNew(blk, scan.Se + 1, scan.Ss, scan.Al);
      RefineProper(syms, scan.AcTable(), blk, scan.Ss, scan.Se, scan.Al, eob, 0, []);
    }
  }

  lemma {:induction false} RunProper(syms: iset<(nat, nat)>, scan: Scan, mcus: seq<seq<Block>>)
    requires scan.Ok() && Mcus(scan, mcus) && AllFit(scan, mcus)
    requires AllowsScan(syms, scan)
    ensures ProperSt(syms, Run(scan, mcus)) && RunBounded(Run(scan, mcus))
    ensures Run(scan, mcus).n > 0 ==> scan.mode in {AcFirst, AcRefine}
  {
    hide Body, BodyFits, Flush, UsesTable, Proper;
    RunSplits(scan, mcus);
    SegRunBounded(scan, SplitAt(scan.ri, mcus).current);
    if mcus != [] {
      var before, mcu := Run(scan, mcus[..|mcus| - 1]), mcus[|mcus| - 1];
      RunProper(syms, scan, mcus[..|mcus| - 1]);
      if before.n > 0 { RunTableUsed(scan); }
      FlushProper(syms, scan, before);
      FlushFacts(scan, before);
      BodyProper(syms, scan, Coding.BeginMcu(scan, before), mcu);
    }
  }

  // ---- Statistics and output ----

  /** How often a scan emits symbol s of table t. */
  function Uses(scan: Scan, mcus: seq<seq<Block>>, t: nat, s: nat): nat
    requires scan.Ok() && Mcus(scan, mcus)
  {
    var f := Flush(scan, Run(scan, mcus));
    Tally(f.segs, f.cur, t, s)
  }

  lemma {:induction false} InJoined(segs: seq<seq<Token>>, i: nat, j: nat)
    requires i < |segs| && j < |segs[i]|
    ensures segs[i][j] in Joined(segs)
  {
    var n := |segs| - 1;
    if i < n { InJoined(segs[..n], i, j); }
  }

  /** What Flush leaves is made of the tokens that the scan may emit. */
  lemma {:induction false} FinalProper(scan: Scan, mcus: seq<seq<Block>>)
    requires scan.Ok() && Mcus(scan, mcus) && AllFit(scan, mcus)
    ensures ProperSt(ScanSymbols(scan), Flush(scan, Run(scan, mcus)))
  {
    hide Run, Flush, AllFit, ScanSymbols, ProperSt, AllowsAc;
    var syms := ScanSymbols(scan);
    ScanAllowed(scan);
    RunProper(syms, scan, mcus);
    if Run(scan, mcus).n > 0 { RunTableAllowed(syms, scan); }
    FlushProper(syms, scan, Run(scan, mcus));
  }

  lemma {:induction false} InJoinedWhole(segs: seq<seq<Token>>, cur: seq<Token>, t: Token)
    requires t in Joined(segs) + cur
    ensures t in cur || exists i, j :: 0 <= i < |segs| && 0 <= j < |segs[i]| && segs[i][j] == t
  {
    if t !in cur { var i, j := FindJoined(segs, t); }
  }

  /** A symbol with a nonzero count is one that the scan may emit. */
  lemma {:induction false} UsesAreProper(scan: Scan, mcus: seq<seq<Block>>, t: nat, s: nat)
    requires scan.Ok() && Mcus(scan, mcus) && AllFit(scan, mcus) && Uses(scan, mcus, t, s) > 0
    ensures (t, s) in ScanSymbols(scan) && UsesTable(scan, t) && s < 256
  {
    hide Run, Flush, AllFit;
    FinalProper(scan, mcus);
    var f := Flush(scan, Run(scan, mcus));
    var syms := ScanSymbols(scan);
    InJoinedWhole(f.segs, f.cur, Sym(t, s));
    if Sym(t, s) in f.cur {
      var j :| 0 <= j < |f.cur| && f.cur[j] == Sym(t, s);
      assert Proper(syms, f.cur[j]);
    } else {
      var i, j :| 0 <= i < |f.segs| && 0 <= j < |f.segs[i]| && f.segs[i][j] == Sym(t, s);
      assert Proper(syms, f.segs[i][j]);
    }
  }

  /** Every symbol that is emitted has been counted, and is a byte of a table that the scan uses. */
  lemma {:induction false} UsedSymbolsAreCounted(scan: Scan, mcus: seq<seq<Block>>, i: nat, j: nat)
    requires scan.Ok() && Mcus(scan, mcus) && AllFit(scan, mcus)
    requires i < |Segments(scan, mcus)| && j < |Segments(scan, mcus)[i]| && Segments(scan, mcus)[i][j].Sym?
    ensures var t := Segments(scan, mcus)[i][j];
      Uses(scan, mcus, t.tbl, t.s) > 0 && UsesTable(scan, t.tbl) && t.s < 256
  {
    hide Run, Flush, AllFit, UsesTable, ScanSymbols;
    var f := Flush(scan, Run(scan, mcus));
    var t := Segments(scan, mcus)[i][j];
    if i < |f.segs| { InJoined(f.segs, i, j); }
    assert t in Joined(f.segs) + f.cur;
    assert multiset(Joined(f.segs) + f.cur)[t] > 0;
    UsesAreProper(scan, mcus, t.tbl, t.s);
  }

  /** If every symbol with a nonzero count has a code, the output pass meets no missing code. */
  lemma {:induction false} CountedCodesSuffice(scan: Scan, tabs: seq<Tab>, mcus: seq<seq<Block>>)
    requires scan.Ok() && Mcus(scan, mcus) && AllFit(scan, mcus)
    requires forall t: nat, s: nat :: Uses(scan, mcus, t, s) > 0 ==> Emittable(tabs, Sym(t, s))
    ensures forall i :: 0 <= i < |Segments(scan, mcus)| ==> AllEmittable(tabs, Segments(scan, mcus)[i])
  {
    hide Run, Flush, Emittable, AllFit, UsesTable, Uses, Segments;
    var segs := Segments(scan, mcus);
    forall i, j | 0 <= i < |segs| && 0 <= j < |segs[i]| ensures Emittable(tabs, segs[i][j]) {
      if segs[i][j].Raw? {
        RawProper(scan, mcus, i, j);
        RawEmittable(tabs, segs[i][j]);
      } else {
        UsedSymbolsAreCounted(scan, mcus, i, j);
      }
    }
  }

  lemma {:induction false} RawProper(scan: Scan, mcus: seq<seq<Block>>, i: nat, j: nat)
    requires scan.Ok() && Mcus(scan, mcus) && AllFit(scan, mcus)
    requires i < |Segments(scan, mcus)| && j < |Segments(scan, mcus)[i]| && Segments(scan, mcus)[i][j].Raw?
    ensures 1 <= Segments(scan, mcus)[i][j].n <= 16
  {
    hide Run, Flush, AllFit, ScanSymbols;
    FinalProper(scan, mcus);
    var f := Flush(scan, Run(scan, mcus));
    var t := Segments(scan, mcus)[i][j];
    assert Proper(ScanSymbols(scan), t) by { if i < |f.segs| { assert Segments(scan, mcus)[i] == f.segs[i]; } }
  }

  lemma RawEmittable(tabs: seq<Tab>, t: Token)
    requires t.Raw? && 1 <= t.n <= 16
    ensures Emittable(tabs, t)
  {}

  /** The counts of one table, as the statistics pass leaves them. */
  ghost predicate CountsOf(scan: Scan, mcus: seq<seq<Block>>, t: nat, freq: seq<nat>)
    requires scan.Ok() && Mcus(scan, mcus)
  {
    |freq| == SYMBOLS && forall s :: 0 <= s < 256 ==> freq[s] == Uses(scan, mcus, t, s)
  }

  /** Two-pass coding never fails for want of a code: with the tables generated from the counts of
      the statistics pass, the output pass over the same MCUs has a code for every symbol it emits. */
  lemma {:induction false} OptimizedOutputSucceeds(scan: Scan, tabs: seq<Tab>, mcus: seq<seq<Block>>,
          freqs: seq<seq<nat>>)
    requires scan.Ok() && Mcus(scan, mcus) && AllFit(scan, mcus)
    requires forall t: nat :: UsesTable(scan, t) ==>
      t < |tabs| && t < |freqs| && CountsOf(scan, mcus, t, freqs[t]) && TableFor(freqs[t], tabs[t].h) && SlotOk(tabs, t)
    ensures forall i :: 0 <= i < |Segments(scan, mcus)| ==> AllEmittable(tabs, Segments(scan, mcus)[i])
  {
    hide Uses, AllFit, TableFor, SlotOk, UsesTable, Emittable, Segments;
    forall t: nat, s: nat | Uses(scan, mcus, t, s) > 0 ensures Emittable(tabs, Sym(t, s)) {
      UsesAreProper(scan, mcus, t, s);
      SlotLegal(tabs, t);
      CountedSymbolsHaveCodes(freqs[t], tabs[t].h, tabs[t].c, s);
      CodeSize(tabs, t, s);
    }
    CountedCodesSuffice(scan, tabs, mcus);
  }

  lemma {:induction false} FindJoined(segs: seq<seq<Token>>, t: Token) returns (i: nat, j: nat)
    requires t in Joined(segs)
    ensures i < |segs| && j < |segs[i]| && segs[i][j] == t
  {
    var n := |segs| - 1;
    if t in segs[n] {
      j :| 0 <= j < |segs[n]| && segs[n][j] == t;
      i := n;
    } else {
      i, j := FindJoined(segs[..n], t);
    }
  }

  // ---- What is written can be read ----

  lemma {:induction false} StuffedBytes(bytes: seq<nat>)
    requires forall i :: 0 <= i < |bytes| ==> bytes[i] < 256
    ensures Bytes(Stuff(bytes))
  {
    if bytes != [] { StuffedBytes(bytes[1..]); }
  }

  lemma SealedBytes(bits: seq<bool>)
    ensures Bytes(Seal(bits))
  {
    hide Pack, Stuff, Pad;
    var packed := Pack(Pad(bits));
    forall i | 0 <= i < |packed| ensures packed[i] < 256 { assert packed[i] in packed; }
    StuffedBytes(packed);
  }

  lemma {:induction false} ClosedAreBytes(tabs: seq<Tab>, segs: seq<seq<Token>>)
    ensures Bytes(ClosedBytes(tabs, segs))
  {
    hide Seal, Flatten;
    if segs != [] {
      ClosedAreBytes(tabs, segs[..|segs| - 1]);
      SealedBytes(Flatten(tabs, segs[|segs| - 1]));
    }
  }

  lemma ScanAreBytes(tabs: seq<Tab>, segs: seq<seq<Token>>)
    requires |segs| > 0
    ensures Bytes(ScanBytes(tabs, segs))
  {
    hide Seal, Flatten, ClosedBytes;
    ClosedAreBytes(tabs, segs[..|segs| - 1]);
    SealedBytes(Flatten(tabs, segs[|segs| - 1]));
  }

  /** The decoder reads the scan at job.pos without suspension or warning, brings every block to its
      target, and stops at the marker behind the scan. */
  ghost predicate Restored(job: Job) {
    && job.Ok() && DecOk(job.scan, StartPass(job.scan, job.pos))
    && TabsOk(job.scan, job.tabs) && job.lim <= |job.data| && Bytes(job.data) && Shaped(job.scan, job.bss)
    && var r := DecodeAll(job.scan, job.data, job.lim, job.tabs, StartPass(job.scan, job.pos), job.bss);
    && r.Some? && |r.value.outs| == |job.mcus| == |job.bss| && AllTargets(job, r.value.outs)
    && !r.value.dec.rd.dry
    && AtMarker(job.data, r.value.dec.rd, job.m, job.pos + |ScanBytes(job.tabs, job.Segs())| + 2)
  }

  /** A scan written behind `start`, with any marker and any bytes after it, and any blocks to decode into. */
  ghost function JobFor(scan: Scan, tabs: seq<Tab>, all: seq<seq<Block>>, bss: seq<seq<Block>>,
                        start: seq<nat>, out: seq<nat>, m: nat, more: seq<nat>): Job
  {
    var data := out + [0xFF, m] + more;
    Job(scan, tabs, all, bss, data, |data|, |start|, m)
  }

  /** Whatever marker and bytes follow, and whatever blocks are to be filled, the decoder restores the scan. */
  ghost predicate Restorable(scan: Scan, tabs: seq<Tab>, all: seq<seq<Block>>, start: seq<nat>, out: seq<nat>) {
    forall bss: seq<seq<Block>>, m: nat, more: seq<nat> :: Paired(scan, all, bss) && 0 < m < 0xFF && Bytes(more) ==>
      Restored(JobFor(scan, tabs, all, bss, start, out, m, more))
  }

  lemma {:induction false} OutputRestored(scan: Scan, tabs: seq<Tab>, all: seq<seq<Block>>, bss: seq<seq<Block>>,
                       start: seq<nat>, m: nat, more: seq<nat>)
    requires scan.Ok() && Mcus(scan, all) && AllFit(scan, all) && TabsOk(scan, tabs) && Paired(scan, all, bss)
    requires forall i :: 0 <= i < |Segments(scan, all)| ==> AllEmittable(tabs, Segments(scan, all)[i])
    requires Bytes(start) && Bytes(more) && 0 < m < 0xFF
    ensures Restored(JobFor(scan, tabs, all, bss, start, start + ScanBytes(tabs, Segments(scan, all)), m, more))
  {
    hide ScanBytes, AllFit, TabsOk, Paired, AllEmittable, DecodeAll, AllTargets, AtMarker, Run, Flush;
    var body := ScanBytes(tabs, Segments(scan, all)) + [0xFF, m];
    var data := start + ScanBytes(tabs, Segments(scan, all)) + [0xFF, m] + more;
    ScanAreBytes(tabs, Segments(scan, all));
    assert data == start + body + more;
    assert data[|start|..|start| + |body|] == body;
    var job := Job(scan, tabs, all, bss, data, |data|, |start|, m);
    assert job.Ok();
    ScanOk(job);
    ScanDecodes(job);
  }

  lemma {:induction false} OutputRestorable(scan: Scan, tabs: seq<Tab>, all: seq<seq<Block>>, start: seq<nat>)
    requires scan.Ok() && Mcus(scan, all) && AllFit(scan, all) && TabsOk(scan, tabs) && Bytes(start)
    requires forall i :: 0 <= i < |Segments(scan, all)| ==> AllEmittable(tabs, Segments(scan, all)[i])
    ensures Restorable(scan, tabs, all, start, start + ScanBytes(tabs, Segments(scan, all)))
  {
    hide ScanBytes, AllFit, TabsOk, Paired, AllEmittable, Restored, JobFor, Run, Flush;
    var out := start + ScanBytes(tabs, Segments(scan, all));
    forall bss: seq<seq<Block>>, m: nat, more: seq<nat> | Paired(scan, all, bss) && 0 < m < 0xFF && Bytes(more)
      ensures Restored(JobFor(scan, tabs, all, bss, start, out, m, more))
    {
      OutputRestored(scan, tabs, all, bss, start, m, more);
    }
  }

  // ---- A pass over the MCUs ----

  lemma {:induction false} RunPrefix(scan: Scan, tabs: seq<Tab>, mcus: seq<seq<Block>>, i: nat)
    requires scan.Ok() && Mcus(scan, mcus) && i <= |mcus|
    ensures Mcus(scan, mcus[..i])
    ensures AllFit(scan, mcus) ==> AllFit(scan, mcus[..i])
    ensures Written(tabs, Run(scan, mcus)) ==> Written(tabs, Run(scan, mcus[..i]))
    decreases |mcus|
  {
    hide Encode, Encodable, Written;
    if i == |mcus| {
      assert mcus[..i] == mcus;
    } else {
      var n := |mcus| - 1;
      RunPrefix(scan, tabs, mcus[..n], i);
      assert mcus[..n][..i] == mcus[..i];
      EncodeGrows(scan, tabs, Run(scan, mcus[..n]), mcus[n]);
    }
  }

  lemma EncodeGrows(scan: Scan, tabs: seq<Tab>, st: EncSt, mcu: seq<Block>)
    requires scan.Ok() && |mcu| == |scan.members| && |st.last| == scan.ncomps
    ensures Written(tabs, Encode(scan, st, mcu)) ==> Written(tabs, st)
  {
    hide Body, BodyFits, AllEmittable, RunToks, RunTable;
    EncodeParts(scan, tabs, st, mcu);
    var more := RunToks(RunTable(scan), st.n, st.be);
    EmittableSplit(tabs, st.cur, more);
    if scan.ri > 0 && st.togo == 0 {
      var segs := st.segs + [st.cur + more];
      assert segs[|st.segs|] == st.cur + more;
      assert forall i :: 0 <= i < |st.segs| ==> segs[i] == st.segs[i];
    }
  }

  /** The MCUs of a scan, as arrays and as blocks. */
  ghost predicate Holding(mcus: seq<seq<array<int>>>, all: seq<seq<Block>>)
    reads set i, j | 0 <= i < |mcus| && 0 <= j < |mcus[i]| :: mcus[i][j]
  {
    |mcus| == |all| && forall i :: 0 <= i < |mcus| ==> McuData(mcus[i]) && Blocks(mcus[i]) == all[i]
  }

  /** One pass over all MCUs of a scan, statistics or output: it fails exactly when a coefficient is
      out of range or, in an output pass, a symbol that is emitted has no code. */
  method EncodeMcus(enc: EntropyEncoder, mcus: seq<seq<array<int>>>, ghost all: seq<seq<Block>>) returns (ok: bool)
    requires enc.Valid() && enc.st == Start(enc.scan) && Holding(mcus, all) && enc.scan.Ok() && Mcus(enc.scan, all)
    modifies enc, enc.writer, enc.counts, enc.bit_buffer
    ensures ok <==> AllFit(enc.scan, all) && (enc.gather_statistics || Written(enc.tabs, Run(enc.scan, all)))
    ensures ok ==> enc.Valid() && enc.st == Run(enc.scan, all)
  {
    hide enc.Valid, Encode, Encodable, Written, Blocks, McuData, Scan.Ok, Coefs;
    ghost var scan, tabs := enc.scan, enc.tabs;
    NothingWritten(scan, tabs, all);
    var i := 0;
    while i < |mcus|
      invariant i <= |mcus| && Holding(mcus, all) && enc.Valid()
      invariant enc.st == Run(scan, all[..i]) && AllFit(scan, all[..i])
      invariant enc.gather_statistics || Written(tabs, enc.st)
    {
      RunPrefix(scan, tabs, all, i);
      RunPrefix(scan, tabs, all, i + 1);
      assert all[..i + 1][..i] == all[..i] && all[..i + 1][i] == all[i];
      ok := enc.EncodeMcu(mcus[i]);
      if !ok {
        return;
      }
      i := i + 1;
    }
    assert all[..i] == all;
    ok := true;
  }

  lemma {:induction false} NothingWritten(scan: Scan, tabs: seq<Tab>, all: seq<seq<Block>>)
    requires scan.Ok() && Mcus(scan, all)
    ensures Mcus(scan, all[..0]) && Run(scan, all[..0]) == Start(scan) && AllFit(scan, all[..0])
      && Written(tabs, Start(scan))
  {}

  /** The output pass: on success the destination has received exactly the bytes of the scan, and if
      the decoder accepts the tables too, it restores the scan from them. */
  method OutputScan(enc: EntropyEncoder, mcus: seq<seq<array<int>>>, ghost all: seq<seq<Block>>) returns (ok: bool)
    requires enc.Valid() && enc.st == Start(enc.scan) && Holding(mcus, all) && enc.scan.Ok() && Mcus(enc.scan, all)
    requires !enc.gather_statistics
    modifies enc, enc.writer, enc.counts, enc.bit_buffer
    ensures ok <==> AllFit(enc.scan, all) && forall i :: 0 <= i < |Segments(enc.scan, all)| ==>
      AllEmittable(enc.tabs, Segments(enc.scan, all)[i])
    ensures ok ==> enc.writer.Valid() && enc.writer.bits == []
    ensures ok ==> enc.writer.out == enc.start + ScanBytes(enc.tabs, Segments(enc.scan, all))
    ensures ok && TabsOk(enc.scan, enc.tabs) && Bytes(enc.start) ==>
      Restorable(enc.scan, enc.tabs, all, enc.start, enc.writer.out)
  {
    hide enc.Valid, Run, AllFit, ScanBytes, AllEmittable, BitWriter.Valid, TabsOk, Bytes, Restorable;
    LastWritten(enc.scan, enc.tabs, all);
    ok := EncodeMcus(enc, mcus, all);
    if ok {
      ok := enc.FinishPass();
    }
    if ok && TabsOk(enc.scan, enc.tabs) && Bytes(enc.start) {
      OutputRestorable(enc.scan, enc.tabs, all, enc.start);
    }
  }

  lemma {:induction false} LastWritten(scan: Scan, tabs: seq<Tab>, all: seq<seq<Block>>)
    requires scan.Ok() && Mcus(scan, all)
    ensures var f := Flush(scan, Run(scan, all));
      && (Written(tabs, f) <==> forall i :: 0 <= i < |Segments(scan, all)| ==>
         AllEmittable(tabs, Segments(scan, all)[i]))
      && (Written(tabs, f) ==> Written(tabs, Run(scan, all)))
  {
    hide AllEmittable, Run, RunToks, RunTable;
    var st := Run(scan, all);
    var f := Flush(scan, st);
    EmittableSplit(tabs, st.cur, RunToks(RunTable(scan), st.n, st.be));
    assert Segments(scan, all)[|f.segs|] == f.cur;
    assert forall i :: 0 <= i < |f.segs| ==> Segments(scan, all)[i] == f.segs[i];
  }

  /** The statistics pass: on success the counts are the numbers of uses of each symbol. */
  method GatherScan(enc: EntropyEncoder, mcus: seq<seq<array<int>>>, ghost all: seq<seq<Block>>) returns (ok: bool)
    requires enc.Valid() && enc.st == Start(enc.scan) && Holding(mcus, all) && enc.scan.Ok() && Mcus(enc.scan, all)
    requires enc.gather_statistics
    modifies enc, enc.writer, enc.counts, enc.bit_buffer
    ensures ok <==> AllFit(enc.scan, all)
    ensures enc.counts.Length1 == 257
    ensures ok ==> forall t, s :: 0 <= t < enc.counts.Length0 && 0 <= s < 256 ==>
      enc.counts[t, s] == Uses(enc.scan, all, t, s)
  {
    hide enc.Valid, Run, AllFit, Tally;
    enc.CountsShape();
    ok := EncodeMcus(enc, mcus, all);
    if ok {
      ok := enc.FinishPassGather();
    }
  }

  // ---- The main theorem for one scan ----

  /** Any scan, any restart interval, any MCUs in range, input arriving in any pieces: the decoder
      ends up with every coefficient as the scan should leave it. */
  lemma {:induction false} ScanInPieces(job: Job, lims: seq<nat>)
    requires job.Ok() && job.lim == |job.data| && Sized(job.scan, job.bss)
    requires Schedule(job.data, lims) && |lims| >= |job.bss|
    requires forall i :: |lims| - |job.bss| <= i < |lims| ==> lims[i] == |job.data|
    ensures DecOk(job.scan, StartPass(job.scan, job.pos)) && TabsOk(job.scan, job.tabs) && Bytes(job.data)
    ensures var r := DecodePieces(job.scan, job.data, lims, job.tabs, StartPass(job.scan, job.pos), job.bss);
      && r.Some? && |r.value.outs| == |job.mcus| == |job.bss| && AllTargets(job, r.value.outs)
      && !r.value.dec.rd.dry
      && AtMarker(job.data, r.value.dec.rd, job.m, job.pos + |ScanBytes(job.tabs, job.Segs())| + 2)
  {
    hide Job.Ok, Sized, Schedule, AllTargets, AtMarker, DecodePieces, DecodeWhole, DecodeAll;
    ScanOk(job);
    ScanDecodes(job);
    PiecesDecodeWhole(job.scan, job.data, lims, job.tabs, StartPass(job.scan, job.pos), job.bss);
    WholeIsAll(job.scan, job.data, job.tabs, StartPass(job.scan, job.pos), job.bss);
  }
}
