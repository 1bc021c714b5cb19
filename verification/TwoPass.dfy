/** Two-pass coding of a scan: statistics, optimal tables, output. What the statistics pass counts
    meets the demands of jpeg_gen_optimal_table, the tables it makes are accepted by the encoder and
    by the decoder, and the output pass has a code for everything it emits. */
module TwoPass {
  import opened Coefficients
  import opened HuffmanTables
  import opened DerivedTables
  import opened BitWriter
  import opened BitReader
  import opened Coding
  import opened Decoding
  import opened TokenBits
  import opened ScanRoundTrip
  import opened McuEncoder
  import opened HuffmanTree
  import opened OptimalTable
  import opened ScanCodec

  // ---- Every table in use has a counted symbol ----

  /** Every component of the scan has a block in each MCU (per_scan_setup). */
  ghost predicate AllMembers(scan: Scan) {
    forall c :: 0 <= c < scan.ncomps ==> c in scan.members
  }

  ghost predicate HasSym(toks: seq<Token>, t: nat) {
    exists i :: 0 <= i < |toks| && toks[i].Sym? && toks[i].tbl == t
  }

  lemma HasSymJoin(a: seq<Token>, b: seq<Token>, t: nat)
    requires HasSym(a, t) || HasSym(b, t)
    ensures HasSym(a + b, t)
  {
    if HasSym(a, t) {
      var i :| 0 <= i < |a| && a[i].Sym? && a[i].tbl == t;
      assert (a + b)[i] == a[i];
    } else {
      var i :| 0 <= i < |b| && b[i].Sym? && b[i].tbl == t;
      assert (a + b)[|a| + i] == b[i];
    }
  }

  lemma FirstSym(toks: seq<Token>, t: nat)
    requires toks != [] && toks[0].Sym? && toks[0].tbl == t
    ensures HasSym(toks, t)
  {}

  lemma CoefSym(tbl: nat, r: nat, v: int)
    requires v != 0
    ensures CoefToks(tbl, r, v) != [] && HasSym(CoefToks(tbl, r, v), tbl)
  {
    FirstSym(CoefToks(tbl, r, v), tbl);
  }

  /** A band without a symbol ends in a run of zeros. */
  lemma {:induction false} AcSym(tbl: nat, blk: Block, k: nat, Se: nat, Al: nat, r: nat)
    requires Se < 64 && k <= Se + 1
    ensures var a := AcToks(tbl, blk, k, Se, Al, r); if a.0 == [] then a.1 == r + (Se + 1 - k) else HasSym(a.0, tbl)
    decreases Se + 1 - k
  {
    hide Shrink, CoefToks, HasSym;
    if k <= Se {
      var v := Shrink(blk[k], Al);
      if v == 0 {
        AcSym(tbl, blk, k + 1, Se, Al, r + 1);
      } else {
        CoefSym(tbl, r, v);
        HasSymJoin(CoefToks(tbl, r, v), AcToks(tbl, blk, k + 1, Se, Al, 0).0, tbl);
      }
    }
  }

  lemma {:induction false} RefineSym(tbl: nat, blk: Block, k: nat, Se: nat, Al: nat, eob: nat, r: nat, br: seq<Token>)
    requires Se < 64 && k <= Se + 1 && (k <= Se || r > 0 || br != [])
    ensures var b := RefineToks(tbl, blk, k, Se, Al, eob, r, br);
      && (b.pre == [] ==> b.more)
      && (b.pre != [] ==> HasSym(b.pre, tbl))
    decreases Se + 1 - k, r
  {
    hide AbsVal, HasSym;
    if k <= Se {
      var a := AbsVal(blk, k, Al);
      if a == 0 {
        RefineSym(tbl, blk, k + 1, Se, Al, eob, r + 1, br);
      } else if r > 15 && k <= eob {
        FirstSym(RefineToks(tbl, blk, k, Se, Al, eob, r, br).pre, tbl);
      } else if a > 1 {
        RefineSym(tbl, blk, k + 1, Se, Al, eob, r, br + [Raw(a % 2, 1)]);
      } else {
        FirstSym(RefineToks(tbl, blk, k, Se, Al, eob, r, br).pre, tbl);
      }
    }
  }

  lemma BandSym(scan: Scan, blk: Block)
    requires scan.Ok() && scan.mode in {AcFirst, AcRefine}
    ensures var b := BandOf(scan, blk); (b.pre == [] ==> b.more) && (b.pre != [] ==> HasSym(b.pre, RunTable(scan)))
  {
    hide AcToks, RefineToks, LastNew, HasSym;
    if scan.mode == AcFirst {
      var ac := AcToks(scan.AcTable(), blk, scan.Ss, scan.Se, scan.Al, 0);
      AcSym(scan.AcTable(), blk, scan.Ss, scan.Se, scan.Al, 0);
    } else {
      RefineSym(scan.AcTable(), blk, scan.Ss, scan.Se, scan.Al, LastNew(blk, scan.Se + 1, scan.Ss, scan.Al), 0, []);
    }
  }

  lemma BlockSym(scan: Scan, ci: nat, blk: Block, pred: int)
    requires scan.Ok() && ci < scan.ncomps && scan.mode in {Sequential, DcFirst}
    ensures HasSym(BlockToks(scan, ci, blk, pred), scan.dcTbl[ci])
    ensures scan.mode == Sequential ==> HasSym(BlockToks(scan, ci, blk, pred), scan.acTbl[ci])
  {
    hide AcToks, Sar, HasSym;
    var dc := DcToks(scan.dcTbl[ci], DcValue(scan, blk) - pred);
    FirstSym(BlockToks(scan, ci, blk, pred), scan.dcTbl[ci]);
    if scan.mode == Sequential {
      var ac := AcToks(scan.acTbl[ci], blk, 1, 63, 0, 0);
      AcSym(scan.acTbl[ci], blk, 1, 63, 0, 0);
      var eob := if ac.1 > 0 then [Sym(scan.acTbl[ci], 0)] else [];
      if ac.1 > 0 { FirstSym(eob, scan.acTbl[ci]); HasSymJoin(dc + ac.0, eob, scan.acTbl[ci]); }
      else { HasSymJoin(dc, ac.0, scan.acTbl[ci]); HasSymJoin(dc + ac.0, eob, scan.acTbl[ci]); }
    }
  }

  lemma {:induction false} McuSym(scan: Scan, mcu: seq<Block>, i: nat, last: seq<int>, j: nat)
    requires scan.Ok() && scan.mode in {Sequential, DcFirst} && |last| == scan.ncomps
    requires |mcu| == |scan.members| && j < i <= |mcu|
    ensures HasSym(McuToks(scan, mcu, i, last).0, scan.dcTbl[scan.members[j]])
    ensures scan.mode == Sequential ==> HasSym(McuToks(scan, mcu, i, last).0, scan.acTbl[scan.members[j]])
  {
    hide BlockToks, HasSym;
    var before := McuToks(scan, mcu, i - 1, last);
    var ci := scan.members[i - 1];
    var dc, ac := scan.dcTbl[scan.members[j]], scan.acTbl[scan.members[j]];
    if j < i - 1 { McuSym(scan, mcu, i - 1, last, j); } else { BlockSym(scan, ci, mcu[i - 1], before.1[ci]); }
    HasSymJoin(before.0, BlockToks(scan, ci, mcu[i - 1], before.1[ci]), dc);
    if scan.mode == Sequential { HasSymJoin(before.0, BlockToks(scan, ci, mcu[i - 1], before.1[ci]), ac); }
  }

  lemma RunSym(tbl: nat, n: nat, be: seq<Token>)
    requires n > 0
    ensures HasSym(RunToks(tbl, n, be), tbl)
  {
    FirstSym(RunToks(tbl, n, be), tbl);
  }

  /** After the last MCU and emit_eobrun, the current segment holds a symbol of each table in use. */
  lemma LastMcuSym(scan: Scan, st: EncSt, mcu: seq<Block>, t: nat)
    requires scan.Ok() && |mcu| == |scan.members| && |st.last| == scan.ncomps && AllMembers(scan) && UsesTable(scan, t)
    ensures HasSym(Flush(scan, Body(scan, st, mcu)).cur, t)
  {
    hide BandOf, McuToks, RunToks, RunTable, HasSym;
    if scan.mode in {AcFirst, AcRefine} {
      OnlyTable(scan, t);
      BandSym(scan, mcu[0]);
      BandEndsInSym(scan, st, BandOf(scan, mcu[0]));
    } else {
      var c := Component(scan, t);
      var j :| 0 <= j < |scan.members| && scan.members[j] == c;
      McuSym(scan, mcu, |mcu|, st.last, j);
      HasSymJoin(st.cur, McuToks(scan, mcu, |mcu|, st.last).0, t);
      var s := Body(scan, st, mcu);
      HasSymJoin(s.cur, RunToks(RunTable(scan), s.n, s.be), t);
    }
  }

  lemma OnlyTable(scan: Scan, t: nat)
    requires scan.Ok() && scan.mode in {AcFirst, AcRefine} && AllMembers(scan) && UsesTable(scan, t)
    ensures t == RunTable(scan)
  {
    var i :| 0 <= i < scan.ncomps && scan.acTbl[i] == t;
    assert i in scan.members;
  }

  lemma Component(scan: Scan, t: nat) returns (c: nat)
    requires scan.Ok() && scan.mode !in {AcFirst, AcRefine} && AllMembers(scan) && UsesTable(scan, t)
    ensures c < scan.ncomps && c in scan.members && scan.mode in {Sequential, DcFirst}
    ensures scan.dcTbl[c] == t || (scan.mode == Sequential && scan.acTbl[c] == t)
  {
    if scan.UsesDc() && exists i :: 0 <= i < scan.ncomps && scan.dcTbl[i] == t {
      c :| 0 <= c < scan.ncomps && scan.dcTbl[c] == t;
    } else {
      c :| 0 <= c < scan.ncomps && scan.acTbl[c] == t;
    }
  }

  lemma BandEndsInSym(scan: Scan, st: EncSt, b: BandToks)
    requires (b.pre == [] ==> b.more) && (b.pre != [] ==> HasSym(b.pre, RunTable(scan)))
    ensures HasSym(Flush(scan, AddBand(scan, st, b)).cur, RunTable(scan))
  {
    hide RunToks, RunTable, HasSym;
    var t := RunTable(scan);
    var s1 := if b.pre == [] then st else var f := Flush(scan, st); f.(cur := f.cur + b.pre);
    var s := AddBand(scan, st, b);
    if b.more {
      RunSym(t, s1.n + 1, s1.be + b.tail);
      HasSymJoin(s1.cur, RunToks(t, s1.n + 1, s1.be + b.tail), t);
      HasSymJoin(s.cur, RunToks(t, s.n, s.be), t);
    } else {
      HasSymJoin(Flush(scan, st).cur, b.pre, t);
      HasSymJoin(s.cur, RunToks(t, s.n, s.be), t);
    }
  }

  /** A table that a scan of at least one MCU uses has a counted symbol. */
  lemma {:induction false} TableIsUsed(scan: Scan, mcus: seq<seq<Block>>, t: nat)
    requires scan.Ok() && Mcus(scan, mcus) && AllFit(scan, mcus) && mcus != [] && AllMembers(scan) && UsesTable(scan, t)
    ensures exists s: nat :: s < 256 && Uses(scan, mcus, t, s) > 0
  {
    hide Body, Flush, RunToks, RunTable, AllFit, UsesTable;
    var n := |mcus| - 1;
    var st := BeginMcu(scan, Run(scan, mcus[..n]));
    LastMcuSym(scan, st, mcus[n], t);
    FlushEnd(scan, Body(scan, st, mcus[n]));
    var f := Flush(scan, Run(scan, mcus));
    var i :| 0 <= i < |f.cur| && f.cur[i].Sym? && f.cur[i].tbl == t;
    var s := f.cur[i].s;
    assert Sym(t, s) in Joined(f.segs) + f.cur;
    UsesAreProper(scan, mcus, t, s);
  }

  /** end_mcu touches only the restart countdown. */
  lemma FlushEnd(scan: Scan, st: EncSt)
    ensures Flush(scan, EndMcu(scan, st)).cur == Flush(scan, st).cur
  {}

  // ---- The demands of jpeg_gen_optimal_table ----

  /** The counts of table t after the statistics pass. */
  ghost function UseCounts(scan: Scan, mcus: seq<seq<Block>>, t: nat): (freq: seq<nat>)
    requires scan.Ok() && Mcus(scan, mcus)
    ensures CountsOf(scan, mcus, t, freq)
  {
    hide Uses;
    seq(SYMBOLS, s requires 0 <= s < SYMBOLS => if s < 256 then Uses(scan, mcus, t, s) else 0)
  }

  /** All symbols of table t that the scan emits, with repetition. */
  ghost function Total(scan: Scan, mcus: seq<seq<Block>>, t: nat): nat
    requires scan.Ok() && Mcus(scan, mcus)
  {
    SumTo(UseCounts(scan, mcus, t), 256)
  }

  lemma {:induction false} TwoUnused(freq: seq<nat>, n: nat)
    requires 31 < |freq| && n <= |freq| && freq[15] == freq[31] == 0
    ensures Roots(freq, n) <= n - (if n > 15 then 1 else 0) - (if n > 31 then 1 else 0)
  {
    if n > 0 { TwoUnused(freq, n - 1); }
  }

  /** No scan emits the symbols 15 and 31: a size never exceeds 11 for DC, 10 for AC. So at most 254
      symbols are counted, and what the statistics pass leaves can be given to jpeg_gen_optimal_table. */
  lemma {:induction false} CountsAreGathered(scan: Scan, mcus: seq<seq<Block>>, t: nat, freq: seq<nat>)
    requires scan.Ok() && Mcus(scan, mcus) && AllFit(scan, mcus) && mcus != [] && AllMembers(scan) && UsesTable(scan, t)
    requires CountsOf(scan, mcus, t, freq) && SumTo(freq, 256) <= SENTINEL
    ensures Gathered(freq)
  {
    hide Uses, AllFit, UsesTable, SumTo, Roots, AllMembers;
    TableIsUsed(scan, mcus, t);
    var s: nat :| s < 256 && Uses(scan, mcus, t, s) > 0;
    assert Counted(freq, s);
    SizeUnused(scan, mcus, t, 15);
    SizeUnused(scan, mcus, t, 31);
    TwoUnused(freq, 256);
  }

  lemma {:induction false} SizeUnused(scan: Scan, mcus: seq<seq<Block>>, t: nat, s: nat)
    requires scan.Ok() && Mcus(scan, mcus) && AllFit(scan, mcus) && s in {15, 31}
    ensures Uses(scan, mcus, t, s) == 0
  {
    hide Uses, AllFit;
    if Uses(scan, mcus, t, s) > 0 {
      UsesAreProper(scan, mcus, t, s);
      assert false;
    }
  }

  lemma {:induction false} SameTotal(scan: Scan, mcus: seq<seq<Block>>, t: nat, freq: seq<nat>)
    requires scan.Ok() && Mcus(scan, mcus) && CountsOf(scan, mcus, t, freq)
    ensures SumTo(freq, 256) == Total(scan, mcus, t)
    ensures freq[256 := 1] == UseCounts(scan, mcus, t)[256 := 1]
  {
    hide Uses;
    SumSame(freq, UseCounts(scan, mcus, t), 256);
  }

  // ---- Generating the tables ----

  /** DC and AC tables are kept apart (dc_huff_tbl_ptrs, ac_huff_tbl_ptrs). */
  ghost predicate Separate(scan: Scan)
    requires scan.Ok()
  {
    scan.mode == Sequential ==> forall i, j :: 0 <= i < scan.ncomps && 0 <= j < scan.ncomps ==>
      scan.dcTbl[i] != scan.acTbl[j]
  }

  ghost predicate DcSlot(scan: Scan, t: nat)
    requires scan.Ok()
  {
    scan.UsesDc() && exists i :: 0 <= i < scan.ncomps && scan.dcTbl[i] == t
  }

  /** The lengths are those of a shortest code for the counts, limited; if they are not above 16, every counted symbol
      is sent in just as many bits. */
  ghost predicate HuffmanCoded(freq: seq<nat>, tab: Tab)
    requires |freq| == SYMBOLS
  {
    exists codesizes: seq<nat> :: |codesizes| == SYMBOLS && CodedWith(freq, tab, codesizes)
  }

  ghost predicate CodedWith(freq: seq<nat>, tab: Tab, codesizes: seq<nat>)
    requires |freq| == |codesizes| == SYMBOLS
  {
    && ShortestCode(freq[256 := 1], codesizes) && FromLengths(codesizes, tab.h.bits)
    && (codesizes[256] <= 16 ==> forall s: nat :: Counted(freq, s) ==>
          s < |tab.c.ehufsi| && tab.c.ehufsi[s] == codesizes[s])
  }

  /** A legal table for exactly the symbols that the scan emits from slot t, derived for the encoder
      and for the decoder, with the lengths of Huffman's procedure. */
  ghost predicate OptimalTab(scan: Scan, mcus: seq<seq<Block>>, t: nat, tab: Tab)
    requires scan.Ok() && Mcus(scan, mcus)
  {
    && TableFor(UseCounts(scan, mcus, t), tab.h) && TableOk(tab.h, tab.d) && Encodes(tab.h, tab.c)
    && (DcSlot(scan, t) ==> DcTable(tab.h)) && HuffmanCoded(UseCounts(scan, mcus, t), tab)
  }

  ghost predicate Optimized(scan: Scan, mcus: seq<seq<Block>>, tabs: seq<Tab>, t: nat)
    requires scan.Ok() && Mcus(scan, mcus)
  {
    t < |tabs| && OptimalTab(scan, mcus, t, tabs[t])
  }

  /** Huffman's procedure gives some symbol of table t a code of more than 32 bits. */
  ghost predicate TooLong(scan: Scan, mcus: seq<seq<Block>>, t: nat, codesizes: seq<nat>)
    requires scan.Ok() && Mcus(scan, mcus)
  {
    && |codesizes| == SYMBOLS && ShortestCode(UseCounts(scan, mcus, t)[256 := 1], codesizes)
    && exists s :: 0 <= s < SYMBOLS && codesizes[s] > MAX_CLEN
  }

  lemma {:induction false} DcCounts(scan: Scan, mcus: seq<seq<Block>>, t: nat, freq: seq<nat>)
    requires scan.Ok() && Mcus(scan, mcus) && AllFit(scan, mcus) && Separate(scan) && DcSlot(scan, t)
    requires CountsOf(scan, mcus, t, freq)
    ensures forall s :: Counted(freq, s) ==> s <= 15
  {
    hide Uses, AllFit;
    forall s | Counted(freq, s) ensures s <= 15 {
      UsesAreProper(scan, mcus, t, s);
    }
  }

  /** The MCUs of a scan that can be coded in two passes. The search sentinel of jpeg_gen_optimal_table
      limits the number of symbols to 10^9. */
  ghost predicate Codable(scan: Scan, mcus: seq<seq<Block>>) {
    && scan.Ok() && Mcus(scan, mcus) && mcus != [] && AllMembers(scan) && Separate(scan)
    && forall t: nat :: UsesTable(scan, t) ==> Total(scan, mcus, t) <= SENTINEL
  }

  /** One call of jpeg_gen_optimal_table, then the derivation of the table for the encoder and for the
      decoder, neither of which rejects it. */
  method GenerateTable(scan: Scan, count_ptr: array<nat>, t: nat, isDC: bool, htbl: HuffTbl, ghost all: seq<seq<Block>>)
    returns (r: Option<Tab>, ghost codesizes: seq<nat>)
    requires Codable(scan, all) && AllFit(scan, all) && UsesTable(scan, t) && htbl.WellTyped()
    requires CountsOf(scan, all, t, count_ptr[..]) && (isDC <==> DcSlot(scan, t))
    modifies count_ptr
    ensures r.Some? ==> OptimalTab(scan, all, t, r.value)
    ensures r.None? ==> TooLong(scan, all, t, codesizes) && Total(scan, all, t) >= OVERFLOW_TOTAL
  {
    hide Uses, AllFit, Gathered, ShortestCode, Ordered, UsedSum, SumTo, TableFor, EncoderAccepts, DecoderAccepts,
         Encodes, Decodes;
    hide AllMembers, Separate, Total, DcSlot, UsesTable, Legal;
    ghost var freq := count_ptr[..];
    SameTotal(scan, all, t, freq);
    CountsAreGathered(scan, all, t, freq);
    var ok, h;
    ok, h, codesizes := GenOptimalTable(count_ptr, htbl);
    if !ok {
      return None, codesizes;
    }
    if isDC { DcCounts(scan, all, t, freq); }
    TableAccepted(freq, h, isDC);
    TableFacts(scan, all, t, freq, h, isDC);
    var c := MakeCDerived(h, isDC);
    var d := MakeDDerived(h, isDC);
    r := Some(Tab(h, c.value, d.value));
    IsHuffmanCoded(freq, r.value, codesizes);
    SameCounts(scan, all, t, freq);
    assert CodedWith(UseCounts(scan, all, t), r.value, codesizes);
  }

  lemma SameCounts(scan: Scan, mcus: seq<seq<Block>>, t: nat, freq: seq<nat>)
    requires scan.Ok() && Mcus(scan, mcus) && CountsOf(scan, mcus, t, freq)
    ensures UseCounts(scan, mcus, t)[256 := 1] == freq[256 := 1]
    ensures forall s: nat :: Counted(freq, s) <==> Counted(UseCounts(scan, mcus, t), s)
  {
    hide Uses;
  }

  lemma IsHuffmanCoded(freq: seq<nat>, tab: Tab, codesizes: seq<nat>)
    requires |freq| == |codesizes| == SYMBOLS && ShortestCode(freq[256 := 1], codesizes)
    requires FromLengths(codesizes, tab.h.bits) && TableFor(freq, tab.h) && Count(tab.h.bits, 16) <= 256
    requires Encodes(tab.h, tab.c) && (codesizes[256] <= 16 ==> OwnLengths(codesizes, tab.h))
    ensures CodedWith(freq, tab, codesizes)
  {
    hide TableFor, Encodes, OwnLengths, ShortestCode, FromLengths;
    if codesizes[256] <= 16 {
      forall s: nat | Counted(freq, s) ensures s < |tab.c.ehufsi| && tab.c.ehufsi[s] == codesizes[s] {
        SentInOwnLength(freq, codesizes, tab.h, tab.c, s);
      }
    }
  }

  lemma {:induction false} TableFacts(scan: Scan, mcus: seq<seq<Block>>, t: nat, freq: seq<nat>, h: HuffTbl, isDC: bool)
    requires scan.Ok() && Mcus(scan, mcus) && CountsOf(scan, mcus, t, freq) && TableFor(freq, h)
    requires DecoderAccepts(h, isDC)
    ensures TableFor(UseCounts(scan, mcus, t), h) && h.WellTyped() && Legal(h.bits) && Count(h.bits, 16) <= 256
    ensures isDC ==> DcTable(h)
  {
    hide Uses, Legal;
    SomeCount(h.bits);
    var counts := UseCounts(scan, mcus, t);
    forall s: nat ensures Counted(freq, s) <==> Counted(counts, s) {}
  }

  ghost predicate AllTyped(tabs: seq<Tab>) {
    forall t :: 0 <= t < |tabs| ==> tabs[t].h.WellTyped()
  }

  /** The statistics pass is over. */
  ghost predicate Gathering(scan: Scan, all: seq<seq<Block>>, counts: array2<nat>)
    reads counts
  {
    && Codable(scan, all) && AllFit(scan, all) && counts.Length1 == SYMBOLS && TablesBelow(scan, counts.Length0)
    && forall t, s :: 0 <= t < counts.Length0 && 0 <= s < 256 ==> counts[t, s] == Uses(scan, all, t, s)
  }

  /** The slots in did are used by the scan and hold their optimal tables. */
  ghost predicate DidSo(scan: Scan, all: seq<seq<Block>>, did: set<nat>, tabs: seq<Tab>)
    requires scan.Ok() && Mcus(scan, all)
  {
    AllTyped(tabs) && forall t :: t in did ==> Optimized(scan, all, tabs, t)
  }

  /** Huffman's procedure fails for a table of the scan. */
  ghost predicate Overflows(scan: Scan, all: seq<seq<Block>>)
    requires scan.Ok() && Mcus(scan, all)
  {
    exists t: nat, codesizes :: UsesTable(scan, t) && TooLong(scan, all, t, codesizes)
      && Total(scan, all, t) >= OVERFLOW_TOTAL
  }

  method CopyCounts(counts: array2<nat>, t: nat) returns (count_ptr: array<nat>)
    requires t < counts.Length0 && counts.Length1 == SYMBOLS
    ensures fresh(count_ptr) && count_ptr.Length == SYMBOLS && forall s :: 0 <= s < SYMBOLS ==>
      count_ptr[s] == counts[t, s]
  {
    count_ptr := new nat[SYMBOLS];
    for s := 0 to SYMBOLS
      invariant forall i :: 0 <= i < s ==> count_ptr[i] == counts[t, i]
    {
      count_ptr[s] := counts[t, s];
    }
  }

  /** One table of finish_pass_gather, unless it has been done; "It's important not to apply
      jpeg_gen_optimal_table more than once per table". */
  method OptimizeTable(scan: Scan, counts: array2<nat>, t: nat, isDC: bool, did0: set<nat>, tabs0: seq<Tab>,
                       ghost all: seq<seq<Block>>)
    returns (ok: bool, did: set<nat>, tabs: seq<Tab>)
    requires Gathering(scan, all, counts) && |tabs0| == counts.Length0 && DidSo(scan, all, did0, tabs0)
    requires UsesTable(scan, t) && t < |tabs0| && (isDC <==> DcSlot(scan, t))
    ensures ok ==> |tabs| == |tabs0| && did == did0 + {t} && DidSo(scan, all, did, tabs)
    ensures ok ==> forall u :: 0 <= u < |tabs| && u != t ==> tabs[u] == tabs0[u]
    ensures !ok ==> Overflows(scan, all)
  {
    hide Uses, AllFit, UsesTable, OptimalTab, DcSlot, TooLong, Total, AllMembers, Separate, TablesBelow;
    did, tabs := did0 + {t}, tabs0;
    if t in did0 {
      return true, did, tabs;
    }
    var count_ptr := CopyCounts(counts, t);
    var r;
    ghost var codesizes;
    r, codesizes := GenerateTable(scan, count_ptr, t, isDC, tabs0[t].h, all);
    if r.None? {
      return false, did, tabs;
    }
    TabTyped(scan, all, t, r.value);
    tabs := tabs[t := r.value];
    ok := true;
  }

  lemma TabTyped(scan: Scan, mcus: seq<seq<Block>>, t: nat, tab: Tab)
    requires scan.Ok() && Mcus(scan, mcus) && OptimalTab(scan, mcus, t, tab)
    ensures tab.h.WellTyped()
  {}

  /** The loop of finish_pass_gather: an optimal table for every slot that the scan uses. */
  method OptimizeTables(scan: Scan, counts: array2<nat>, tabs0: seq<Tab>, ghost all: seq<seq<Block>>)
    returns (ok: bool, tabs: seq<Tab>)
    requires Gathering(scan, all, counts) && |tabs0| == counts.Length0 && AllTyped(tabs0)
    ensures ok ==> |tabs| == |tabs0| && forall t: nat :: UsesTable(scan, t) ==> Optimized(scan, all, tabs, t)
    ensures ok ==> forall u: nat :: u < |tabs| && !UsesTable(scan, u) ==> tabs[u] == tabs0[u]
    ensures !ok ==> Overflows(scan, all)
  {
    hide Uses, AllFit, Optimized, AllTyped, Overflows, Codable;
    var did: set<nat> := {};
    tabs := tabs0;
    CodableOk(scan, all);
    for ci := 0 to scan.ncomps
      invariant |tabs| == |tabs0| && DidSo(scan, all, did, tabs)
      invariant scan.UsesDc() ==> forall i :: 0 <= i < ci ==> scan.dcTbl[i] in did
      invariant scan.UsesAc() ==> forall i :: 0 <= i < ci ==> scan.acTbl[i] in did
      invariant forall u: nat :: u < |tabs| && !UsesTable(scan, u) ==> tabs[u] == tabs0[u]
    {
      if scan.UsesDc() {
        assert UsesTable(scan, scan.dcTbl[ci]);
        ok, did, tabs := OptimizeTable(scan, counts, scan.dcTbl[ci], true, did, tabs, all);
        if !ok {
          return;
        }
      }
      if scan.UsesAc() {
        assert UsesTable(scan, scan.acTbl[ci]);
        assert !DcSlot(scan, scan.acTbl[ci]);
        ok, did, tabs := OptimizeTable(scan, counts, scan.acTbl[ci], false, did, tabs, all);
        if !ok {
          return;
        }
      }
    }
    ok := true;
  }

  lemma CodableOk(scan: Scan, mcus: seq<seq<Block>>)
    requires Codable(scan, mcus)
    ensures scan.Ok() && Mcus(scan, mcus) && Separate(scan)
  {}

  // ---- Both passes ----

  /** Optimal tables serve the output pass, and the decoder. */
  lemma {:induction false} OptimizedServe(scan: Scan, tabs: seq<Tab>, mcus: seq<seq<Block>>)
    requires scan.Ok() && Mcus(scan, mcus) && AllFit(scan, mcus)
    requires forall t: nat :: UsesTable(scan, t) ==> Optimized(scan, mcus, tabs, t)
    ensures EncoderTables(scan, tabs) && TabsOk(scan, tabs)
    ensures forall i :: 0 <= i < |Segments(scan, mcus)| ==> AllEmittable(tabs, Segments(scan, mcus)[i])
  {
    hide Uses, AllFit, TableFor, TableOk, Encodes, Segments, AllEmittable, DcTable;
    forall i | 0 <= i < scan.ncomps
      ensures scan.UsesDc() ==> Optimized(scan, mcus, tabs, scan.dcTbl[i])
      ensures scan.UsesAc() ==> Optimized(scan, mcus, tabs, scan.acTbl[i])
    {
      assert scan.UsesDc() ==> UsesTable(scan, scan.dcTbl[i]);
      assert scan.UsesAc() ==> UsesTable(scan, scan.acTbl[i]);
    }
    var freqs := seq(|tabs|, t requires 0 <= t < |tabs| => UseCounts(scan, mcus, t));
    OptimizedOutputSucceeds(scan, tabs, mcus, freqs);
  }

  /** The statistics pass and its end: it fails only for a coefficient out of range, or if Huffman's procedure gives
      a code of more than 32 bits, which takes more than nine million symbols; otherwise every table that the scan
      uses is optimal, and the others are as before. */
  method OptimizeScan(scan: Scan, tabs0: seq<Tab>, mcus: seq<seq<array<int>>>, ghost all: seq<seq<Block>>)
    returns (ok: bool, tabs: seq<Tab>)
    requires Codable(scan, all) && Holding(mcus, all) && TablesBelow(scan, |tabs0|) && AllTyped(tabs0)
    ensures !ok ==> !AllFit(scan, all) || Overflows(scan, all)
    ensures ok ==> AllFit(scan, all) && forall t: nat :: UsesTable(scan, t) ==> Optimized(scan, all, tabs, t)
    ensures ok ==> |tabs| == |tabs0| && forall u: nat :: u < |tabs| && !UsesTable(scan, u) ==> tabs[u] == tabs0[u]
  {
    hide Uses, AllFit, UsesTable, Optimized, Overflows, AllTyped;
    CodableOk(scan, all);
    var unused := new BitWriter();
    var gatherer := new EntropyEncoder(scan, tabs0, true, unused, |tabs0|);
    ok := GatherScan(gatherer, mcus, all);
    tabs := tabs0;
    if !ok {
      return;
    }
    ok, tabs := OptimizeTables(scan, gatherer.counts, tabs0, all);
  }

  /** Two-pass coding: what it writes, with any marker behind it, restores the blocks. */
  method TwoPassScan(scan: Scan, tabs0: seq<Tab>, writer: BitWriter, mcus: seq<seq<array<int>>>,
                     ghost all: seq<seq<Block>>)
    returns (ok: bool, tabs: seq<Tab>)
    requires Codable(scan, all) && Holding(mcus, all) && TablesBelow(scan, |tabs0|) && AllTyped(tabs0)
    requires writer.Valid() && writer.bits == []
    modifies writer
    ensures !ok ==> !AllFit(scan, all) || Overflows(scan, all)
    ensures ok ==> AllFit(scan, all) && forall t: nat :: UsesTable(scan, t) ==> Optimized(scan, all, tabs, t)
    ensures ok ==>
      writer.Valid() && writer.bits == [] && writer.out == old(writer.out) + ScanBytes(tabs, Segments(scan, all))
    ensures ok && Bytes(old(writer.out)) ==> Restorable(scan, tabs, all, old(writer.out), writer.out)
  {
    hide Uses, AllFit, UsesTable, Optimized, Overflows, Segments, AllEmittable, EncoderTables, TabsOk, Run,
         BitWriter.Valid, AllTyped, Restorable, Bytes;
    CodableOk(scan, all);
    ok, tabs := OptimizeScan(scan, tabs0, mcus, all);
    if !ok {
      return;
    }
    OptimizedServe(scan, tabs, all);
    var enc := new EntropyEncoder(scan, tabs, false, writer, 0);
    ok := OutputScan(enc, mcus, all);
  }
}
