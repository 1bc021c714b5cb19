/** The MCU encoders of jchuff.c and jcphuff.c in their imperative form, for the statistics pass
    and for the output pass. Each routine is proved equal to the token-level encoder of Coding. */
module McuEncoder {
  import opened Bits
  import opened Coefficients
  import opened HuffmanTables
  import opened DerivedTables
  import opened BitWriter
  import opened Coding
  import opened BitReader
  import opened Decoding
  import opened TokenBits
  import opened TokenRoundTrip
  import opened SegmentRoundTrip
  import opened ScanRoundTrip
  import opened McuDecoding
  import opened McuDecoder

  /** All tokens emitted so far. */
  function Joined(segs: seq<seq<Token>>): seq<Token> {
    if segs == [] then [] else Joined(segs[..|segs| - 1]) + segs[|segs| - 1]
  }

  /** How many of the tokens are the symbol s of table t. */
  function Tally(segs: seq<seq<Token>>, cur: seq<Token>, t: nat, s: nat): nat {
    multiset(Joined(segs) + cur)[Sym(t, s)]
  }

  lemma TallyMore(segs: seq<seq<Token>>, cur: seq<Token>, more: seq<Token>, t: nat, s: nat)
    ensures Tally(segs, cur + more, t, s) == Tally(segs, cur, t, s) + multiset(more)[Sym(t, s)]
  {
    assert Joined(segs) + (cur + more) == Joined(segs) + cur + more;
  }

  lemma TallyClosed(segs: seq<seq<Token>>, cur: seq<Token>, t: nat, s: nat)
    ensures Tally(segs + [cur], [], t, s) == Tally(segs, cur, t, s)
  {
    assert (segs + [cur])[..|segs|] == segs;
    assert Joined(segs) + cur + [] == Joined(segs) + cur;
  }

  ghost predicate AllWritten(tabs: seq<Tab>, segs: seq<seq<Token>>) {
    forall i :: 0 <= i < |segs| ==> AllEmittable(tabs, segs[i])
  }

  /** Every token emitted so far has a code. */
  ghost predicate Written(tabs: seq<Tab>, st: EncSt) {
    AllEmittable(tabs, st.cur) && AllWritten(tabs, st.segs)
  }

  /** The tables that the scan uses are there; a DC refinement scan needs none. */
  ghost predicate EncoderTables(scan: Scan, tabs: seq<Tab>)
    requires scan.Ok()
  {
    && (scan.UsesDc() ==> forall i :: 0 <= i < scan.ncomps ==> SlotOk(tabs, scan.dcTbl[i]))
    && (scan.UsesAc() ==> forall i :: 0 <= i < scan.ncomps ==> SlotOk(tabs, scan.acTbl[i]))
  }

  ghost predicate TablesBelow(scan: Scan, n: nat)
    requires scan.Ok()
  {
    && (scan.UsesDc() ==> forall i :: 0 <= i < scan.ncomps ==> scan.dcTbl[i] < n)
    && (scan.UsesAc() ==> forall i :: 0 <= i < scan.ncomps ==> scan.acTbl[i] < n)
  }

  /** The correction bits in the buffer. */
  function BitToks(bits: seq<nat>): (toks: seq<Token>)
    ensures |toks| == |bits|
  {
    seq(|bits|, i requires 0 <= i < |bits| => Raw(bits[i], 1))
  }

  /** The conversion of an int to unsigned. */
  function Unsigned(x: int): nat {
    x % 0x1_0000_0000
  }

  /** A code longer than 16 bits does not occur. */
  lemma CodeSize(tabs: seq<Tab>, tbl: nat, s: nat)
    requires SlotOk(tabs, tbl) && s < 256
    ensures tbl < |tabs| && |tabs[tbl].c.ehufsi| == |tabs[tbl].c.ehufco| == 256 && tabs[tbl].c.ehufsi[s] <= 16
    ensures Emittable(tabs, Sym(tbl, s)) <==> tabs[tbl].c.ehufsi[s] > 0
  {
    hide TableOk, Legal;
    if tabs[tbl].c.ehufsi[s] > 0 {
      SlotLegal(tabs, tbl);
      var p, l := SymbolCode(tabs, Sym(tbl, s));
      assert |TokBits(tabs, Sym(tbl, s))| == l;
    }
  }

  lemma SlotLegal(tabs: seq<Tab>, tbl: nat)
    requires SlotOk(tabs, tbl)
    ensures tabs[tbl].h.WellTyped() && Count(tabs[tbl].h.bits, 16) <= 256 && Encodes(tabs[tbl].h, tabs[tbl].c)
  {}

  lemma {:induction false} FlattenSnoc(tabs: seq<Tab>, toks: seq<Token>, t: Token)
    ensures Flatten(tabs, toks + [t]) == Flatten(tabs, toks) + TokBits(tabs, t)
  {
    FlattenConcat(tabs, toks, [t]);
    FlattenOne(tabs, t);
  }

  /** while (temp) { nbits++; temp >>= 1; } */
  method MagnitudeBits(temp0: nat) returns (nbits: nat)
    ensures nbits == NBits(temp0)
  {
    nbits := 0;
    var temp := temp0;
    while temp != 0
      invariant NBits(temp0) == nbits + NBits(temp)
    {
      nbits := nbits + 1;
      temp := temp / 2;
    }
  }

  class EntropyEncoder {
    const scan: Scan
    const tabs: seq<Tab>
    const gather_statistics: bool
    const writer: BitWriter
    const counts: array2<nat>       // count_ptrs[tbl][symbol]
    const bit_buffer: array<nat>    // correction bits
    var EOBRUN: nat
    var BE: nat
    var last_dc_val: seq<int>
    var restarts_to_go: nat
    var next_restart_num: nat
    ghost const start: seq<nat>     // bytes written before the scan
    ghost var st: EncSt             // the token-level encoder

    /** The output side: the bytes of the closed segments and the bits of the current one. */
    ghost predicate Output(segs: seq<seq<Token>>, cur: seq<Token>)
      reads writer
    {
      && writer.Valid() && writer.base == start + ClosedBytes(tabs, segs) && writer.bits == Flatten(tabs, cur)
      && AllEmittable(tabs, cur) && AllWritten(tabs, segs)
    }

    /** The statistics: how often each symbol has been emitted. */
    ghost predicate Tallied(segs: seq<seq<Token>>, cur: seq<Token>)
      reads counts
    {
      && counts.Length1 == 257
      && forall t, s :: 0 <= t < counts.Length0 && 0 <= s < 256 ==> counts[t, s] == Tally(segs, cur, t, s)
    }

    ghost predicate Buffered()
      reads this, bit_buffer
    {
      bit_buffer.Length == MAX_CORR_BITS && BE <= MAX_CORR_BITS && st.be == BitToks(bit_buffer[..BE])
    }

    /** What holds at every moment of a pass. */
    ghost predicate Going()
      reads this, writer, counts, bit_buffer
    {
      && scan.Ok()
      && (if gather_statistics then Tallied(st.segs, st.cur) && TablesBelow(scan, counts.Length0)
          else Output(st.segs, st.cur) && EncoderTables(scan, tabs))
      && Buffered() && st.n == EOBRUN && st.last == last_dc_val && |last_dc_val| == scan.ncomps
      && (scan.Ss > 0 ==> last_dc_val == NoPredictions(scan)) && (EOBRUN > 0 ==> scan.mode in {AcFirst, AcRefine})
      && (scan.mode == AcRefine || BE == 0)
    }

    /** What holds between MCUs: the pending run and its correction bits are within their limits. */
    ghost predicate Valid()
      reads this, writer, counts, bit_buffer
    {
      Going() && RunBounded(st) && st.togo == restarts_to_go && next_restart_num == |st.segs| % 8
    }

    /** start_pass_huff and start_pass_phuff, the tables having been derived. */
    constructor (scan: Scan, tabs: seq<Tab>, gather_statistics: bool, writer: BitWriter, tables: nat)
      requires scan.Ok() && (if gather_statistics then TablesBelow(scan, tables) else EncoderTables(scan, tabs))
      requires writer.Valid() && writer.bits == []
      ensures Valid() && st == Start(scan) && start == writer.out && fresh(counts) && fresh(bit_buffer)
      ensures this.scan == scan && this.tabs == tabs && this.gather_statistics == gather_statistics
      ensures this.writer == writer && counts.Length0 == tables
    {
      this.scan, this.tabs, this.gather_statistics, this.writer := scan, tabs, gather_statistics, writer;
      counts := new nat[tables, 257]((i, j) => 0);
      bit_buffer := new nat[MAX_CORR_BITS];
      EOBRUN, BE := 0, 0;
      last_dc_val := NoPredictions(scan);
      restarts_to_go, next_restart_num := scan.ri, 0;
      start, st := writer.out, Start(scan);
      new;
      hide BitWriter.Valid, EncoderTables, TablesBelow, SlotOk, Scan.Ok, Tally, ClosedBytes, Flatten, Joined, BitToks;
      EmptySlice(bit_buffer[..], 0);
      assert bit_buffer[..0] == bit_buffer[..][0..0 + 0];
      FreshWriter(writer);
      NothingYet(tabs, start);
    }

    /** Only the current segment grows. */
    twostate predicate Adds(toks: seq<Token>)
      reads this
    {
      st == old(st).(cur := old(st.cur) + toks)
    }

    /** emit_symbol */
    method EmitSymbol(tbl: nat, symbol: nat) returns (ok: bool)
      requires Going() && symbol < 256
      requires if gather_statistics then tbl < counts.Length0 else SlotOk(tabs, tbl)
      modifies this`st, writer, counts
      ensures ok <==> gather_statistics || Emittable(tabs, Sym(tbl, symbol))
      ensures ok ==> Going() && Adds([Sym(tbl, symbol)])
    {
      hide Flatten, ClosedBytes, BitWriter.Valid, TablesBelow, EncoderTables, Emittable, TokBits, SlotOk, BitToks,
           Tally, AllWritten;
      ghost var t := Sym(tbl, symbol);
      if gather_statistics {
        counts[tbl, symbol] := counts[tbl, symbol] + 1;
        forall u, s ensures Tally(st.segs, st.cur + [t], u, s) == Tally(st.segs, st.cur, u, s) + if t == Sym(u, s)
          then 1 else 0 {
          TallyMore(st.segs, st.cur, [t], u, s);
        }
        ok := true;
      } else {
        CodeSize(tabs, tbl, symbol);
        var tab := tabs[tbl].c;
        ok := writer.EmitBits(tab.ehufco[symbol], tab.ehufsi[symbol]);
        if !ok {
          return;
        }
        FlattenSnoc(tabs, st.cur, t);
        SymBits(tabs, tbl, symbol);
      }
      st := st.(cur := st.cur + [t]);
    }

    /** emit_bits, for 1 to 16 bits; v names the bits that are really sent. */
    method EmitBits(code: nat, size: nat, ghost v: nat)
      requires Going() && 1 <= size <= 16 && BitsOf(code, size) == BitsOf(v, size)
      modifies this`st, writer
      ensures Going() && Adds([Raw(v, size)])
    {
      hide Flatten, ClosedBytes, BitWriter.Valid, TablesBelow, EncoderTables, TokBits, BitsOf, BitToks, Tally,
           AllWritten;
      ghost var t := Raw(v, size);
      if !gather_statistics {
        var ok := writer.EmitBits(code, size);
        FlattenSnoc(tabs, st.cur, t);
        RawBits(tabs, v, size);
      } else {
        CountNothing(st.segs, st.cur, [t]);
      }
      st := st.(cur := st.cur + [t]);
    }

    /** emit_buffered_bits */
    method EmitBufferedBits(bufstart: nat, nbits: nat)
      requires Going() && bufstart + nbits <= bit_buffer.Length
      modifies this`st, writer
      ensures Going() && Adds(BitToks(bit_buffer[bufstart..bufstart + nbits]))
    {
      hide Flatten, ClosedBytes, BitWriter.Valid, TablesBelow, EncoderTables, Output, Tally;
      ghost var all := bit_buffer[bufstart..bufstart + nbits];
      if gather_statistics {
        CountNothing(st.segs, st.cur, BitToks(all));
        st := st.(cur := st.cur + BitToks(all));
        return;
      }
      hide Tallied;
      var i := 0;
      assert st.cur + BitToks(all[..0]) == st.cur;
      while i < nbits
        invariant i <= nbits && Going() && Adds(BitToks(all[..i]))
      {
        EmitBits(bit_buffer[bufstart + i], 1, bit_buffer[bufstart + i]);
        assert BitToks(all[..i]) + [Raw(all[i], 1)] == BitToks(all[..i + 1]);
        assert old(st.cur) + BitToks(all[..i]) + [Raw(all[i], 1)] == old(st.cur) + BitToks(all[..i + 1]);
        i := i + 1;
      }
      assert all[..nbits] == all;
    }

    /** The first half of emit_eobrun: the symbol for the size of the run, then its low-order bits. */
    method EmitRunLength() returns (ok: bool)
      requires Going() && 0 < EOBRUN <= 0x7FFF && scan.mode in {AcFirst, AcRefine}
      modifies this`st, writer, counts
      ensures ok <==> gather_statistics || Emittable(tabs, Sym(RunTable(scan), 16 * (NBits(EOBRUN) - 1)))
      ensures ok ==> Going() && Adds(EobToks(RunTable(scan), EOBRUN))
    {
      hide Flatten, ClosedBytes, BitWriter.Valid, TablesBelow, EncoderTables, Output, Tallied, NBits, Low, BitsOf,
           Emittable, Scan.Ok, Buffered, RunTable, EobToks, Pow2;
      var tbl := RunTable(scan);
      var nbits := MagnitudeBits(EOBRUN / 2);
      RunSize(EOBRUN, nbits);
      RunSlot(scan, tabs, counts.Length0);
      ok := EmitSymbol(tbl, 16 * nbits);
      if !ok {
        return;
      }
      if nbits > 0 {
        BitsLow(EOBRUN, nbits, nbits);
        EmitBits(EOBRUN, nbits, Low(EOBRUN, nbits));
      }
      EobParts(old(st.cur), tbl, EOBRUN, nbits);
    }

    /** emit_eobrun; its check for more than 14 bits cannot fail. */
    method EmitEobrun() returns (ok: bool)
      requires Going() && EOBRUN <= 0x7FFF
      modifies this`st, this`EOBRUN, this`BE, writer, counts
      ensures ok <==> gather_statistics || AllEmittable(tabs, RunToks(RunTable(scan), old(st.n), old(st.be)))
      ensures ok ==> Going() && st == Flush(scan, old(st)) && BE == (if old(st.n) > 0 then 0 else old(BE))
    {
      hide Flatten, ClosedBytes, BitWriter.Valid, TablesBelow, EncoderTables, Output, Tallied, NBits, EobToks,
           Emittable, AllEmittable, Scan.Ok, RunTable;
      ok := true;
      NoRun(scan, st);
      NoToks(tabs);
      if EOBRUN > 0 {
        EobNeedsCode(tabs, RunTable(scan), EOBRUN, st.be);
        ok := EmitRunLength();
        if !ok {
          return;
        }
        EOBRUN := 0;
        st := st.(n := 0);
        EmitBufferedBits(0, BE);
        assert st.cur == old(st.cur) + (EobToks(RunTable(scan), old(EOBRUN)) + old(st.be));
        BE := 0;
        st := st.(be := []);
      }
    }

    /** emit_restart; in a sequential scan no run is ever pending. */
    method EmitRestart(restart_num: nat) returns (ok: bool)
      requires Going() && RunBounded(st) && restart_num == |st.segs| % 8
      modifies this`st, this`EOBRUN, this`BE, this`last_dc_val, writer, counts
      ensures ok <==> gather_statistics || AllEmittable(tabs, RunToks(RunTable(scan), old(st.n), old(st.be)))
      ensures ok ==> Going() && st == Restart(scan, old(st)) && RunBounded(st)
    {
      hide Flatten, Seal, ClosedBytes, BitWriter.Valid, TablesBelow, EncoderTables, AllEmittable, RunToks, RunTable,
           Tally, Scan.Ok;
      ok := EmitEobrun();
      if !ok {
        return;
      }
      CloseTally(st.segs, st.cur);
      CloseBytes(tabs, start, st.segs, st.cur);
      NoToks(tabs);
      if !gather_statistics {
        writer.FlushBits();
        writer.EmitMarker(RST0 + restart_num);
      }
      if scan.Ss == 0 {
        last_dc_val := NoPredictions(scan);
      } else {
        EOBRUN := 0;
        BE := 0;
      }
      st := EncSt(st.segs + [st.cur], [], 0, [], NoPredictions(scan), st.togo);
      assert EOBRUN == 0 && st.be == BitToks(bit_buffer[..BE]);
    }

    /** "Emit restart marker if needed" */
    method RestartIfDue() returns (ok: bool)
      requires Valid()
      modifies this`st, this`EOBRUN, this`BE, this`last_dc_val, writer, counts
      ensures ok <==> gather_statistics || Written(tabs, Coding.BeginMcu(scan, old(st)))
      ensures ok ==> Going() && st == Coding.BeginMcu(scan, old(st)) && RunBounded(st)
    {
      hide Flatten, ClosedBytes, BitWriter.Valid, TablesBelow, EncoderTables, AllEmittable, RunToks, RunTable, Tally,
           Scan.Ok, AllWritten;
      ok := true;
      if scan.ri != 0 {
        if restarts_to_go == 0 {
          if !gather_statistics {
            RestartWritten(scan, tabs, st);
          }
          ok := EmitRestart(next_restart_num);
        }
      }
    }

    /** "Update restart-interval state too" */
    method CountRestart()
      requires Going() && RunBounded(st) && st.togo == restarts_to_go
      requires |st.segs| % 8 == if scan.ri > 0 && restarts_to_go == 0 then (next_restart_num + 1) % 8
        else next_restart_num
      modifies this`st, this`restarts_to_go, this`next_restart_num
      ensures Valid() && st == Coding.EndMcu(scan, old(st))
    {
      hide Output, Tallied, TablesBelow, EncoderTables, Scan.Ok;
      if scan.ri != 0 {
        if restarts_to_go == 0 {
          restarts_to_go := scan.ri;
          next_restart_num := (next_restart_num + 1) % 8;
        }
        restarts_to_go := restarts_to_go - 1;
      }
      st := Coding.EndMcu(scan, st);
    }

    /** The DC difference: its size symbol, then its bits. */
    method EncodeDifference(tbl: nat, diff: int) returns (ok: bool)
      requires Going() && (if gather_statistics then tbl < counts.Length0 else SlotOk(tabs, tbl))
      modifies this`st, writer, counts
      ensures ok <==>
        NBits(Magnitude(diff)) <= MAX_COEF_BITS + 1 && (gather_statistics || AllEmittable(tabs, DcToks(tbl, diff)))
      ensures ok ==> Going() && Adds(DcToks(tbl, diff))
    {
      hide Flatten, ClosedBytes, BitWriter.Valid, TablesBelow, EncoderTables, Output, Tallied, NBits, BitsOf,
           Emittable, Scan.Ok, Buffered, MagBits, Unsigned, SlotOk;
      var temp, temp2 := diff, diff;
      if temp < 0 {
        temp := -temp;
        temp2 := temp2 - 1;
      }
      var nbits := MagnitudeBits(temp);
      if nbits > MAX_COEF_BITS + 1 {
        return false;
      }
      DcNeedsCode(tabs, tbl, diff);
      ZeroSize(diff);
      ok := EmitSymbol(tbl, nbits);
      if !ok {
        return;
      }
      if nbits != 0 {
        ExtendMag(diff);
        MagnitudeSent(diff, nbits);
        EmitBits(Unsigned(temp2), nbits, MagBits(diff));
      }
      assert st.cur == old(st.cur) + DcToks(tbl, diff);
    }

    /** Coefficient v (point transform applied) after a run of r zeros. */
    method EncodeCoef(tbl: nat, r0: nat, v: int) returns (ok: bool)
      requires Going() && v != 0 && r0 < 64 && (if gather_statistics then tbl < counts.Length0 else SlotOk(tabs, tbl))
      modifies this`st, writer, counts
      ensures ok <==>
        NBits(Magnitude(v)) <= MAX_COEF_BITS && (gather_statistics || AllEmittable(tabs, CoefToks(tbl, r0, v)))
      ensures ok ==> Going() && Adds(CoefToks(tbl, r0, v))
    {
      hide Flatten, ClosedBytes, BitWriter.Valid, TablesBelow, EncoderTables, Output, Tallied, NBits, BitsOf,
           Emittable, Scan.Ok, Buffered,
        MagBits, Unsigned, SlotOk, CoefToks, ZrlToks, AllEmittable, Pow2;
      var r: nat := r0;
      ghost var done: seq<Token> := [];
      ZrlStart(tabs, tbl, r0, v);
      assert st.cur + done == st.cur;
      while r > 15
        invariant r <= r0 && Going() && Adds(done) && done + CoefToks(tbl, r, v) == CoefToks(tbl, r0, v)
        invariant gather_statistics || (AllEmittable(tabs, CoefToks(tbl, r0, v)) <==>
          AllEmittable(tabs, CoefToks(tbl, r, v)))
      {
        ZrlNext(tabs, tbl, r, v);
        ok := EmitSymbol(tbl, 0xF0);
        if !ok {
          return;
        }
        AddsMore(old(st.cur), done, [Sym(tbl, 0xF0)], CoefToks(tbl, r - 16, v));
        done := done + [Sym(tbl, 0xF0)];
        r := r - 16;
      }
      var temp, temp2 := v, v;
      if temp < 0 {
        temp := -temp;
        temp2 := temp2 - 1;
      }
      var nbits := MagnitudeBits(temp);
      ExtendMag(v);
      if nbits > MAX_COEF_BITS {
        return false;
      }
      LastTwo(tabs, tbl, r, v, nbits);
      ok := EmitSymbol(tbl, 16 * r + nbits);
      if !ok {
        return;
      }
      MagnitudeSent(v, nbits);
      EmitBits(Unsigned(temp2), nbits, MagBits(v));
      AddsMore(old(st.cur), done, [Sym(tbl, 16 * r + nbits)], [Raw(MagBits(v), nbits)]);
    }

    /** The coefficient loop of encode_one_block and of encode_mcu_AC_first. In a sequential scan
        no run is ever pending and Al is 0. */
    method EncodeAc(m: seq<array<int>>, blkn: nat, tbl: nat, Ss: nat, Se: nat, Al: nat) returns (ok: bool, r: nat)
      requires Going() && RunBounded(st) && McuData(m) && blkn < |m| && 1 <= Ss <= Se < 64
      requires if gather_statistics then tbl < counts.Length0 else SlotOk(tabs, tbl)
      modifies this`st, this`EOBRUN, this`BE, writer, counts
      ensures var ac := AcToks(tbl, Blocks(m)[blkn], Ss, Se, Al, 0);
        && (ok <==> AcFits(Blocks(m)[blkn], Ss, Se, Al) && (gather_statistics || BandOk(scan, tabs, old(st), ac.0)))
        && (ok ==> Going() && RunBounded(st) && st == AfterBand(scan, old(st), ac.0) && r == ac.1)
    {
      hide Output, Tallied, TablesBelow, EncoderTables, NBits, Scan.Ok, Buffered, SlotOk, CoefToks, Blocks, McuData,
           Shr, AllEmittable, AfterBand,
        BandOk, RunToks, RunTable, Flush, AcToks;
      ghost var st0, blk := st, Blocks(m)[blkn];
      ghost var total := AcToks(tbl, blk, Ss, Se, Al, 0);
      ghost var done: seq<Token> := [];
      NothingSentYet(scan, tabs, st0, total.0);
      r := 0;
      var k := Ss;
      while k <= Se
        invariant Ss <= k <= Se + 1 && r <= k - Ss && Going() && RunBounded(st) && st == AfterBand(scan, st0, done)
        invariant var rest := AcToks(tbl, blk, k, Se, Al, r); total.0 == done + rest.0 && total.1 == rest.1
        invariant forall j :: Ss <= j < k ==> NBits(Magnitude(Shrink(blk[j], Al))) <= MAX_COEF_BITS
        invariant gather_statistics || BandOk(scan, tabs, st0, done)
      {
        var temp := Load(m, blkn, k);
        var v := if temp < 0 then 0 - Shr(-temp, Al) else Shr(temp, Al);
        AcStep(tbl, blk, k, Se, Al, r, v);
        if v == 0 {
          r := r + 1;
        } else {
          ghost var more, rest := CoefToks(tbl, r, v), AcToks(tbl, blk, k + 1, Se, Al, 0).0;
          SentMore(scan, tabs, st0, done, more, rest);
          if EOBRUN > 0 {
            ok := EmitEobrun();
            if !ok {
              return;
            }
          } else {
            NoRun(scan, st);
            NoToks(tabs);
          }
          ok := EncodeCoef(tbl, r, v);
          if !ok {
            return;
          }
          done := done + more;
          r := 0;
        }
        k := k + 1;
      }
      ok := true;
      AcEnd(tbl, blk, Se, Al, r);
      assert done + [] == done;
    }

    lemma OutputWritten()
      requires Going() && !gather_statistics
      ensures Written(tabs, st)
    {
      hide Tallied, TablesBelow, EncoderTables, Scan.Ok, AllEmittable, AllWritten, BitWriter.Valid;
    }

    /** The end of an AC block with trailing zeros or corrections: count an end-of-band, and force
        the run out when its counter or the correction buffer could overflow. */
    method CountEob(BR: nat, ghost tail: seq<Token>) returns (ok: bool)
      requires Going() && RunBounded(st) && scan.mode in {AcFirst, AcRefine} && BR <= 63 && BE + BR <= MAX_CORR_BITS
      requires tail == BitToks(bit_buffer[BE..BE + BR]) && (scan.mode == AcFirst ==> BR == 0)
      modifies this`st, this`EOBRUN, this`BE, writer, counts
      ensures var s2 := old(st).(n := old(st).n + 1, be := old(st).be + tail);
        && (ok <==> gather_statistics || (RunFull(s2) ==> AllEmittable(tabs, RunToks(RunTable(scan), s2.n, s2.be))))
        && (ok ==> Going() && RunBounded(st) && st == if RunFull(s2) then Flush(scan, s2) else s2)
    {
      hide Output, Tallied, TablesBelow, EncoderTables, Scan.Ok, RunToks, RunTable, AllEmittable;
      BufferGrows(bit_buffer[..], BE, BR);
      EOBRUN := EOBRUN + 1;
      BE := BE + BR;
      st := st.(n := st.n + 1, be := st.be + tail);
      ok := true;
      if EOBRUN == 0x7FFF || BE > MAX_CORR_BITS - DCTSIZE2 + 1 {
        ok := EmitEobrun();
      }
    }

    /** The body of encode_mcu_AC_first. */
    method AcFirstBody(m: seq<array<int>>) returns (ok: bool)
      requires Going() && RunBounded(st) && scan.mode == AcFirst && McuData(m) && |m| == |scan.members|
      modifies this`st, this`EOBRUN, this`BE, writer, counts
      ensures ok <==>
        BodyFits(scan, old(st), Blocks(m)) && (gather_statistics || Written(tabs, Body(scan, old(st), Blocks(m))))
      ensures ok ==> Going() && RunBounded(st) && st == Body(scan, old(st), Blocks(m))
    {
      hide Output, Tallied, TablesBelow, EncoderTables, Scan.Ok, RunToks, RunTable, AllEmittable, AcToks, Blocks,
           McuData, Flush, SlotOk;
      BandSlot(scan, tabs, counts.Length0);
      ghost var st0, blk := st, Blocks(m)[0];
      AcFirstParts(scan, st0, Blocks(m));
      if !gather_statistics {
        OutputWritten();
        BandWritten(scan, tabs, st0, BandOf(scan, blk));
      }
      var r;
      ok, r := EncodeAc(m, 0, scan.acTbl[scan.members[0]], scan.Ss, scan.Se, scan.Al);
      if !ok {
        return;
      }
      if r > 0 {
        assert bit_buffer[BE..BE + 0] == [];
        assert st.be + [] == st.be;
        ok := CountEob(0, []);
      }
    }

    /** The pre-pass of encode_mcu_AC_refine: transformed magnitudes, and the last new coefficient. */
    method FindAbsValues(m: seq<array<int>>, absvalues: array<nat>) returns (EOB: nat)
      requires scan.Ok() && scan.mode == AcRefine && McuData(m) && |m| == 1 && absvalues.Length == 64
      modifies absvalues
      ensures forall k :: scan.Ss <= k <= scan.Se < 64 ==> absvalues[k] == AbsVal(Blocks(m)[0], k, scan.Al)
      ensures 1 <= scan.Ss <= scan.Se < 64 && EOB == LastNew(Blocks(m)[0], scan.Se + 1, scan.Ss, scan.Al)
    {
      hide Blocks, McuData, Shr;
      EOB := 0;
      var k := scan.Ss;
      while k <= scan.Se
        invariant 1 <= scan.Ss <= k <= scan.Se + 1 <= 64
        invariant forall j :: scan.Ss <= j < k ==> absvalues[j] == AbsVal(Blocks(m)[0], j, scan.Al)
        invariant EOB == LastNew(Blocks(m)[0], k, scan.Ss, scan.Al)
      {
        var temp := Load(m, 0, k);
        if temp < 0 {
          temp := -temp;
        }
        absvalues[k] := Shr(temp, scan.Al);
        if absvalues[k] == 1 {
          EOB := k;
        }
        k := k + 1;
      }
    }

    /** Emit any pending run, then a symbol (with the sign of a new coefficient), then the correction
        bits that belong to it; afterwards the correction buffer is empty. */
    method EmitWithCorrections(tbl: nat, symbol: nat, ghost sign: seq<Token>, c: int, BR_start: nat, BR: nat,
                               ghost br: seq<Token>)
      returns (ok: bool)
      requires symbol < 256
      requires BR_start + BR <= bit_buffer.Length && br == BitToks(bit_buffer[BR_start..BR_start + BR])
      requires sign == if symbol == 0xF0 then [] else [Raw(if c < 0 then 0 else 1, 1)]
      requires Going() && RunBounded(st) && (if gather_statistics then tbl < counts.Length0 else SlotOk(tabs, tbl))
      modifies this`st, this`EOBRUN, this`BE, writer, counts
      ensures var s := old(st); var all := [Sym(tbl, symbol)] + sign + br;
        && (ok <==>
              gather_statistics
              || (AllEmittable(tabs, RunToks(RunTable(scan), s.n, s.be)) && AllEmittable(tabs, all)))
        && (ok ==>
              && Going() && RunBounded(st) && BE == 0 && EOBRUN == 0
              && (var f := Flush(scan, s); st == f.(cur := f.cur + all)))
    {
      hide Output, Tallied, TablesBelow, EncoderTables, Scan.Ok, RunToks, RunTable, AllEmittable, SlotOk, Emittable,
           BitsOf, ClosedBytes, Flatten;
      ghost var all := [Sym(tbl, symbol)] + sign + br;
      OnlySymbol(tabs, tbl, symbol, sign, br);
      FlushFacts(scan, st);
      ok := EmitEobrun();
      if !ok {
        return;
      }
      ghost var f := st;
      ok := EmitSymbol(tbl, symbol);
      if !ok {
        return;
      }
      if symbol != 0xF0 {
        var temp: nat := if c < 0 then 0 else 1;
        EmitBits(temp, 1, temp);
      }
      EmitBufferedBits(BR_start, BR);
      assert st.cur == f.cur + all;
      EmptyBuffer(bit_buffer[..BE]);
    }

    /** BR_buffer[BR++] = bit */
    method BufferCorrection(BR_start: nat, BR: nat, bit: nat)
      requires Going() && BR_start == BE && BE + BR < MAX_CORR_BITS
      modifies bit_buffer
      ensures Going() && BitToks(bit_buffer[BE..BE + BR + 1]) == BitToks(old(bit_buffer[BE..BE + BR])) + [Raw(bit, 1)]
    {
      hide Output, Tallied, TablesBelow, EncoderTables, Scan.Ok, BitToks;
      BufferOne(bit_buffer[..], BR_start, BR, bit);
      ghost var before := bit_buffer[..];
      bit_buffer[BR_start + BR] := bit;
      assert bit_buffer[..] == before[BR_start + BR := bit];
      assert bit_buffer[BE..BE + BR + 1] == bit_buffer[..][BE..BE + BR + 1];
      assert bit_buffer[..BE] == bit_buffer[..][..BE] && before[..BE] == old(bit_buffer[..BE]);
      assert before[BE..BE + BR] == old(bit_buffer[BE..BE + BR]);
    }

    lemma BufferBounded()
      requires Going() && RunBounded(st)
      ensures BE <= MAX_CORR_BITS - DCTSIZE2 + 1 && bit_buffer.Length == MAX_CORR_BITS
    {
      hide Output, Tallied, TablesBelow, EncoderTables, Scan.Ok;
    }

    /** EmitWithCorrections in the middle of a band. */
    method SendMidway(tbl: nat, symbol: nat, ghost sign: seq<Token>, c: int, BR_start: nat, BR: nat,
                      ghost st0: EncSt, ghost total: BandToks, ghost blk: Block, ghost eob: nat, ghost k: nat,
                        ghost r: nat,
                      ghost done: seq<Token>, ghost br: seq<Token>, ghost k1: nat, ghost r1: nat) returns (ok: bool)
      requires symbol < 256
      requires BR_start + BR <= bit_buffer.Length && br == BitToks(bit_buffer[BR_start..BR_start + BR])
      requires sign == if symbol == 0xF0 then [] else [Raw(if c < 0 then 0 else 1, 1)]
      requires Midway(scan, tabs, gather_statistics, st0, st, total, tbl, blk, eob, k, r, done, br)
      requires scan.Se < 64 && k <= scan.Se + 1 && k1 <= scan.Se + 1
      requires var rest := RefineToks(tbl, blk, k1, scan.Se, scan.Al, eob, r1, []);
        RefineToks(tbl, blk, k, scan.Se, scan.Al, eob, r, br) == rest.(pre := ([Sym(tbl, symbol)] + sign + br)
          + rest.pre)
      requires Going() && RunBounded(st) && (if gather_statistics then tbl < counts.Length0 else SlotOk(tabs, tbl))
      modifies this`st, this`EOBRUN, this`BE, writer, counts
      ensures !ok ==> !gather_statistics && !BandOk(scan, tabs, st0, total.pre)
      ensures ok ==> Going() && RunBounded(st) && BE == 0
      ensures ok ==>
        Midway(scan, tabs, gather_statistics, st0, st, total, tbl, blk, eob, k1, r1,
        done + ([Sym(tbl, symbol)] + sign + br), [])
    {
      hide Output, Tallied, TablesBelow, EncoderTables, Scan.Ok, RunToks, RunTable, AllEmittable, SlotOk, Emittable,
           Going, Midway, BandOk,
        Flush, RefineToks, RunBounded;
      MidwaySend(scan, tabs, gather_statistics, st0, st, total, tbl, blk, eob, k, r, done, br, k1, r1,
        [Sym(tbl, symbol)] + sign + br);
      ok := EmitWithCorrections(tbl, symbol, sign, c, BR_start, BR, br);
    }

    /** "Emit any required ZRLs, but not if they can be folded into EOB" */
    method EmitZrls(tbl: nat, EOB: nat, k: nat, r0: nat, BR0: nat, ghost st0: EncSt, ghost total: BandToks,
                    ghost blk: Block,
                    ghost done0: seq<Token>, ghost br0: seq<Token>)
      returns (ok: bool, r: nat, BR: nat, ghost done: seq<Token>, ghost br: seq<Token>)
      requires 1 <= scan.Ss <= k <= scan.Se < 64 && EOB == LastNew(blk, scan.Se + 1, scan.Ss, scan.Al)
        && AbsVal(blk, k, scan.Al) != 0
      requires BE + BR0 <= bit_buffer.Length && br0 == BitToks(bit_buffer[BE..BE + BR0])
        && BE <= MAX_CORR_BITS - DCTSIZE2 + 1
      requires Midway(scan, tabs, gather_statistics, st0, st, total, tbl, blk, EOB, k, r0, done0, br0)
      requires Going() && RunBounded(st) && (if gather_statistics then tbl < counts.Length0 else SlotOk(tabs, tbl))
      modifies this`st, this`EOBRUN, this`BE, writer, counts
      ensures !ok ==> !gather_statistics && !BandOk(scan, tabs, st0, total.pre)
      ensures ok ==> r <= r0 && BR <= BR0 && (r <= 15 || k > EOB) && BE + BR <= old(BE) + BR0
      ensures ok ==>
        BE + BR <= bit_buffer.Length && br == BitToks(bit_buffer[BE..BE + BR]) && BE <= MAX_CORR_BITS - DCTSIZE2 + 1
      ensures ok ==> Midway(scan, tabs, gather_statistics, st0, st, total, tbl, blk, EOB, k, r, done, br)
      ensures ok ==> Going() && RunBounded(st)
    {
      hide Output, Tallied, TablesBelow, EncoderTables, Scan.Ok, RunToks, RunTable, AllEmittable, AfterBand, BandOk,
           Flush, SlotOk,
        Emittable, Blocks, McuData, AbsVal, LastNew, RefineToks, Buffered, BitToks, Midway, Going, RunBounded;
      r, BR, done, br := r0, BR0, done0, br0;
      var BR_start := BE;
      while r > 15 && k <= EOB
        invariant r <= r0 && BR <= BR0 && Going() && RunBounded(st) && BR_start == BE <= MAX_CORR_BITS - DCTSIZE2 + 1
        invariant BE + BR <= old(BE) + BR0 && br == BitToks(bit_buffer[BE..BE + BR])
        invariant Midway(scan, tabs, gather_statistics, st0, st, total, tbl, blk, EOB, k, r, done, br)
      {
        RefineStep(tbl, blk, k, scan.Ss, scan.Se, scan.Al, EOB, r, br);
        ok := SendMidway(tbl, 0xF0, [], 0, BR_start, BR, st0, total, blk, EOB, k, r, done, br, k, r - 16);
        if !ok {
          return;
        }
        done, br := done + ([Sym(tbl, 0xF0)] + [] + br), [];
        r := r - 16;
        BR_start, BR := 0, 0;
        EmptySlice(bit_buffer[..], 0);
      }
      ok := true;
    }

    /** The body of the main loop of encode_mcu_AC_refine for a coefficient that is not zero. */
    method RefineCoef(m: seq<array<int>>, tbl: nat, temp: nat, EOB: nat, k: nat, r0: nat, BR0: nat, ghost st0: EncSt,
                      ghost total: BandToks,
                      ghost blk: Block, ghost done0: seq<Token>, ghost br0: seq<Token>)
      returns (ok: bool, r: nat, BR: nat, ghost done: seq<Token>, ghost br: seq<Token>)
      requires McuData(m) && |m| == 1 && blk == Blocks(m)[0] && bit_buffer.Length == MAX_CORR_BITS
      requires 1 <= scan.Ss <= k <= scan.Se < 64 && EOB == LastNew(blk, scan.Se + 1, scan.Ss, scan.Al)
        && temp == AbsVal(blk, k, scan.Al) != 0
      requires BE + BR0 < MAX_CORR_BITS && br0 == BitToks(bit_buffer[BE..BE + BR0])
        && BE <= MAX_CORR_BITS - DCTSIZE2 + 1
      requires Midway(scan, tabs, gather_statistics, st0, st, total, tbl, blk, EOB, k, r0, done0, br0)
      requires Going() && RunBounded(st) && (if gather_statistics then tbl < counts.Length0 else SlotOk(tabs, tbl))
      modifies this`st, this`EOBRUN, this`BE, writer, counts, bit_buffer
      ensures !ok ==> !gather_statistics && !BandOk(scan, tabs, st0, total.pre)
      ensures ok ==> r <= r0 && BR <= BR0 + 1
      ensures ok ==>
        BE + BR <= bit_buffer.Length && br == BitToks(bit_buffer[BE..BE + BR]) && BE <= MAX_CORR_BITS - DCTSIZE2 + 1
      ensures ok ==> Midway(scan, tabs, gather_statistics, st0, st, total, tbl, blk, EOB, k + 1, r, done, br)
      ensures ok ==> Going() && RunBounded(st)
    {
      hide Output, Tallied, TablesBelow, EncoderTables, Scan.Ok, RunToks, RunTable, AllEmittable, AfterBand, BandOk,
           Flush, SlotOk,
        Emittable, Blocks, McuData, AbsVal, LastNew, RefineToks, Buffered, BitToks, Midway, Going, RunBounded;
      BufferBounded();
      ok, r, BR, done, br := EmitZrls(tbl, EOB, k, r0, BR0, st0, total, blk, done0, br0);
      if !ok {
        return;
      }
      RefineStep(tbl, blk, k, scan.Ss, scan.Se, scan.Al, EOB, r, br);
      if temp > 1 {
        MidwayOn(scan, tabs, gather_statistics, st0, st, total, tbl, blk, EOB, k, r, done, br, k + 1, r,
          br + [Raw(temp % 2, 1)]);
        BufferCorrection(BE, BR, temp % 2);
        br := br + [Raw(temp % 2, 1)];
        BR := BR + 1;
      } else {
        var coef := Load(m, 0, k);
        ghost var sign := [Raw(if coef < 0 then 0 else 1, 1)];
        ok := SendMidway(tbl, 16 * r + 1, sign, coef, BE, BR, st0, total, blk, EOB, k, r, done, br, k + 1, 0);
        if !ok {
          return;
        }
        done, br := done + ([Sym(tbl, 16 * r + 1)] + sign + br), [];
        BR, r := 0, 0;
        EmptySlice(bit_buffer[..], 0);
      }
    }

    /** The main pass of encode_mcu_AC_refine; r zeros and BR correction bits are left pending. The
        bits of this block are appended to the buffer, at BE. */
    method RefineLoop(m: seq<array<int>>, absvalues: array<nat>, EOB: nat) returns (ok: bool, r: nat, BR: nat)
      requires Going() && RunBounded(st) && scan.mode == AcRefine && McuData(m) && |m| == 1
      requires absvalues.Length == 64 && absvalues != bit_buffer
      requires 1 <= scan.Ss <= scan.Se < 64 && EOB == LastNew(Blocks(m)[0], scan.Se + 1, scan.Ss, scan.Al)
      requires forall k :: scan.Ss <= k <= scan.Se ==> absvalues[k] == AbsVal(Blocks(m)[0], k, scan.Al)
      modifies this`st, this`EOBRUN, this`BE, writer, counts, bit_buffer
      ensures var b := RefineToks(scan.AcTable(), Blocks(m)[0], scan.Ss, scan.Se, scan.Al, EOB, 0, []);
        && (ok <==> gather_statistics || BandOk(scan, tabs, old(st), b.pre))
        && (ok ==> && Going() && RunBounded(st) && st == AfterBand(scan, old(st), b.pre)
                   && BE + BR <= MAX_CORR_BITS && BR <= 63 && b.tail == BitToks(bit_buffer[BE..BE + BR])
                   && (b.more <==> r > 0 || BR > 0))
    {
      hide Output, Tallied, TablesBelow, EncoderTables, Scan.Ok, RunToks, RunTable, AllEmittable, AfterBand, BandOk,
           Flush, SlotOk,
        Emittable, Blocks, McuData, AbsVal, LastNew, RefineToks, Buffered, BitToks, Midway, Going, RunBounded;
      BufferBounded();
      Slots();
      var tbl, Se := scan.acTbl[scan.members[0]], scan.Se;
      ghost var st0, blk := st, Blocks(m)[0];
      ghost var total := RefineToks(tbl, blk, scan.Ss, Se, scan.Al, EOB, 0, []);
      ghost var done: seq<Token>, br: seq<Token> := [], [];
      MidwayStart(scan, tabs, gather_statistics, st0, total, tbl, blk, EOB);
      EmptySlice(bit_buffer[..], BE);
      r, BR := 0, 0;
      var k := scan.Ss;
      while k <= Se
        invariant scan.Ss <= k <= Se + 1 && r <= k - scan.Ss && BR <= k - scan.Ss && Going() && RunBounded(st)
        invariant BE <= MAX_CORR_BITS - DCTSIZE2 + 1 && br == BitToks(bit_buffer[BE..BE + BR])
        invariant Midway(scan, tabs, gather_statistics, st0, st, total, tbl, blk, EOB, k, r, done, br)
      {
        if absvalues[k] == 0 {
          RefineStep(tbl, blk, k, scan.Ss, Se, scan.Al, EOB, r, br);
          MidwayOn(scan, tabs, gather_statistics, st0, st, total, tbl, blk, EOB, k, r, done, br, k + 1, r + 1, br);
          r := r + 1;
        } else {
          ok, r, BR, done, br := RefineCoef(m, tbl, absvalues[k], EOB, k, r, BR, st0, total, blk, done, br);
          if !ok {
            return;
          }
        }
        k := k + 1;
      }
      ok := true;
      MidwayEnd(scan, tabs, gather_statistics, st0, st, total, tbl, blk, EOB, r, done, br);
    }

    /** The table of an AC scan can be used. */
    lemma Slots()
      requires Going() && scan.mode in {AcFirst, AcRefine}
      ensures |scan.members| == 1 && scan.members[0] < |scan.acTbl| && 1 <= scan.Ss <= scan.Se < 64 && scan.Al <= 13
      ensures scan.Ok() && scan.acTbl[scan.members[0]] == scan.AcTable() == RunTable(scan)
      ensures var tbl := scan.acTbl[scan.members[0]]; if gather_statistics then tbl < counts.Length0
        else SlotOk(tabs, tbl)
    {
      hide Output, Tallied, TablesBelow, EncoderTables, Scan.Ok, SlotOk;
      BandSlot(scan, tabs, counts.Length0);
    }

    /** The body of encode_mcu_AC_refine. */
    method AcRefineBody(m: seq<array<int>>) returns (ok: bool)
      requires Going() && RunBounded(st) && scan.mode == AcRefine && McuData(m) && |m| == |scan.members|
      modifies this`st, this`EOBRUN, this`BE, writer, counts, bit_buffer
      ensures ok <==>
        BodyFits(scan, old(st), Blocks(m)) && (gather_statistics || Written(tabs, Body(scan, old(st), Blocks(m))))
      ensures ok ==> Going() && RunBounded(st) && st == Body(scan, old(st), Blocks(m))
    {
      hide Output, Tallied, TablesBelow, EncoderTables, Scan.Ok, RunToks, RunTable, AllEmittable, Blocks, McuData,
           Flush, SlotOk, RefineToks,
        LastNew, AbsVal, BitToks, BandOk;
      Slots();
      ghost var st0, blk := st, Blocks(m)[0];
      AcRefineParts(scan, st0, Blocks(m));
      if !gather_statistics {
        OutputWritten();
        BandWritten(scan, tabs, st0, BandOf(scan, blk));
      }
      var absvalues := new nat[64];
      var EOB := FindAbsValues(m, absvalues);
      var r, BR;
      ok, r, BR := RefineLoop(m, absvalues, EOB);
      if !ok {
        return;
      }
      if r > 0 || BR > 0 {
        ok := CountEob(BR, BandOf(scan, blk).tail);
      }
    }

    /** Code the DC value against the prediction, which it then replaces. */
    method EncodeDc(ci: nat, value: int) returns (ok: bool)
      requires Going() && RunBounded(st) && scan.mode in {Sequential, DcFirst} && ci < |scan.dcTbl|
        && ci < scan.ncomps == |st.last|
      requires if gather_statistics then scan.dcTbl[ci] < counts.Length0 else SlotOk(tabs, scan.dcTbl[ci])
      modifies this`st, this`last_dc_val, writer, counts
      ensures var diff := value - old(st).last[ci]; var toks := DcToks(scan.dcTbl[ci], diff);
        && (ok <==> NBits(Magnitude(diff)) <= MAX_COEF_BITS + 1 && (gather_statistics || AllEmittable(tabs, toks)))
        && (ok ==> Going() && RunBounded(st) && st == old(st).(cur := old(st).cur + toks,
           last := old(st).last[ci := value]))
    {
      hide Output, Tallied, TablesBelow, EncoderTables, Scan.Ok, AllEmittable, SlotOk, DcToks, NBits;
      var temp := value - last_dc_val[ci];
      DcBand(scan);
      ok := EncodeDifference(scan.dcTbl[ci], temp);
      if !ok {
        return;
      }
      last_dc_val := last_dc_val[ci := value];
      st := st.(last := last_dc_val);
    }

    /** The block loop of encode_mcu_DC_first. */
    method DcFirstBody(m: seq<array<int>>) returns (ok: bool)
      requires Going() && RunBounded(st) && scan.mode == DcFirst && McuData(m) && |m| == |scan.members|
      modifies this`st, this`last_dc_val, writer, counts
      ensures ok <==>
        BodyFits(scan, old(st), Blocks(m)) && (gather_statistics || Written(tabs, Body(scan, old(st), Blocks(m))))
      ensures ok ==> Going() && RunBounded(st) && st == Body(scan, old(st), Blocks(m))
    {
      hide Output, Tallied, TablesBelow, EncoderTables, Scan.Ok, AllEmittable, Blocks, McuData, SlotOk, McuToks,
           McuFits, BlockToks, Predict, BlockFits,
        DcToks, NBits, Written, Going, Body, BodyFits, McuMid;
      BodyShape();
      ghost var st0, mcu := st, Blocks(m);
      if !gather_statistics { OutputWritten(); }
      McuStart(scan, tabs, st0, mcu);
      var blkn := 0;
      while blkn < |m|
        invariant blkn <= |m| && Going() && RunBounded(st) && st == McuMid(scan, st0, mcu, blkn)
        invariant McuFits(scan, mcu, blkn, st0.last) && (gather_statistics || Written(tabs, st))
      {
        BodyShape();
        BlockSlots(blkn);
        var ci := scan.members[blkn];
        var temp2 := Load(m, blkn, 0);
        DcFirstStep(scan, tabs, st0, mcu, blkn);
        if !gather_statistics { MidWritten(scan, tabs, st0, mcu, blkn + 1); }
        ok := EncodeDc(ci, Sar(temp2, scan.Al));
        if !ok {
          return;
        }
        blkn := blkn + 1;
      }
      ok := true;
    }

    lemma BodyShape()
      requires Going()
      ensures scan.Ok() && |st.last| == scan.ncomps && st.last == last_dc_val
        && (scan.mode !in {AcFirst, AcRefine} ==> st.n == 0)
    {
      hide Output, Tallied, TablesBelow, EncoderTables, Scan.Ok;
    }

    /** The tables of the component of block i can be used. */
    lemma BlockSlots(i: nat)
      requires Going() && scan.mode in {Sequential, DcFirst} && i < |scan.members|
      ensures var ci := scan.members[i];
        && ci < scan.ncomps == |scan.dcTbl| == |scan.acTbl|
        && (if gather_statistics then scan.dcTbl[ci] < counts.Length0 else SlotOk(tabs, scan.dcTbl[ci]))
        && (scan.mode == Sequential ==> if gather_statistics then scan.acTbl[ci] < counts.Length0
           else SlotOk(tabs, scan.acTbl[ci]))
    {
      hide Output, Tallied, TablesBelow, EncoderTables, Scan.Ok, SlotOk;
      BlockTable(scan, tabs, counts.Length0, i);
    }

    /** The block loop of encode_mcu_DC_refine. */
    method DcRefineBody(m: seq<array<int>>) returns (ok: bool)
      requires Going() && RunBounded(st) && scan.mode == DcRefine && McuData(m) && |m| == |scan.members|
      modifies this`st, writer
      ensures ok && BodyFits(scan, old(st), Blocks(m))
      ensures Going() && RunBounded(st) && st == Body(scan, old(st), Blocks(m))
        && (gather_statistics || Written(tabs, st))
    {
      hide Output, Tallied, TablesBelow, EncoderTables, Scan.Ok, AllEmittable, Blocks, McuData, McuToks, McuFits,
           BlockToks, Predict, BlockFits, Written,
        Unsigned, BitsOf;
      ghost var st0, mcu := st, Blocks(m);
      McuStart(scan, tabs, st0, mcu);
      var blkn := 0;
      while blkn < |m|
        invariant blkn <= |m| && Going() && RunBounded(st) && st == McuMid(scan, st0, mcu, blkn)
        invariant McuFits(scan, mcu, blkn, st0.last)
      {
        var temp := Load(m, blkn, 0);
        DcRefineStep(scan, st0, mcu, blkn);
        LowBit(Sar(temp, scan.Al));
        EmitBits(Unsigned(Sar(temp, scan.Al)), 1, Sar(temp, scan.Al) % 2);
        blkn := blkn + 1;
      }
      ok := true;
      if !gather_statistics { OutputWritten(); }
    }

    /** encode_one_block, and the update of the DC prediction that follows it. */
    method EncodeOneBlock(m: seq<array<int>>, blkn: nat) returns (ok: bool)
      requires Going() && RunBounded(st) && scan.mode == Sequential && McuData(m) && blkn < |m| == |scan.members|
      modifies this`st, this`EOBRUN, this`BE, this`last_dc_val, writer, counts
      ensures var ci := scan.members[blkn];
        && scan.Ok() && ci < scan.ncomps == |old(st).last|
        && (var blk := Blocks(m)[blkn]; var toks := BlockToks(scan, ci, blk, old(st).last[ci]);
            && (ok <==> BlockFits(scan, blk, old(st).last[ci]) && (gather_statistics || AllEmittable(tabs, toks)))
            && (ok ==> Going() && RunBounded(st) && st == old(st).(cur := old(st).cur + toks,
               last := Predict(scan, ci, blk, old(st).last))))
    {
      hide Output, Tallied, TablesBelow, EncoderTables, Scan.Ok, AllEmittable, Blocks, McuData, SlotOk, BlockToks,
           Predict, BlockFits, DcToks, NBits,
        Going, AcToks, AcFits, AfterBand, BandOk, Flush;
      BodyShape();
      BlockSlots(blkn);
      ghost var st0, blk := st, Blocks(m)[blkn];
      var ci := scan.members[blkn];
      SequentialParts(scan, tabs, ci, blk, st0);
      var value := Load(m, blkn, 0);
      ok := EncodeDc(ci, value);
      if !ok {
        return;
      }
      BlockSlots(blkn);
      var r;
      ok, r := EncodeAc(m, blkn, scan.acTbl[ci], 1, 63, 0);
      if !ok {
        return;
      }
      BlockSlots(blkn);
      if r > 0 {
        ok := EmitSymbol(scan.acTbl[ci], 0);
      }
    }

    /** The block loop of encode_mcu_huff. */
    method SequentialBody(m: seq<array<int>>) returns (ok: bool)
      requires Going() && RunBounded(st) && scan.mode == Sequential && McuData(m) && |m| == |scan.members|
      modifies this`st, this`EOBRUN, this`BE, this`last_dc_val, writer, counts
      ensures ok <==>
        BodyFits(scan, old(st), Blocks(m)) && (gather_statistics || Written(tabs, Body(scan, old(st), Blocks(m))))
      ensures ok ==> Going() && RunBounded(st) && st == Body(scan, old(st), Blocks(m))
    {
      hide Output, Tallied, TablesBelow, EncoderTables, Scan.Ok, AllEmittable, Blocks, McuData, SlotOk, McuToks,
           McuFits, BlockToks, Predict, BlockFits,
        DcToks, NBits, Written, Going, Body, BodyFits, McuMid;
      BodyShape();
      ghost var st0, mcu := st, Blocks(m);
      if !gather_statistics { OutputWritten(); }
      McuStart(scan, tabs, st0, mcu);
      var blkn := 0;
      while blkn < |m|
        invariant blkn <= |m| && Going() && RunBounded(st) && st == McuMid(scan, st0, mcu, blkn)
        invariant McuFits(scan, mcu, blkn, st0.last) && (gather_statistics || Written(tabs, st))
      {
        BodyShape();
        BlockStep(scan, st0, mcu, blkn);
        StepWritten(tabs, st, BlockToks(scan, scan.members[blkn], mcu[blkn], st.last[scan.members[blkn]]),
                    Predict(scan, scan.members[blkn], mcu[blkn], st.last));
        if !gather_statistics { MidWritten(scan, tabs, st0, mcu, blkn + 1); }
        ok := EncodeOneBlock(m, blkn);
        if !ok {
          return;
        }
        blkn := blkn + 1;
      }
      ok := true;
    }

    /** One call of encode_mcu: restart if due, the blocks by the routine that start_pass selected,
        then the restart countdown. It fails exactly when a coefficient is out of range or, in an
        output pass, a symbol has no code. */
    method EncodeMcu(m: seq<array<int>>) returns (ok: bool)
      requires Valid() && McuData(m) && |m| == |scan.members|
      modifies this, writer, counts, bit_buffer
      ensures ok <==> && Encodable(scan, old(st), Blocks(m))
                      && (gather_statistics || Written(tabs, Encode(scan, old(st), Blocks(m))))
      ensures ok ==> Valid() && st == Encode(scan, old(st), Blocks(m))
    {
      hide Output, Tallied, TablesBelow, EncoderTables, Scan.Ok, AllEmittable, Blocks, McuData, Written, Body,
           BodyFits, Going, Coding.BeginMcu,
        Coding.EndMcu, RunBounded, Valid;
      ValidShape();
      ghost var mcu := Blocks(m);
      EncodeParts(scan, tabs, st, mcu);
      ok := RestartIfDue();
      if !ok {
        return;
      }
      ghost var s1 := st;
      match scan.mode {
        case Sequential => ok := SequentialBody(m);
        case DcFirst => ok := DcFirstBody(m);
        case AcFirst => ok := AcFirstBody(m);
        case DcRefine => ok := DcRefineBody(m);
        case AcRefine => ok := AcRefineBody(m);
      }
      if !ok {
        return;
      }
      CountRestart();
    }

    lemma CountsShape()
      requires Valid() && gather_statistics
      ensures counts.Length1 == 257
    {
      hide TablesBelow, EncoderTables, Scan.Ok;
    }

    lemma ValidShape()
      requires Valid()
      ensures Going() && RunBounded(st) && scan.Ok() && |st.last| == scan.ncomps && st.togo == restarts_to_go
      ensures next_restart_num == |st.segs| % 8 && (!gather_statistics ==> Written(tabs, st))
    {
      hide Output, Tallied, TablesBelow, EncoderTables, Scan.Ok, Written;
      if !gather_statistics { OutputWritten(); }
    }

    /** finish_pass: the pending run, then the padding of the last byte. */
    method FinishPass() returns (ok: bool)
      requires Valid() && !gather_statistics
      modifies this`st, this`EOBRUN, this`BE, writer, counts
      ensures ok <==> Written(tabs, Flush(scan, old(st)))
      ensures ok ==> writer.Valid() && writer.bits == [] && st == Flush(scan, old(st))
      ensures ok ==> writer.out == start + ScanBytes(tabs, st.segs + [st.cur])
    {
      hide Flatten, Seal, ClosedBytes, BitWriter.Valid, TablesBelow, EncoderTables, AllEmittable, RunToks, RunTable,
           Scan.Ok;
      OutputWritten();
      FlushWritten(scan, tabs, st);
      ok := EmitEobrun();
      if !ok {
        return;
      }
      LastBytes(tabs, start, st.segs, st.cur);
      writer.FlushBits();
    }

    /** The part of finish_pass_gather that counts the last run. */
    method FinishPassGather() returns (ok: bool)
      requires Valid() && gather_statistics
      modifies this`st, this`EOBRUN, this`BE, writer, counts
      ensures ok && Going() && st == Flush(scan, old(st))
      ensures forall t, s :: 0 <= t < counts.Length0 && 0 <= s < 256 ==> counts[t, s] == Tally(st.segs, st.cur, t, s)
    {
      hide TablesBelow, EncoderTables, AllEmittable, RunToks, RunTable, Scan.Ok, Tally;
      ok := EmitEobrun();
    }
  }

  /** The encoder after the tokens of a band, the pending run written before the first of them. */
  function AfterBand(scan: Scan, st: EncSt, toks: seq<Token>): EncSt {
    if toks == [] then st else var f := Flush(scan, st); f.(cur := f.cur + toks)
  }

  ghost predicate BandOk(scan: Scan, tabs: seq<Tab>, st: EncSt, toks: seq<Token>) {
    toks == [] || (AllEmittable(tabs, RunToks(RunTable(scan), st.n, st.be)) && AllEmittable(tabs, toks))
  }

  lemma NothingSentYet(scan: Scan, tabs: seq<Tab>, st: EncSt, all: seq<Token>)
    ensures AfterBand(scan, st, []) == st && BandOk(scan, tabs, st, []) && [] + all == all
  {}

  lemma SentMore(scan: Scan, tabs: seq<Tab>, st: EncSt, done: seq<Token>, more: seq<Token>, rest: seq<Token>)
    requires more != []
    ensures done + (more + rest) == done + more + rest
    ensures var s := AfterBand(scan, st, done); var f := Flush(scan, s);
      && f.(cur := f.cur + more) == AfterBand(scan, st, done + more)
      && (RunBounded(st) ==> RunBounded(AfterBand(scan, st, done + more)))
      && (BandOk(scan, tabs, st, done) ==>
           (BandOk(scan, tabs, st, done + more) <==>
             AllEmittable(tabs, RunToks(RunTable(scan), s.n, s.be)) && AllEmittable(tabs, more)))
    ensures BandOk(scan, tabs, st, done + more + rest) ==> BandOk(scan, tabs, st, done + more)
  {
    hide AllEmittable, RunTable, EobToks;
    EmittableSplit(tabs, done, more);
    EmittableSplit(tabs, done + more, rest);
    NoToks(tabs);
    assert st.cur + RunToks(RunTable(scan), st.n, st.be) + done + [] + more == st.cur
      + RunToks(RunTable(scan), st.n, st.be) + (done + more);
    assert st.cur + RunToks(RunTable(scan), st.n, st.be) + done + more == st.cur
      + RunToks(RunTable(scan), st.n, st.be) + (done + more);
  }

  lemma AcStep(tbl: nat, blk: Block, k: nat, Se: nat, Al: nat, r: nat, v: int)
    requires k <= Se < 64 && v == Shrink(blk[k], Al)
    ensures AcToks(tbl, blk, k, Se, Al, r) ==
      if v == 0 then AcToks(tbl, blk, k + 1, Se, Al, r + 1)
      else (CoefToks(tbl, r, v) + AcToks(tbl, blk, k + 1, Se, Al, 0).0, AcToks(tbl, blk, k + 1, Se, Al, 0).1)
    ensures v == 0 ==> NBits(Magnitude(v)) == 0
    ensures v != 0 ==> CoefToks(tbl, r, v) != []
  {
    hide Shrink;
  }

  lemma AcEnd(tbl: nat, blk: Block, Se: nat, Al: nat, r: nat)
    requires Se < 64
    ensures AcToks(tbl, blk, Se + 1, Se, Al, r) == ([], r)
  {}

  /** The run, or its correction bits, could overflow in the next MCU. */
  predicate RunFull(st: EncSt) {
    st.n == 0x7FFF || |st.be| > MAX_CORR_BITS - DCTSIZE2 + 1
  }

  lemma BufferGrows(buffer: seq<nat>, BE: nat, BR: nat)
    requires BE + BR <= |buffer|
    ensures BitToks(buffer[..BE]) + BitToks(buffer[BE..BE + BR]) == BitToks(buffer[..BE + BR])
  {}

  lemma BandSlot(scan: Scan, tabs: seq<Tab>, tables: nat)
    requires scan.Ok() && scan.mode in {AcFirst, AcRefine}
    ensures |scan.members| == 1 && scan.members[0] < |scan.acTbl| && 1 <= scan.Ss <= scan.Se < 64 && scan.Al <= 13
    ensures scan.acTbl[scan.members[0]] == scan.AcTable() == RunTable(scan)
    ensures EncoderTables(scan, tabs) ==> SlotOk(tabs, scan.acTbl[scan.members[0]])
    ensures TablesBelow(scan, tables) ==> scan.acTbl[scan.members[0]] < tables
  {
    hide SlotOk;
  }

  lemma AcFirstParts(scan: Scan, st: EncSt, mcu: seq<Block>)
    requires scan.Ok() && scan.mode == AcFirst && |mcu| == |scan.members| && |st.last| == scan.ncomps
    ensures |mcu| == 1
    ensures var ac := AcToks(scan.AcTable(), mcu[0], scan.Ss, scan.Se, scan.Al, 0);
      && BandOf(scan, mcu[0]) == BandToks(ac.0, [], ac.1 > 0)
      && Body(scan, st, mcu) == AddBand(scan, st, BandOf(scan, mcu[0]))
      && (BodyFits(scan, st, mcu) <==> AcFits(mcu[0], scan.Ss, scan.Se, scan.Al))
  {
    hide AcToks, AddBand, AcFits;
  }

  /** Which tokens a band makes the encoder emit. */
  lemma BandWritten(scan: Scan, tabs: seq<Tab>, st: EncSt, b: BandToks)
    requires Written(tabs, st)
    ensures var s1 := AfterBand(scan, st, b.pre); var s2 := s1.(n := s1.n + 1, be := s1.be + b.tail);
      Written(tabs, AddBand(scan, st, b)) <==>
        BandOk(scan, tabs, st, b.pre)
          && (b.more && RunFull(s2) ==> AllEmittable(tabs, RunToks(RunTable(scan), s2.n, s2.be)))
  {
    hide AllEmittable, RunTable, RunToks;
    var run := RunToks(RunTable(scan), st.n, st.be);
    EmittableSplit(tabs, st.cur, run);
    EmittableSplit(tabs, st.cur + run, b.pre);
    var s1 := AfterBand(scan, st, b.pre);
    var s2 := s1.(n := s1.n + 1, be := s1.be + b.tail);
    EmittableSplit(tabs, s1.cur, RunToks(RunTable(scan), s2.n, s2.be));
  }

  lemma OnlySymbol(tabs: seq<Tab>, tbl: nat, symbol: nat, sign: seq<Token>, br: seq<Token>)
    requires forall i :: 0 <= i < |sign| ==> sign[i].Raw? && sign[i].n == 1
    requires forall i :: 0 <= i < |br| ==> br[i].Raw? && br[i].n == 1
    ensures AllEmittable(tabs, [Sym(tbl, symbol)] + sign + br) <==> Emittable(tabs, Sym(tbl, symbol))
  {
    hide SlotOk;
    EmittableSplit(tabs, [Sym(tbl, symbol)] + sign, br);
    EmittableSplit(tabs, [Sym(tbl, symbol)], sign);
    EmittableOne(tabs, Sym(tbl, symbol));
  }

  lemma FlushFacts(scan: Scan, st: EncSt)
    ensures RunBounded(st) ==> RunBounded(Flush(scan, st)) && Flush(scan, st).n == 0 && Flush(scan, st).be == []
  {
    hide RunToks, RunTable;
  }

  lemma EmptyBuffer(bits: seq<nat>)
    ensures BitToks(bits) == [] <==> |bits| == 0
  {}

  lemma EmptySlice(buffer: seq<nat>, i: nat)
    requires i <= |buffer|
    ensures BitToks(buffer[i..i + 0]) == []
  {}

  lemma BufferOne(buffer: seq<nat>, i: nat, n: nat, v: nat)
    requires i + n < |buffer|
    ensures BitToks(buffer[i + n := v][i..i + n + 1]) == BitToks(buffer[i..i + n]) + [Raw(v, 1)]
    ensures buffer[i + n := v][..i] == buffer[..i]
  {}

  lemma RefineStep(tbl: nat, blk: Block, k: nat, Ss: nat, Se: nat, Al: nat, eob: nat, r: nat, br: seq<Token>)
    requires 1 <= Ss <= k <= Se < 64 && eob == LastNew(blk, Se + 1, Ss, Al)
    ensures var a := AbsVal(blk, k, Al); var b := RefineToks(tbl, blk, k, Se, Al, eob, r, br);
      if a == 0 then b == RefineToks(tbl, blk, k + 1, Se, Al, eob, r + 1, br)
      else if r > 15 && k <= eob then
        var rest := RefineToks(tbl, blk, k, Se, Al, eob, r - 16, []);
        b == rest.(pre := ([Sym(tbl, 0xF0)] + [] + br) + rest.pre)
      else if a > 1 then b == RefineToks(tbl, blk, k + 1, Se, Al, eob, r, br + [Raw(a % 2, 1)])
      else
        var rest := RefineToks(tbl, blk, k + 1, Se, Al, eob, 0, []);
        && r <= 15
        && b == rest.(pre := ([Sym(tbl, 16 * r + 1)] + [Raw(if blk[k] < 0 then 0 else 1, 1)] + br) + rest.pre)
  {
    hide AbsVal;
    assert [Sym(tbl, 0xF0)] + [] == [Sym(tbl, 0xF0)];
    assert [Sym(tbl, 16 * r + 1)] + [Raw(if blk[k] < 0 then 0 else 1, 1)] == SignToks(tbl, r, blk[k]);
  }

  lemma RefineEnd(tbl: nat, blk: Block, Se: nat, Al: nat, eob: nat, r: nat, br: seq<Token>)
    requires Se < 64
    ensures RefineToks(tbl, blk, Se + 1, Se, Al, eob, r, br) == BandToks([], br, r > 0 || |br| > 0)
  {}

  /** In the middle of a band: `done` has been emitted, and what is left to emit is what the
      refinement loop makes of the rest of the block, with r zeros and the corrections br pending. */
  ghost predicate Midway(scan: Scan, tabs: seq<Tab>, gather: bool, st0: EncSt, st: EncSt, total: BandToks, tbl: nat,
                         blk: Block,
                         eob: nat, k: nat, r: nat, done: seq<Token>, br: seq<Token>) {
    && scan.Se < 64 && k <= scan.Se + 1 && st == AfterBand(scan, st0, done)
    && (var rest := RefineToks(tbl, blk, k, scan.Se, scan.Al, eob, r, br);
        total.pre == done + rest.pre && total.tail == rest.tail && total.more == rest.more)
    && (gather || BandOk(scan, tabs, st0, done))
  }

  lemma {:induction false} MidwayStart(scan: Scan, tabs: seq<Tab>, gather: bool, st0: EncSt, total: BandToks,
                                       tbl: nat, blk: Block, eob: nat)
    requires scan.Se < 64 && scan.Ss <= scan.Se && total == RefineToks(tbl, blk, scan.Ss, scan.Se, scan.Al, eob, 0, [])
    ensures Midway(scan, tabs, gather, st0, st0, total, tbl, blk, eob, scan.Ss, 0, [], [])
  {
    hide RefineToks;
    NothingSentYet(scan, tabs, st0, total.pre);
  }

  lemma {:induction false} MidwayOn(scan: Scan, tabs: seq<Tab>, gather: bool, st0: EncSt, st: EncSt, total: BandToks,
                                    tbl: nat, blk: Block,
                 eob: nat, k: nat, r: nat, done: seq<Token>, br: seq<Token>, k1: nat, r1: nat, br1: seq<Token>)
    requires Midway(scan, tabs, gather, st0, st, total, tbl, blk, eob, k, r, done, br) && k1 <= scan.Se + 1
    requires RefineToks(tbl, blk, k, scan.Se, scan.Al, eob, r, br) == RefineToks(tbl, blk, k1, scan.Se, scan.Al, eob,
      r1, br1)
    ensures Midway(scan, tabs, gather, st0, st, total, tbl, blk, eob, k1, r1, done, br1)
  {
    hide RefineToks, AfterBand, BandOk;
  }

  lemma {:induction false} MidwaySend(scan: Scan, tabs: seq<Tab>, gather: bool, st0: EncSt, st: EncSt,
                                      total: BandToks, tbl: nat, blk: Block,
                   eob: nat, k: nat, r: nat, done: seq<Token>, br: seq<Token>, k1: nat, r1: nat, more: seq<Token>)
    requires Midway(scan, tabs, gather, st0, st, total, tbl, blk, eob, k, r, done, br) && k1 <= scan.Se + 1
      && more != []
    requires var rest := RefineToks(tbl, blk, k1, scan.Se, scan.Al, eob, r1, []);
      RefineToks(tbl, blk, k, scan.Se, scan.Al, eob, r, br) == rest.(pre := more + rest.pre)
    ensures var codes := AllEmittable(tabs, RunToks(RunTable(scan), st.n, st.be)) && AllEmittable(tabs, more);
      && (gather || codes ==>
           (var f := Flush(scan, st);
             Midway(scan, tabs, gather, st0, f.(cur := f.cur + more), total, tbl, blk, eob, k1, r1, done + more, [])))
      && (!gather && !codes ==> !BandOk(scan, tabs, st0, total.pre))
  {
    hide RefineToks, AfterBand, BandOk, AllEmittable, RunToks, Flush;
    var rest := RefineToks(tbl, blk, k1, scan.Se, scan.Al, eob, r1, []);
    SentMore(scan, tabs, st0, done, more, rest.pre);
  }

  lemma MidwayEnd(scan: Scan, tabs: seq<Tab>, gather: bool, st0: EncSt, st: EncSt, total: BandToks, tbl: nat,
                  blk: Block,
                  eob: nat, r: nat, done: seq<Token>, br: seq<Token>)
    requires Midway(scan, tabs, gather, st0, st, total, tbl, blk, eob, scan.Se + 1, r, done, br)
    ensures st == AfterBand(scan, st0, total.pre) && total.tail == br && (total.more <==> r > 0 || |br| > 0)
    ensures gather || BandOk(scan, tabs, st0, total.pre)
  {
    hide AfterBand, BandOk;
    RefineEnd(tbl, blk, scan.Se, scan.Al, eob, r, br);
    assert done + [] == done;
  }

  lemma AcRefineParts(scan: Scan, st: EncSt, mcu: seq<Block>)
    requires scan.Ok() && scan.mode == AcRefine && |mcu| == |scan.members| && |st.last| == scan.ncomps
    ensures |mcu| == 1 && 1 <= scan.Ss <= scan.Se < 64
    ensures BandOf(scan, mcu[0]) ==
      RefineToks(scan.AcTable(), mcu[0], scan.Ss, scan.Se, scan.Al, LastNew(mcu[0], scan.Se + 1, scan.Ss, scan.Al), 0,
        [])
    ensures Body(scan, st, mcu) == AddBand(scan, st, BandOf(scan, mcu[0])) && BodyFits(scan, st, mcu)
  {
    hide RefineToks, AddBand, LastNew;
  }

  // ---- Block by block through an MCU of a sequential or DC scan ----

  /** The encoder after the first i blocks. */
  function McuMid(scan: Scan, st: EncSt, mcu: seq<Block>, i: nat): (r: EncSt)
    requires scan.Ok() && scan.mode in {Sequential, DcFirst, DcRefine} && |st.last| == scan.ncomps
    requires |mcu| == |scan.members| && i <= |mcu|
    ensures |r.last| == scan.ncomps && (RunBounded(st) ==> RunBounded(r))
  {
    var p := McuToks(scan, mcu, i, st.last);
    st.(cur := st.cur + p.0, last := p.1)
  }

  lemma McuStart(scan: Scan, tabs: seq<Tab>, st: EncSt, mcu: seq<Block>)
    requires scan.Ok() && scan.mode in {Sequential, DcFirst, DcRefine} && |st.last| == scan.ncomps
      && |mcu| == |scan.members|
    ensures McuMid(scan, st, mcu, 0) == st && McuFits(scan, mcu, 0, st.last)
    ensures Body(scan, st, mcu) == McuMid(scan, st, mcu, |mcu|)
      && (BodyFits(scan, st, mcu) <==> McuFits(scan, mcu, |mcu|, st.last))
    ensures McuFits(scan, mcu, |mcu|, st.last) ==> forall i :: 0 <= i <= |mcu| ==> McuFits(scan, mcu, i, st.last)
  {
    hide BlockToks, BlockFits;
    assert st.cur + [] == st.cur;
  }

  /** What is written by block i + 1 stays written. */
  lemma MidWritten(scan: Scan, tabs: seq<Tab>, st: EncSt, mcu: seq<Block>, i: nat)
    requires scan.Ok() && scan.mode in {Sequential, DcFirst, DcRefine} && |st.last| == scan.ncomps
    requires |mcu| == |scan.members| && i <= |mcu|
    ensures Written(tabs, McuMid(scan, st, mcu, |mcu|)) ==> Written(tabs, McuMid(scan, st, mcu, i))
  {
    hide AllEmittable, McuToks;
    var more := McuToksGrow(scan, mcu, i, |mcu|, st.last);
    var p := McuToks(scan, mcu, i, st.last).0;
    assert st.cur + (p + more) == st.cur + p + more;
    EmittableSplit(tabs, st.cur + p, more);
  }

  lemma {:induction false} McuToksGrow(scan: Scan, mcu: seq<Block>, i: nat, j: nat, last: seq<int>)
    returns (more: seq<Token>)
    requires scan.Ok() && scan.mode in {Sequential, DcFirst, DcRefine} && |last| == scan.ncomps
    requires |mcu| == |scan.members| && i <= j <= |mcu|
    ensures McuToks(scan, mcu, j, last).0 == McuToks(scan, mcu, i, last).0 + more
    decreases j - i
  {
    hide BlockToks;
    if i == j {
      more := [];
    } else {
      var m1 := McuToksGrow(scan, mcu, i, j - 1, last);
      var b := BlockAt(scan, mcu, last, j - 1);
      more := m1 + b;
      assert McuToks(scan, mcu, i, last).0 + m1 + b == McuToks(scan, mcu, i, last).0 + (m1 + b);
    }
  }

  /** One more block. */
  lemma BlockStep(scan: Scan, st: EncSt, mcu: seq<Block>, i: nat)
    requires scan.Ok() && scan.mode in {Sequential, DcFirst, DcRefine} && |st.last| == scan.ncomps
    requires |mcu| == |scan.members| && i < |mcu| && McuFits(scan, mcu, i, st.last)
    ensures var s := McuMid(scan, st, mcu, i); var ci := scan.members[i];
      && ci < scan.ncomps
      && McuMid(scan, st, mcu, i + 1) == s.(cur := s.cur + BlockToks(scan, ci, mcu[i], s.last[ci]),
         last := Predict(scan, ci, mcu[i], s.last))
      && (McuFits(scan, mcu, i + 1, st.last) <==> BlockFits(scan, mcu[i], s.last[ci]))
  {
    hide BlockToks, BlockFits, Predict;
    var p := McuToks(scan, mcu, i, st.last);
    var b := BlockAt(scan, mcu, st.last, i);
    assert st.cur + (p.0 + b) == st.cur + p.0 + b;
  }

  lemma BlockTable(scan: Scan, tabs: seq<Tab>, tables: nat, i: nat)
    requires scan.Ok() && scan.mode in {Sequential, DcFirst} && i < |scan.members|
    ensures var ci := scan.members[i];
      && ci < scan.ncomps == |scan.dcTbl| == |scan.acTbl|
      && (EncoderTables(scan, tabs) ==> SlotOk(tabs, scan.dcTbl[ci]) && (scan.mode == Sequential ==>
         SlotOk(tabs, scan.acTbl[ci])))
      && (TablesBelow(scan, tables) ==>
         scan.dcTbl[ci] < tables && (scan.mode == Sequential ==> scan.acTbl[ci] < tables))
  {
    hide SlotOk;
  }

  lemma DcFirstStep(scan: Scan, tabs: seq<Tab>, st: EncSt, mcu: seq<Block>, i: nat)
    requires scan.Ok() && scan.mode == DcFirst && |st.last| == scan.ncomps
    requires |mcu| == |scan.members| && i < |mcu| && McuFits(scan, mcu, i, st.last)
    ensures var s := McuMid(scan, st, mcu, i); var ci := scan.members[i]; var v := Sar(mcu[i][0], scan.Al);
      && ci < scan.ncomps == |scan.dcTbl|
      && (var toks := DcToks(scan.dcTbl[ci], v - s.last[ci]);
          && McuMid(scan, st, mcu, i + 1) == s.(cur := s.cur + toks, last := s.last[ci := v])
          && (Written(tabs, s) ==> (Written(tabs, McuMid(scan, st, mcu, i + 1)) <==> AllEmittable(tabs, toks))))
      && (McuFits(scan, mcu, i + 1, st.last) <==> NBits(Magnitude(v - s.last[ci])) <= MAX_COEF_BITS + 1)
  {
    hide McuMid, McuFits, AllEmittable, DcToks, NBits, Sar;
    BlockStep(scan, st, mcu, i);
    var s, ci := McuMid(scan, st, mcu, i), scan.members[i];
    EmittableSplit(tabs, s.cur, DcToks(scan.dcTbl[ci], Sar(mcu[i][0], scan.Al) - s.last[ci]));
  }

  lemma DcRefineStep(scan: Scan, st: EncSt, mcu: seq<Block>, i: nat)
    requires scan.Ok() && scan.mode == DcRefine && |st.last| == scan.ncomps
    requires |mcu| == |scan.members| && i < |mcu| && McuFits(scan, mcu, i, st.last)
    ensures var s := McuMid(scan, st, mcu, i);
      McuMid(scan, st, mcu, i + 1) == s.(cur := s.cur + [Raw(Sar(mcu[i][0], scan.Al) % 2, 1)])
    ensures McuFits(scan, mcu, i + 1, st.last)
  {
    hide McuMid, McuFits, Sar;
    BlockStep(scan, st, mcu, i);
  }

  lemma DcBand(scan: Scan)
    requires scan.Ok() && scan.mode in {Sequential, DcFirst}
    ensures scan.Ss == 0
  {}

  /** The tokens of a sequential block: DC, AC, and an end-of-block symbol after trailing zeros. */
  lemma {:induction false} SequentialParts(scan: Scan, tabs: seq<Tab>, ci: nat, blk: Block, st: EncSt)
    requires scan.Ok() && scan.mode == Sequential && ci < scan.ncomps == |st.last| && RunBounded(st)
    requires st.n == 0
    ensures var diff := blk[0] - st.last[ci];
      var dc, ac := DcToks(scan.dcTbl[ci], diff), AcToks(scan.acTbl[ci], blk, 1, 63, 0, 0);
      var eob := if ac.1 > 0 then [Sym(scan.acTbl[ci], 0)] else [];
      var st1 := st.(cur := st.cur + dc, last := st.last[ci := blk[0]]);
      var toks := BlockToks(scan, ci, blk, st.last[ci]);
      && toks == dc + ac.0 + eob && RunBounded(st1)
      && Predict(scan, ci, blk, st.last) == st.last[ci := blk[0]]
      && (var s2 := AfterBand(scan, st1, ac.0);
          && st.(cur := st.cur + toks, last := st.last[ci := blk[0]]) == s2.(cur := s2.cur + eob)
          && s2.n == 0)
      && (BlockFits(scan, blk, st.last[ci]) <==> NBits(Magnitude(diff)) <= MAX_COEF_BITS + 1 && AcFits(blk, 1, 63, 0))
      && (AllEmittable(tabs, toks) <==>
           AllEmittable(tabs, dc) && BandOk(scan, tabs, st1, ac.0)
             && (ac.1 > 0 ==> Emittable(tabs, Sym(scan.acTbl[ci], 0))))
  {
    hide AllEmittable, Emittable, DcToks, AcToks, AcFits, NBits, RunTable;
    var diff := blk[0] - st.last[ci];
    var dc, ac := DcToks(scan.dcTbl[ci], diff), AcToks(scan.acTbl[ci], blk, 1, 63, 0, 0);
    var eob := if ac.1 > 0 then [Sym(scan.acTbl[ci], 0)] else [];
    ScaleSarZero(blk[0]);
    EmittableSplit(tabs, dc + ac.0, eob);
    EmittableSplit(tabs, dc, ac.0);
    EmittableOne(tabs, Sym(scan.acTbl[ci], 0));
    NoToks(tabs);
    assert st.cur + dc + [] + ac.0 + eob == st.cur + (dc + ac.0 + eob);
    assert st.cur + dc + ac.0 + eob == st.cur + (dc + ac.0 + eob);
    assert st.cur + dc + eob == st.cur + (dc + [] + eob);
    if ac.0 == [] { assert dc + ac.0 == dc; }
  }

  lemma StepWritten(tabs: seq<Tab>, st: EncSt, toks: seq<Token>, last: seq<int>)
    ensures Written(tabs, st) ==> (Written(tabs, st.(cur := st.cur + toks, last := last)) <==> AllEmittable(tabs, toks))
  {
    hide AllEmittable;
    EmittableSplit(tabs, st.cur, toks);
  }

  lemma FlushWritten(scan: Scan, tabs: seq<Tab>, st: EncSt)
    requires Written(tabs, st)
    ensures Written(tabs, Flush(scan, st)) <==> AllEmittable(tabs, RunToks(RunTable(scan), st.n, st.be))
  {
    hide AllEmittable, RunToks, RunTable;
    EmittableSplit(tabs, st.cur, RunToks(RunTable(scan), st.n, st.be));
  }

  lemma {:induction false} LastBytes(tabs: seq<Tab>, start: seq<nat>, segs: seq<seq<Token>>, cur: seq<Token>)
    ensures start + ClosedBytes(tabs, segs) + Seal(Flatten(tabs, cur)) == start + ScanBytes(tabs, segs + [cur])
  {
    hide Seal;
    assert (segs + [cur])[..|segs|] == segs;
  }

  /** The stages of one MCU: an error in an earlier stage is an error of the whole. */
  lemma EncodeParts(scan: Scan, tabs: seq<Tab>, st: EncSt, mcu: seq<Block>)
    requires scan.Ok() && |mcu| == |scan.members| && |st.last| == scan.ncomps
    ensures var s1 := Coding.BeginMcu(scan, st); var s2 := Body(scan, s1, mcu);
      && |s1.last| == scan.ncomps
      && Encode(scan, st, mcu) == Coding.EndMcu(scan, s2)
      && (Encodable(scan, st, mcu) <==> BodyFits(scan, s1, mcu))
      && (Written(tabs, Encode(scan, st, mcu)) <==> Written(tabs, s2))
      && (Written(tabs, s2) ==> Written(tabs, s1))
      && s1.togo == s2.togo == st.togo && s2.segs == s1.segs
      && |s1.segs| == if scan.ri > 0 && st.togo == 0 then |st.segs| + 1 else |st.segs|
  {
    hide BodyFits, Body, RunToks, RunTable, AllEmittable;
    var s1 := Coding.BeginMcu(scan, st);
    BodyFrame(scan, s1, s1, mcu);
    BodyAppends(scan, tabs, s1, mcu);
  }

  lemma BodyAppends(scan: Scan, tabs: seq<Tab>, st: EncSt, mcu: seq<Block>)
    requires scan.Ok() && |mcu| == |scan.members| && |st.last| == scan.ncomps
    ensures Written(tabs, Body(scan, st, mcu)) ==> Written(tabs, st)
  {
    hide BandOf, McuToks, RunToks, RunTable, AllEmittable;
    var r := Body(scan, st, mcu);
    assert st.cur <= r.cur;
    EmittableSplit(tabs, st.cur, r.cur[|st.cur|..]);
    assert r.cur == st.cur + r.cur[|st.cur|..];
  }

  lemma {:induction false} LowBit(x: int)
    ensures BitsOf(Unsigned(x), 1) == BitsOf(x % 2, 1)
  {
    hide BitsOf, Unsigned;
    OneBitOf(Unsigned(x));
    OneBitOf(x % 2);
    UnsignedParity(x);
  }

  lemma {:induction false} OneBitOf(v: nat)
    ensures BitsOf(v, 1) == [v % 2 == 1]
  {
    assert BitsOf(v / 2, 0) == [];
  }

  lemma UnsignedParity(x: int)
    ensures Unsigned(x) % 2 == x % 2 == x % 2 % 2
  {
    var q := x / 0x1_0000_0000;
    Remainder(x, Unsigned(x), q);
    hide Unsigned;
    SameParity(x, Unsigned(x), 0x8000_0000 * q);
  }

  lemma Remainder(x: int, u: nat, q: int)
    requires u == x % 0x1_0000_0000 && q == x / 0x1_0000_0000
    ensures x == u + 2 * (0x8000_0000 * q)
  {}

  lemma SameParity(x: int, u: nat, y: int)
    requires x == u + 2 * y
    ensures u % 2 == x % 2 == x % 2 % 2
  {}

  lemma AddsMore(cur: seq<Token>, done: seq<Token>, t: seq<Token>, rest: seq<Token>)
    ensures cur + done + t == cur + (done + t)
    ensures done + t + rest == done + (t + rest)
    ensures cur + (done + t) + rest == cur + (done + (t + rest))
  {}

  lemma ZrlStart(tabs: seq<Tab>, tbl: nat, r: nat, v: int)
    requires v != 0
    ensures [] + CoefToks(tbl, r, v) == CoefToks(tbl, r, v)
  {}

  lemma EmittableSplit(tabs: seq<Tab>, a: seq<Token>, b: seq<Token>)
    ensures AllEmittable(tabs, a + b) <==> AllEmittable(tabs, a) && AllEmittable(tabs, b)
  {
    hide Emittable;
    if AllEmittable(tabs, a + b) {
      forall i | 0 <= i < |a| ensures Emittable(tabs, a[i]) { assert (a + b)[i] == a[i]; }
      forall i | 0 <= i < |b| ensures Emittable(tabs, b[i]) { assert (a + b)[|a| + i] == b[i]; }
    }
  }

  lemma EmittableOne(tabs: seq<Tab>, t: Token)
    ensures AllEmittable(tabs, [t]) <==> Emittable(tabs, t)
  {
    hide Emittable;
    assert [t][0] == t;
  }

  lemma ZrlNext(tabs: seq<Tab>, tbl: nat, r: nat, v: int)
    requires v != 0 && r > 15
    ensures CoefToks(tbl, r, v) == [Sym(tbl, 0xF0)] + CoefToks(tbl, r - 16, v)
    ensures AllEmittable(tabs, CoefToks(tbl, r, v)) <==>
      Emittable(tabs, Sym(tbl, 0xF0)) && AllEmittable(tabs, CoefToks(tbl, r - 16, v))
  {
    hide Emittable, AllEmittable, NBits, MagBits;
    assert (r - 16) % 16 == r % 16;
    EmittableSplit(tabs, [Sym(tbl, 0xF0)], CoefToks(tbl, r - 16, v));
    EmittableOne(tabs, Sym(tbl, 0xF0));
  }

  lemma LastTwo(tabs: seq<Tab>, tbl: nat, r: nat, v: int, nbits: nat)
    requires v != 0 && r <= 15 && nbits == NBits(Magnitude(v)) && 1 <= nbits <= 16 && 0 <= MagBits(v)
    ensures CoefToks(tbl, r, v) == [Sym(tbl, 16 * r + nbits)] + [Raw(MagBits(v), nbits)]
    ensures AllEmittable(tabs, CoefToks(tbl, r, v)) <==> Emittable(tabs, Sym(tbl, 16 * r + nbits))
  {
    hide AllEmittable, NBits, MagBits, SlotOk;
    EmittableSplit(tabs, [Sym(tbl, 16 * r + nbits)], [Raw(MagBits(v), nbits)]);
    EmittableOne(tabs, Sym(tbl, 16 * r + nbits));
    EmittableOne(tabs, Raw(MagBits(v), nbits));
  }

  lemma RestartWritten(scan: Scan, tabs: seq<Tab>, st: EncSt)
    requires Written(tabs, st)
    ensures Written(tabs, Restart(scan, st)) <==> AllEmittable(tabs, RunToks(RunTable(scan), st.n, st.be))
  {
    hide RunToks, RunTable, Emittable;
    var more := RunToks(RunTable(scan), st.n, st.be);
    var cur, segs := st.cur + more, st.segs + [st.cur + more];
    assert segs[|st.segs|] == cur;
    forall i | 0 <= i < |more| ensures more[i] == cur[|st.cur| + i] {}
  }

  lemma DcNeedsCode(tabs: seq<Tab>, tbl: nat, diff: int)
    requires NBits(Magnitude(diff)) <= 16
    ensures AllEmittable(tabs, DcToks(tbl, diff)) <==> Emittable(tabs, Sym(tbl, NBits(Magnitude(diff))))
  {
    hide SlotOk, NBits, MagBits;
    assert DcToks(tbl, diff)[0] == Sym(tbl, NBits(Magnitude(diff)));
  }

  /** The bits sent for v: its low-order bits, after subtracting 1 from a negative value. */
  lemma {:induction false} MagnitudeSent(v: int, nbits: nat)
    requires nbits == NBits(Magnitude(v)) && 0 < nbits <= 16 && 0 <= MagBits(v)
    ensures BitsOf(Unsigned(if v < 0 then v - 1 else v), nbits) == BitsOf(MagBits(v), nbits)
  {
    hide BitsOf, Pow2, NBits, Shl;
    Pow2Mono(nbits, 16);
    Pow2Values();
    if v < 0 {
      var a := BorrowedBits(nbits);
      assert Unsigned(v - 1) == Shl(a, nbits) + MagBits(v);
      BitsConcat(a, MagBits(v), 0, nbits);
      NoBits(a);
      assert [] + BitsOf(MagBits(v), nbits) == BitsOf(MagBits(v), nbits);
    }
  }

  lemma {:induction false} NoBits(a: nat)
    ensures BitsOf(a, 0) == []
  {}

  /** 2^32 is a multiple of 2^n. */
  lemma BorrowedBits(n: nat) returns (a: nat)
    requires n <= 16
    ensures Shl(a, n) + Pow2(n) == 0x1_0000_0000
  {
    hide Pow2, Shl;
    a := Pow2(32 - n) - 1;
    ShlOne(n);
    ShlAdd(a, 1, n);
    ShlPow2(32 - n, n);
    Pow32();
  }

  lemma Pow32()
    ensures Pow2(32) == 0x1_0000_0000
  {
    Pow2Values();
    assert Pow2(20) == 16 * Pow2(16);
    assert Pow2(24) == 16 * Pow2(20);
    assert Pow2(28) == 16 * Pow2(24);
    assert Pow2(32) == 16 * Pow2(28);
  }

  lemma {:induction false} ShlPow2(m: nat, n: nat)
    ensures Shl(Pow2(m), n) == Pow2(m + n)
  {
    if n > 0 { ShlPow2(m, n - 1); }
  }

  lemma CloseTally(segs: seq<seq<Token>>, cur: seq<Token>)
    ensures forall t, s :: Tally(segs + [cur], [], t, s) == Tally(segs, cur, t, s)
  {
    forall t, s ensures Tally(segs + [cur], [], t, s) == Tally(segs, cur, t, s) { TallyClosed(segs, cur, t, s); }
  }

  lemma {:induction false} CloseBytes(tabs: seq<Tab>, start: seq<nat>, segs: seq<seq<Token>>, cur: seq<Token>)
    ensures start + ClosedBytes(tabs, segs) + Seal(Flatten(tabs, cur)) + [0xFF, RST0 + |segs| % 8]
         == start + ClosedBytes(tabs, segs + [cur])
    ensures Flatten(tabs, []) == []
  {
    hide Seal, ClosedBytes;
    ClosedMore(tabs, segs, cur);
    FourParts(start, ClosedBytes(tabs, segs), Seal(Flatten(tabs, cur)), [0xFF, RST0 + |segs| % 8]);
  }

  lemma {:induction false} ClosedMore(tabs: seq<Tab>, segs: seq<seq<Token>>, cur: seq<Token>)
    ensures ClosedBytes(tabs, segs + [cur]) == ClosedBytes(tabs, segs)
      + (Seal(Flatten(tabs, cur)) + [0xFF, RST0 + |segs| % 8])
  {
    hide Seal, Flatten;
    assert (segs + [cur])[..|segs|] == segs && (segs + [cur])[|segs|] == cur;
  }

  lemma FourParts(a: seq<nat>, b: seq<nat>, c: seq<nat>, d: seq<nat>)
    ensures a + b + c + d == a + (b + (c + d))
  {}

  lemma NoRun(scan: Scan, st: EncSt)
    ensures st.n == 0 ==> Flush(scan, st) == st && RunToks(RunTable(scan), st.n, st.be) == []
  {
    assert st.cur + [] == st.cur;
  }

  lemma NoToks(tabs: seq<Tab>)
    ensures AllEmittable(tabs, [])
  {}

  lemma {:induction false} RunSize(n: nat, nbits: nat)
    requires 0 < n <= 0x7FFF && nbits == NBits(n / 2)
    ensures nbits == NBits(n) - 1 && nbits <= 14
  {
    Pow2Values();
    NBitsMax(n, 15);
  }

  lemma {:induction false} EobParts(cur: seq<Token>, tbl: nat, n: nat, nbits: nat)
    requires n > 0 && nbits == NBits(n) - 1
    ensures cur + EobToks(tbl, n) ==
      if nbits > 0 then cur + [Sym(tbl, 16 * nbits)] + [Raw(Low(n, nbits), nbits)] else cur + [Sym(tbl, 16 * nbits)]
  {
    hide NBits, Low;
  }

  lemma RunSlot(scan: Scan, tabs: seq<Tab>, tables: nat)
    requires scan.Ok() && scan.mode in {AcFirst, AcRefine}
    ensures RunTable(scan) == scan.AcTable()
    ensures EncoderTables(scan, tabs) ==> SlotOk(tabs, RunTable(scan))
    ensures TablesBelow(scan, tables) ==> RunTable(scan) < tables
  {
    hide SlotOk;
  }

  /** Only the symbol can lack a code. */
  lemma {:induction false} EobNeedsCode(tabs: seq<Tab>, tbl: nat, n: nat, be: seq<Token>)
    requires 0 < n <= 0x7FFF && forall i :: 0 <= i < |be| ==> be[i].Raw? && be[i].n == 1
    ensures AllEmittable(tabs, RunToks(tbl, n, be)) <==> Emittable(tabs, Sym(tbl, 16 * (NBits(n) - 1)))
  {
    hide SlotOk, Low;
    RunSize(n, NBits(n / 2));
    var all := RunToks(tbl, n, be);
    assert all[0] == Sym(tbl, 16 * (NBits(n) - 1));
  }

  /** Raw bits do not count. */
  lemma CountNothing(segs: seq<seq<Token>>, cur: seq<Token>, raws: seq<Token>)
    requires forall i :: 0 <= i < |raws| ==> raws[i].Raw?
    ensures forall t, s :: Tally(segs, cur + raws, t, s) == Tally(segs, cur, t, s)
  {
    forall t, s ensures Tally(segs, cur + raws, t, s) == Tally(segs, cur, t, s) {
      TallyMore(segs, cur, raws, t, s);
      assert Sym(t, s) !in raws;
    }
  }

  lemma {:induction false} NothingYet(tabs: seq<Tab>, start: seq<nat>)
    ensures start + ClosedBytes(tabs, []) == start && Flatten(tabs, []) == []
    ensures forall t, s :: Tally([], [], t, s) == 0
  {}

  lemma FreshWriter(w: BitWriter)
    requires w.Valid() && w.bits == []
    ensures w.base == w.out
  {
    assert w.base + [] == w.base;
  }

  lemma SymBits(tabs: seq<Tab>, tbl: nat, s: nat)
    requires Emittable(tabs, Sym(tbl, s))
    ensures tbl < |tabs| && s < |tabs[tbl].c.ehufsi| && s < |tabs[tbl].c.ehufco|
    ensures TokBits(tabs, Sym(tbl, s)) == BitsOf(tabs[tbl].c.ehufco[s], tabs[tbl].c.ehufsi[s])
  {}

  lemma {:induction false} RawBits(tabs: seq<Tab>, v: nat, n: nat)
    ensures TokBits(tabs, Raw(v, n)) == BitsOf(v, n)
  {}
}
