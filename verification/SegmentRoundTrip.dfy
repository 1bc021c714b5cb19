/** One restart segment: whatever MCUs are coded, the decoder machine gets back the blocks
    of every one of them, across end-of-band runs and deferred correction bits. */
module SegmentRoundTrip {
  import opened Coefficients
  import opened HuffmanTables
  import opened Coding
  import opened Decoding
  import opened TokenRoundTrip
  import opened BandRoundTrip

  /** The encoder after a run of MCUs without restarts. */
  function SegRun(scan: Scan, mcus: seq<seq<Block>>): (st: EncSt)
    requires scan.Ok() && Mcus(scan, mcus)
    ensures |st.last| == scan.ncomps
  {
    if mcus == [] then Start(scan)
    else Body(scan, SegRun(scan, mcus[..|mcus| - 1]), mcus[|mcus| - 1])
  }

  ghost predicate SegFits(scan: Scan, mcus: seq<seq<Block>>)
    requires scan.Ok() && Mcus(scan, mcus)
  {
    mcus != [] ==>
      && SegFits(scan, mcus[..|mcus| - 1])
      && BodyFits(scan, SegRun(scan, mcus[..|mcus| - 1]), mcus[|mcus| - 1])
  }

  datatype SegOut = SegOut(eobrun: nat, last: seq<int>, outs: seq<seq<Block>>, rest: seq<Token>)

  ghost predicate Shaped(scan: Scan, bss: seq<seq<Block>>) {
    forall i :: 0 <= i < |bss| ==> |bss[i]| == |scan.members|
  }

  /** Decoding MCU after MCU from a token sequence. */
  ghost function DecSeg(scan: Scan, bss: seq<seq<Block>>, toks: seq<Token>): (o: Option<SegOut>)
    requires scan.Ok() && Shaped(scan, bss)
    ensures o.Some? ==> |o.value.last| == scan.ncomps && (scan.mode !in {AcFirst, AcRefine} ==> o.value.eobrun == 0)
  {
    if bss == [] then Some(SegOut(0, NoPredictions(scan), [], toks))
    else
      var before := DecSeg(scan, bss[..|bss| - 1], toks);
      if before.None? then None else DecNext(scan, before.value, bss[|bss| - 1])
  }

  ghost function DecNext(scan: Scan, o: SegOut, bs: seq<Block>): (r: Option<SegOut>)
    requires scan.Ok() && |bs| == |scan.members| && |o.last| == scan.ncomps
    requires scan.mode !in {AcFirst, AcRefine} ==> o.eobrun == 0
    ensures r.Some? ==> |r.value.last| == scan.ncomps && (scan.mode !in {AcFirst, AcRefine} ==> r.value.eobrun == 0)
  {
    InitOk(scan, o.eobrun, o.last, bs);
    var run := RunTok(scan, Init(scan, o.eobrun, o.last, bs), o.rest);
    if run.Stuck? then None
    else Some(SegOut(run.st.eobrun, run.st.last, o.outs + [run.st.blocks], run.rest))
  }

  /** Blocks to code and blocks to decode into, MCU by MCU. */
  ghost predicate Paired(scan: Scan, mcus: seq<seq<Block>>, bss: seq<seq<Block>>) {
    |mcus| == |bss| && forall i :: 0 <= i < |mcus| ==> AllReady(scan, mcus[i], bss[i])
  }

  /** The blocks of one MCU after the scan. */
  function McuTargets(scan: Scan, mcu: seq<Block>, bs: seq<Block>): seq<Block>
    requires |mcu| == |bs|
  {
    Targets(scan, mcu, bs, |mcu|)
  }

  ghost predicate Outcome(scan: Scan, mcus: seq<seq<Block>>, bss: seq<seq<Block>>, outs: seq<seq<Block>>) {
    |outs| == |mcus| == |bss| && forall i :: 0 <= i < |mcus| ==>
      |mcus[i]| == |bss[i]| && outs[i] == McuTargets(scan, mcus[i], bss[i])
  }

  /** Decoding succeeded, with the given end-of-band count and predictions, and `rest` is unread. */
  ghost predicate Decoded(scan: Scan, o: Option<SegOut>, mcus: seq<seq<Block>>, bss: seq<seq<Block>>,
                          eobrun: nat, last: seq<int>, rest: seq<Token>) {
    o.Some? && o.value.eobrun == eobrun && o.value.last == last && o.value.rest == rest
    && Outcome(scan, mcus, bss, o.value.outs)
  }

  /** Between MCUs the pending run is below the limit of the run-length code, and so are
      the buffered correction bits below the limit of their buffer. */
  ghost predicate RunBounded(st: EncSt) {
    st.n < 0x7FFF && |st.be| <= MAX_CORR_BITS - DCTSIZE2 + 1 && (st.n == 0 ==> st.be == [])
  }

  lemma {:induction false} SegRunBounded(scan: Scan, mcus: seq<seq<Block>>)
    requires scan.Ok() && Mcus(scan, mcus)
    ensures RunBounded(SegRun(scan, mcus))
    ensures scan.mode !in {AcFirst, AcRefine} ==> SegRun(scan, mcus).n == 0
  {
    hide BandOf, McuToks, RunToks;
    if mcus != [] {
      SegRunBounded(scan, mcus[..|mcus| - 1]);
    }
  }

  /** One more MCU decodes, given that the earlier ones do. */
  lemma DecSnoc(scan: Scan, mcus: seq<seq<Block>>, bss: seq<seq<Block>>, toks: seq<Token>, mid: seq<Token>,
                e0: nat, last0: seq<int>, e: nat, last: seq<int>, rest: seq<Token>)
    requires scan.Ok() && Shaped(scan, bss) && |mcus| == |bss| > 0 && |mcus[|mcus| - 1]| == |scan.members|
    requires Decoded(scan, DecSeg(scan, bss[..|bss| - 1], toks), mcus[..|mcus| - 1], bss[..|bss| - 1], e0, last0, mid)
    requires |last0| == scan.ncomps && (scan.mode !in {AcFirst, AcRefine} ==> e0 == 0)
    requires StOk(scan, Init(scan, e0, last0, bss[|bss| - 1]))
    requires EndsAs(RunTok(scan, Init(scan, e0, last0, bss[|bss| - 1]), mid), rest, e, last,
                    McuTargets(scan, mcus[|mcus| - 1], bss[|bss| - 1]))
    ensures Decoded(scan, DecSeg(scan, bss, toks), mcus, bss, e, last, rest)
  {
    hide RunTok, Init, McuTargets, StOk;
    var n := |mcus| - 1;
    var before := DecSeg(scan, bss[..n], toks).value;
    var o := DecSeg(scan, bss, toks).value;
    assert o.outs == before.outs + [McuTargets(scan, mcus[n], bss[n])];
    forall i | 0 <= i < |mcus|
      ensures |mcus[i]| == |bss[i]| && o.outs[i] == McuTargets(scan, mcus[i], bss[i])
    {
      if i < n { assert mcus[..n][i] == mcus[i] && bss[..n][i] == bss[i]; }
    }
  }

  /** What is still to be written for the pending run if it ends up with m blocks. */
  function Owed(scan: Scan, st: EncSt, m: nat): seq<Token> {
    RunToks(RunTable(scan), m, st.be)
  }

  /** m is a possible final length of the pending run. */
  ghost predicate Extends(st: EncSt, m: nat) {
    if st.n == 0 then m == 0 else st.n <= m <= 0x7FFF
  }

  ghost predicate SegPre(scan: Scan, mcus: seq<seq<Block>>, bss: seq<seq<Block>>) {
    scan.Ok() && Mcus(scan, mcus) && Shaped(scan, bss) && Paired(scan, mcus, bss) && SegFits(scan, mcus)
  }

  lemma {:induction false} SegPrefix(scan: Scan, mcus: seq<seq<Block>>, bss: seq<seq<Block>>)
    requires SegPre(scan, mcus, bss) && |mcus| > 0
    ensures SegPre(scan, mcus[..|mcus| - 1], bss[..|bss| - 1])
    ensures BodyFits(scan, SegRun(scan, mcus[..|mcus| - 1]), mcus[|mcus| - 1])
    ensures AllReady(scan, mcus[|mcus| - 1], bss[|bss| - 1])
  {
    hide AllReady, BodyFits, Body;
  }

  function PlainToks(scan: Scan, st: EncSt, mcu: seq<Block>): seq<Token>
    requires scan.Ok() && scan.mode in {Sequential, DcFirst, DcRefine} && |st.last| == scan.ncomps
      && |mcu| == |scan.members|
  {
    McuToks(scan, mcu, |mcu|, st.last).0
  }

  /** Does this band start a new end-of-band run? */
  predicate StartsRun(st: EncSt, band: BandToks) {
    band.pre != [] || st.n == 0
  }

  /** The final length of the end-of-band run that the band belongs to, when m more is pending after it. */
  function RunLength(st0: EncSt, band: BandToks, m: nat): (m1: nat)
    ensures m1 > 0
  {
    if m > 0 then m else if StartsRun(st0, band) then 1 else st0.n + 1
  }

  /** The token sequence is the same whether this band's end-of-band is written now or later. */
  lemma FreshTokens(scan: Scan, st0: EncSt, c: Block, m: nat, rest: seq<Token>)
    requires scan.Ok() && scan.mode in {AcFirst, AcRefine} && RunBounded(st0)
    requires StartsRun(st0, BandOf(scan, c)) && (BandOf(scan, c).pre == [] ==> BandOf(scan, c).more)
    requires Extends(AddBand(scan, st0, BandOf(scan, c)), m)
    ensures var band := BandOf(scan, c); var st := AddBand(scan, st0, band); var m1 := RunLength(st0, band, m);
      && st.cur + (Owed(scan, st, m) + rest)
         == st0.cur + (Owed(scan, st0, st0.n) + (band.pre + (EobOf(scan, band, m1) + rest)))
      && m1 <= 0x7FFF && m - st.n == (if band.more then m1 - 1 else 0)
  {
    hide BandOf, EobToks;
    var band := BandOf(scan, c);
    var st, m1 := AddBand(scan, st0, band), RunLength(st0, band, m);
    var o0, eob := Owed(scan, st0, st0.n), EobOf(scan, band, m1);
    assert RunTable(scan) == scan.AcTable();
    if band.pre == [] { assert o0 == []; }
    assert st.last == st0.last;
    if st.n == 0 {
      assert Owed(scan, st, 0) == [];
      assert st.cur == st0.cur + o0 + band.pre + eob || (band.pre == [] && st.cur == st0.cur + eob);
    } else {
      assert Owed(scan, st, m) == eob;
      assert st.cur == st0.cur + o0 + band.pre || (band.pre == [] && st.cur == st0.cur);
    }
  }

  lemma InRunTokens(scan: Scan, st0: EncSt, c: Block, m: nat, rest: seq<Token>)
    requires scan.Ok() && scan.mode in {AcFirst, AcRefine} && RunBounded(st0)
    requires !StartsRun(st0, BandOf(scan, c)) && BandOf(scan, c).more
    requires Extends(AddBand(scan, st0, BandOf(scan, c)), m)
    ensures var band := BandOf(scan, c); var st := AddBand(scan, st0, band); var m1 := RunLength(st0, band, m);
      && st.cur + (Owed(scan, st, m) + rest) == st0.cur + (Owed(scan, st0, m1) + (band.tail + rest))
      && Extends(st0, m1) && m1 > st0.n && m - st.n == m1 - st0.n - 1
  {
    hide BandOf, EobToks;
    var band := BandOf(scan, c);
    var st, m1 := AddBand(scan, st0, band), RunLength(st0, band, m);
    assert RunTable(scan) == scan.AcTable();
    var e := EobToks(scan.AcTable(), m1);
    assert Owed(scan, st0, m1) == e + st0.be;
    if st.n == 0 {
      assert Owed(scan, st, 0) == [];
      assert st.cur == st0.cur + (e + (st0.be + band.tail));
    } else {
      assert Owed(scan, st, m) == e + (st0.be + band.tail);
    }
  }

  lemma LastPrediction(scan: Scan, st0: EncSt, b: BandToks)
    ensures AddBand(scan, st0, b).last == st0.last
  {
    hide RunToks;
  }

  lemma SegShape(scan: Scan, mcus: seq<seq<Block>>, bss: seq<seq<Block>>)
    requires SegPre(scan, mcus, bss) && |mcus| > 0
    ensures scan.Ok() && |mcus| == |bss| && |mcus[|mcus| - 1]| == |bss[|bss| - 1]| == |scan.members|
    ensures scan.mode in {AcFirst, AcRefine} ==> |scan.members| == 1
    ensures Mcus(scan, mcus) && Mcus(scan, mcus[..|mcus| - 1])
    ensures Shaped(scan, bss) && Shaped(scan, bss[..|bss| - 1])
  {
    hide AllReady, SegFits;
    SegPrefix(scan, mcus, bss);
  }

  /** One MCU of a sequential or DC scan appends its tokens. */
  lemma {:induction false} PlainBody(scan: Scan, mcus: seq<seq<Block>>, bss: seq<seq<Block>>, m: nat, rest: seq<Token>)
    requires SegPre(scan, mcus, bss) && |mcus| > 0 && scan.mode in {Sequential, DcFirst, DcRefine}
    requires RunBounded(SegRun(scan, mcus[..|mcus| - 1])) && SegRun(scan, mcus[..|mcus| - 1]).n == 0
    requires Extends(SegRun(scan, mcus), m)
    ensures var n := |mcus| - 1; var st0, st := SegRun(scan, mcus[..n]), SegRun(scan, mcus);
      && m == st.n == 0 && st.last == McuToks(scan, mcus[n], |mcus[n]|, st0.last).1
      && st.cur + (Owed(scan, st, m) + rest) == st0.cur + (Owed(scan, st0, 0) + (PlainToks(scan, st0, mcus[n]) + rest))
      && McuFits(scan, mcus[n], |mcus[n]|, st0.last) && AllReady(scan, mcus[n], bss[n])
  {
    hide McuToks, AllReady, SegFits, McuFits;
    SegPrefix(scan, mcus, bss);
    var n := |mcus| - 1;
    var st0, st := SegRun(scan, mcus[..n]), SegRun(scan, mcus);
    assert st == Body(scan, st0, mcus[n]);
    assert Owed(scan, st, m) == [] == Owed(scan, st0, 0);
  }

  lemma {:induction false} SegPlain(scan: Scan, mcus: seq<seq<Block>>, bss: seq<seq<Block>>, m: nat, rest: seq<Token>)
    requires SegPre(scan, mcus, bss) && |mcus| > 0 && scan.mode in {Sequential, DcFirst, DcRefine}
    requires Extends(SegRun(scan, mcus), m)
    requires scan.Ok() && |mcus| == |bss| && Shaped(scan, bss) && Shaped(scan, bss[..|bss| - 1])
    requires Mcus(scan, mcus) && Mcus(scan, mcus[..|mcus| - 1]) && |mcus[|mcus| - 1]| == |scan.members|
    requires var n := |mcus| - 1; var st0 := SegRun(scan, mcus[..n]);
      && RunBounded(st0) && st0.n == 0
      && Decoded(scan, DecSeg(scan, bss[..n], st0.cur + (Owed(scan, st0, 0) + (PlainToks(scan, st0, mcus[n]) + rest))),
                 mcus[..n], bss[..n], 0, st0.last, PlainToks(scan, st0, mcus[n]) + rest)
    ensures var st := SegRun(scan, mcus);
      m >= st.n && Decoded(scan, DecSeg(scan, bss, st.cur + (Owed(scan, st, m) + rest)), mcus, bss, m - st.n, st.last,
        rest)
  {
    hide DecSeg, RunTok, McuToks, McuTargets, Decoded, EndsAs, Init, SegRun, Owed, SegPre, StOk, AllReady, McuFits;
    SegShape(scan, mcus, bss);
    PlainBody(scan, mcus, bss, m, rest);
    var n := |mcus| - 1;
    var st0, st := SegRun(scan, mcus[..n]), SegRun(scan, mcus);
    McuDecodes(scan, mcus[n], bss[n], st0.last, rest);
    TargetsOf(scan, mcus[n], bss[n]);
    DecSnoc(scan, mcus, bss, st.cur + (Owed(scan, st, m) + rest), PlainToks(scan, st0, mcus[n]) + rest,
            0, st0.last, 0, st.last, rest);
  }

  lemma TargetsOf(scan: Scan, mcu: seq<Block>, bs: seq<Block>)
    requires |mcu| == |bs|
    ensures McuTargets(scan, mcu, bs) == Targets(scan, mcu, bs, |mcu|)
  {}

  /** A band is coded against the block the decoder holds. */
  lemma {:induction false} BandPairs(scan: Scan, mcus: seq<seq<Block>>, bss: seq<seq<Block>>)
    requires SegPre(scan, mcus, bss) && |mcus| > 0 && scan.mode in {AcFirst, AcRefine}
    ensures var n := |mcus| - 1; var st0 := SegRun(scan, mcus[..n]);
      && |mcus[n]| == |bss[n]| == 1 && bss[n] == [bss[n][0]]
      && BandPair(scan, mcus[n][0], bss[n][0], st0.last)
      && SegRun(scan, mcus) == AddBand(scan, st0, BandOf(scan, mcus[n][0]))
      && McuTargets(scan, mcus[n], bss[n]) == [Target(scan, mcus[n][0], bss[n][0])]
  {
    hide BandOf, AddBand, Target, Ready, Coefs, BlockFits;
    SegPrefix(scan, mcus, bss);
  }

  lemma {:induction false} SegFresh(scan: Scan, mcus: seq<seq<Block>>, bss: seq<seq<Block>>, m: nat, rest: seq<Token>)
    requires SegPre(scan, mcus, bss) && |mcus| > 0 && scan.mode in {AcFirst, AcRefine}
    requires Extends(SegRun(scan, mcus), m)
    requires scan.Ok() && |mcus| == |bss| && Shaped(scan, bss) && Shaped(scan, bss[..|bss| - 1])
    requires Mcus(scan, mcus) && Mcus(scan, mcus[..|mcus| - 1]) && |mcus[|mcus| - 1]| == |scan.members|
    requires |scan.members| == 1
    requires var n := |mcus| - 1; var st0 := SegRun(scan, mcus[..n]); var band := BandOf(scan, mcus[n][0]);
      var mid := band.pre + (EobOf(scan, band, RunLength(st0, band, m)) + rest);
      && RunBounded(st0) && StartsRun(st0, band)
      && Decoded(scan, DecSeg(scan, bss[..n], st0.cur + (Owed(scan, st0, st0.n) + mid)), mcus[..n], bss[..n], 0,
         st0.last, mid)
    ensures var st := SegRun(scan, mcus);
      m >= st.n && Decoded(scan, DecSeg(scan, bss, st.cur + (Owed(scan, st, m) + rest)), mcus, bss, m - st.n, st.last,
        rest)
  {
    hide DecSeg, RunTok, BandOf, AddBand, Decoded, EndsAs, Init, SegRun, Owed, EobOf, SegPre, BandPair, Target,
         McuTargets, StOk;
    SegShape(scan, mcus, bss);
    var n := |mcus| - 1;
    var st0, c := SegRun(scan, mcus[..n]), mcus[n][0];
    var band := BandOf(scan, c);
    BandPairs(scan, mcus, bss);
    if band.pre == [] { EmptyPrefixRuns(scan, c); }
    FreshTokens(scan, st0, c, m, rest);
    LastPrediction(scan, st0, band);
    var m1 := RunLength(st0, band, m);
    BandDecodes(scan, c, bss[n][0], st0.last, m1, rest);
    var st := SegRun(scan, mcus);
    DecSnoc(scan, mcus, bss, st.cur + (Owed(scan, st, m) + rest), band.pre + (EobOf(scan, band, m1) + rest),
            0, st0.last, m - st.n, st.last, rest);
  }

  lemma {:induction false} SegInRun(scan: Scan, mcus: seq<seq<Block>>, bss: seq<seq<Block>>, m: nat, rest: seq<Token>)
    requires SegPre(scan, mcus, bss) && |mcus| > 0 && scan.mode in {AcFirst, AcRefine}
    requires Extends(SegRun(scan, mcus), m)
    requires scan.Ok() && |mcus| == |bss| && Shaped(scan, bss) && Shaped(scan, bss[..|bss| - 1])
    requires Mcus(scan, mcus) && Mcus(scan, mcus[..|mcus| - 1]) && |mcus[|mcus| - 1]| == |scan.members|
    requires |scan.members| == 1
    requires var n := |mcus| - 1; var st0 := SegRun(scan, mcus[..n]); var band := BandOf(scan, mcus[n][0]);
      var m1 := RunLength(st0, band, m);
      && RunBounded(st0) && !StartsRun(st0, band) && m1 >= st0.n
      && Decoded(scan, DecSeg(scan, bss[..n], st0.cur + (Owed(scan, st0, m1) + (band.tail + rest))),
                 mcus[..n], bss[..n], m1 - st0.n, st0.last, band.tail + rest)
    ensures var st := SegRun(scan, mcus);
      m >= st.n && Decoded(scan, DecSeg(scan, bss, st.cur + (Owed(scan, st, m) + rest)), mcus, bss, m - st.n, st.last,
        rest)
  {
    hide DecSeg, RunTok, BandOf, AddBand, Decoded, EndsAs, Init, SegRun, Owed, EobOf, SegPre, BandPair, Target,
         McuTargets, StOk;
    SegShape(scan, mcus, bss);
    var n := |mcus| - 1;
    var st0, c := SegRun(scan, mcus[..n]), mcus[n][0];
    var band := BandOf(scan, c);
    BandPairs(scan, mcus, bss);
    EmptyPrefixRuns(scan, c);
    InRunTokens(scan, st0, c, m, rest);
    LastPrediction(scan, st0, band);
    var m1 := RunLength(st0, band, m);
    BandInRun(scan, c, bss[n][0], st0.last, m1 - st0.n, rest);
    var st := SegRun(scan, mcus);
    DecSnoc(scan, mcus, bss, st.cur + (Owed(scan, st, m) + rest), band.tail + rest,
            m1 - st0.n, st0.last, m - st.n, st.last, rest);
  }

  lemma {:induction false} EmptySegment(scan: Scan, mcus: seq<seq<Block>>, bss: seq<seq<Block>>, m: nat,
                                        rest: seq<Token>)
    requires SegPre(scan, mcus, bss) && mcus == [] && Extends(SegRun(scan, mcus), m)
    ensures var st := SegRun(scan, mcus);
      m >= st.n && Decoded(scan, DecSeg(scan, bss, st.cur + (Owed(scan, st, m) + rest)), mcus, bss, m - st.n, st.last,
        rest)
  {
    assert [] + ([] + rest) == rest;
  }

  /** The final run length is within the limits wherever the induction needs it. */
  lemma {:induction false} RunLengthOk(scan: Scan, mcus: seq<seq<Block>>, bss: seq<seq<Block>>, m: nat)
    requires SegPre(scan, mcus, bss) && |mcus| > 0 && scan.mode in {AcFirst, AcRefine}
    requires Extends(SegRun(scan, mcus), m) && RunBounded(SegRun(scan, mcus[..|mcus| - 1]))
    ensures var st0 := SegRun(scan, mcus[..|mcus| - 1]); var band := BandOf(scan, mcus[|mcus| - 1][0]);
      && Extends(st0, st0.n)
      && (!StartsRun(st0, band) ==> Extends(st0, RunLength(st0, band, m)))
  {
    hide BandOf, AddBand, SegPre, SegRun, BandPair, McuTargets, Target;
    SegShape(scan, mcus, bss);
    BandPairs(scan, mcus, bss);
    var st0, band := SegRun(scan, mcus[..|mcus| - 1]), BandOf(scan, mcus[|mcus| - 1][0]);
    if !StartsRun(st0, band) {
      EmptyPrefixRuns(scan, mcus[|mcus| - 1][0]);
      InRunTokens(scan, st0, mcus[|mcus| - 1][0], m, []);
    }
  }

  /** The tokens of a segment, whatever follows: every MCU coded so far decodes, and the decoder
      is left with the part of the pending run that belongs to later MCUs. */
  lemma {:induction false} SegDecodes(scan: Scan, mcus: seq<seq<Block>>, bss: seq<seq<Block>>, m: nat, rest: seq<Token>)
    requires SegPre(scan, mcus, bss) && Extends(SegRun(scan, mcus), m)
    ensures var st := SegRun(scan, mcus);
      m >= st.n && Decoded(scan, DecSeg(scan, bss, st.cur + (Owed(scan, st, m) + rest)), mcus, bss, m - st.n, st.last,
        rest)
    decreases |mcus|
  {
    hide DecSeg, Owed, SegRun, SegPre, BandOf, EobOf, Decoded;
    if mcus == [] {
      EmptySegment(scan, mcus, bss, m, rest);
    } else {
      SegPrefix(scan, mcus, bss);
      var n := |mcus| - 1;
      SegShape(scan, mcus, bss);
      var st0 := SegRun(scan, mcus[..n]);
      SegRunBounded(scan, mcus[..n]);
      if scan.mode !in {AcFirst, AcRefine} {
        SegDecodes(scan, mcus[..n], bss[..n], 0, PlainToks(scan, st0, mcus[n]) + rest);
        SegPlain(scan, mcus, bss, m, rest);
      } else {
        var band := BandOf(scan, mcus[n][0]);
        var m1 := RunLength(st0, band, m);
        RunLengthOk(scan, mcus, bss, m);
        if StartsRun(st0, band) {
          SegDecodes(scan, mcus[..n], bss[..n], st0.n, band.pre + (EobOf(scan, band, m1) + rest));
          SegFresh(scan, mcus, bss, m, rest);
        } else {
          SegDecodes(scan, mcus[..n], bss[..n], m1, band.tail + rest);
          SegInRun(scan, mcus, bss, m, rest);
        }
      }
    }
  }
}
