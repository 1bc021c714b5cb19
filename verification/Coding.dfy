/** What the Huffman encoders emit, as sequences of tokens: a token is either a
    Huffman-coded symbol or a field of raw bits. Both the statistics pass and the
    output pass of jchuff.c and jcphuff.c follow this description. */
module Coding {
  import opened Bits
  import opened Coefficients

  const MAX_COEF_BITS: nat := 10
  const MAX_CORR_BITS: nat := 1000
  const DCTSIZE2: nat := 64

  datatype Token = Sym(tbl: nat, s: nat) | Raw(v: nat, n: nat)

  datatype Mode = Sequential | DcFirst | AcFirst | DcRefine | AcRefine

  /** One scan: its kind, band, bit position, restart interval (0 = none), and for each block
      of an MCU the scan component it belongs to; dcTbl and acTbl are indexed by component. */
  datatype Scan = Scan(mode: Mode, Ss: nat, Se: nat, Al: nat, ri: nat,
                       members: seq<nat>, ncomps: nat, dcTbl: seq<nat>, acTbl: seq<nat>)
  {
    ghost predicate Ok() {
      && ncomps == |dcTbl| == |acTbl|
      && (forall i :: 0 <= i < |members| ==> members[i] < ncomps)
      && Al <= 13
      && match mode
         case Sequential => Ss == 0 && Se == 63 && Al == 0
         case DcFirst => Ss == Se == 0
         case DcRefine => Ss == Se == 0
         case AcFirst => 1 <= Ss <= Se <= 63 && |members| == 1
         case AcRefine => 1 <= Ss <= Se <= 63 && |members| == 1
    }

    predicate Refines() {
      mode == DcRefine || mode == AcRefine
    }

    predicate UsesDc() {
      mode == Sequential || mode == DcFirst
    }

    predicate UsesAc() {
      mode == Sequential || mode == AcFirst || mode == AcRefine
    }

    predicate InBand(k: nat) {
      Ss <= k <= Se
    }

    /** The AC table of the only component of an AC scan. */
    function AcTable(): nat
      requires Ok() && (mode == AcFirst || mode == AcRefine)
    {
      acTbl[members[0]]
    }
  }

  ghost predicate Coefs(blk: Block) {
    forall k :: 0 <= k < 64 ==> -32768 <= blk[k] < 32768
  }

  /** A DC difference: its size category, then its magnitude bits. */
  function DcToks(tbl: nat, diff: int): seq<Token> {
    var nb := NBits(Magnitude(diff));
    [Sym(tbl, nb)] + if nb > 0 then (ExtendMag(diff); [Raw(MagBits(diff), nb)]) else []
  }

  /** One ZRL symbol for every 16 zeros of a run. */
  function ZrlToks(tbl: nat, r: nat): seq<Token> {
    if r > 15 then [Sym(tbl, 0xF0)] + ZrlToks(tbl, r - 16) else []
  }

  /** The nonzero coefficient v after a run of r zeros. */
  function CoefToks(tbl: nat, r: nat, v: int): seq<Token>
    requires v != 0
  {
    ExtendMag(v);
    var nb := NBits(Magnitude(v));
    ZrlToks(tbl, r) + [Sym(tbl, 16 * (r % 16) + nb), Raw(MagBits(v), nb)]
  }

  /** The band k..Se of a block, transformed by Al, after r zeros: its tokens and the trailing run. */
  function AcToks(tbl: nat, blk: Block, k: nat, Se: nat, Al: nat, r: nat): (seq<Token>, nat)
    requires Se < 64 && k <= Se + 1
    decreases Se + 1 - k
  {
    if k > Se then ([], r)
    else
      var v := Shrink(blk[k], Al);
      if v == 0 then AcToks(tbl, blk, k + 1, Se, Al, r + 1)
      else
        var rest := AcToks(tbl, blk, k + 1, Se, Al, 0);
        (CoefToks(tbl, r, v) + rest.0, rest.1)
  }

  /** Every transformed coefficient of the band fits its size category. */
  ghost predicate AcFits(blk: Block, k: nat, Se: nat, Al: nat)
    requires Se < 64
  {
    forall j :: k <= j <= Se ==> NBits(Magnitude(Shrink(blk[j], Al))) <= MAX_COEF_BITS
  }

  /** The transformed DC value that the coder predicts from and codes. */
  function DcValue(scan: Scan, blk: Block): int {
    Sar(blk[0], scan.Al)
  }

  /** One block of a sequential or DC scan, given the DC prediction. */
  function BlockToks(scan: Scan, ci: nat, blk: Block, pred: int): seq<Token>
    requires scan.Ok() && ci < scan.ncomps && scan.mode in {Sequential, DcFirst, DcRefine}
  {
    if scan.mode == DcRefine then [Raw(DcValue(scan, blk) % 2, 1)]
    else
      var dc := DcToks(scan.dcTbl[ci], DcValue(scan, blk) - pred);
      if scan.mode == DcFirst then dc
      else
        var ac := AcToks(scan.acTbl[ci], blk, 1, 63, 0, 0);
        dc + ac.0 + if ac.1 > 0 then [Sym(scan.acTbl[ci], 0)] else []
  }

  ghost predicate BlockFits(scan: Scan, blk: Block, pred: int) {
    match scan.mode
    case DcRefine => true
    case AcRefine => true
    case DcFirst => NBits(Magnitude(DcValue(scan, blk) - pred)) <= MAX_COEF_BITS + 1
    case Sequential => NBits(Magnitude(DcValue(scan, blk) - pred)) <= MAX_COEF_BITS + 1 && AcFits(blk, 1, 63, 0)
    case AcFirst => scan.Se < 64 && AcFits(blk, scan.Ss, scan.Se, scan.Al)
  }

  /** The predictions after one more block. */
  function Predict(scan: Scan, ci: nat, blk: Block, last: seq<int>): (r: seq<int>)
    requires ci < |last|
    ensures |r| == |last|
  {
    if scan.mode == DcRefine then last else last[ci := DcValue(scan, blk)]
  }

  /** The first i blocks of an MCU of a sequential or DC scan. */
  function McuToks(scan: Scan, mcu: seq<Block>, i: nat, last: seq<int>): (r: (seq<Token>, seq<int>))
    requires scan.Ok() && scan.mode in {Sequential, DcFirst, DcRefine} && |last| == scan.ncomps
    requires |mcu| == |scan.members| && i <= |mcu|
    ensures |r.1| == |last|
  {
    if i == 0 then ([], last)
    else
      var before := McuToks(scan, mcu, i - 1, last);
      var ci := scan.members[i - 1];
      (before.0 + BlockToks(scan, ci, mcu[i - 1], before.1[ci]), Predict(scan, ci, mcu[i - 1], before.1))
  }

  ghost predicate McuFits(scan: Scan, mcu: seq<Block>, i: nat, last: seq<int>)
    requires scan.Ok() && scan.mode in {Sequential, DcFirst, DcRefine} && |last| == scan.ncomps
    requires |mcu| == |scan.members| && i <= |mcu|
  {
    forall j :: 0 <= j < i ==> BlockFits(scan, mcu[j], McuToks(scan, mcu, j, last).1[scan.members[j]])
  }

  /** A block of an AC scan: the tokens up to its last new coefficient, then, if the band is not
      complete, the correction bits that travel with its end-of-band. */
  datatype BandToks = BandToks(pre: seq<Token>, tail: seq<Token>, more: bool)

  /** The magnitude of coefficient k of an AC refinement scan, point transform applied. */
  function AbsVal(blk: Block, k: nat, Al: nat): nat
    requires k < 64
  {
    Shr(Magnitude(blk[k]), Al)
  }

  /** EOB: the index of the last newly nonzero coefficient, or 0. */
  function LastNew(blk: Block, k: nat, Ss: nat, Al: nat): (e: nat)
    requires 0 < Ss <= k <= 64
    ensures e < k && (e == 0 || (e >= Ss && AbsVal(blk, e, Al) == 1))
    ensures forall j :: Ss <= j < k && AbsVal(blk, j, Al) == 1 ==> j <= e
  {
    if k == Ss then 0
    else if AbsVal(blk, k - 1, Al) == 1 then k - 1
    else LastNew(blk, k - 1, Ss, Al)
  }

  function SignToks(tbl: nat, r: nat, c: int): seq<Token> {
    [Sym(tbl, 16 * r + 1), Raw(if c < 0 then 0 else 1, 1)]
  }

  /** The loop of encode_mcu_AC_refine from coefficient k, with r zeros and the correction
      bits br pending. */
  function RefineToks(tbl: nat, blk: Block, k: nat, Se: nat, Al: nat, eob: nat, r: nat, br: seq<Token>): BandToks
    requires Se < 64 && k <= Se + 1
    decreases Se + 1 - k, r
  {
    if k > Se then BandToks([], br, r > 0 || |br| > 0)
    else
      var a := AbsVal(blk, k, Al);
      if a == 0 then RefineToks(tbl, blk, k + 1, Se, Al, eob, r + 1, br)
      else if r > 15 && k <= eob then
        var rest := RefineToks(tbl, blk, k, Se, Al, eob, r - 16, []);
        rest.(pre := [Sym(tbl, 0xF0)] + br + rest.pre)
      else if a > 1 then RefineToks(tbl, blk, k + 1, Se, Al, eob, r, br + [Raw(a % 2, 1)])
      else
        var rest := RefineToks(tbl, blk, k + 1, Se, Al, eob, 0, []);
        rest.(pre := SignToks(tbl, r, blk[k]) + br + rest.pre)
  }

  function BandOf(scan: Scan, blk: Block): BandToks
    requires scan.Ok() && scan.mode in {AcFirst, AcRefine}
  {
    if scan.mode == AcFirst then
      var ac := AcToks(scan.AcTable(), blk, scan.Ss, scan.Se, scan.Al, 0);
      BandToks(ac.0, [], ac.1 > 0)
    else
      RefineToks(scan.AcTable(), blk, scan.Ss, scan.Se, scan.Al, LastNew(blk, scan.Se + 1, scan.Ss, scan.Al), 0, [])
  }

  /** An end-of-band run of n blocks: its size symbol, then the bits below the leading one. */
  function EobToks(tbl: nat, n: nat): seq<Token>
    requires n > 0
  {
    var nb := NBits(n) - 1;
    [Sym(tbl, 16 * nb)] + if nb > 0 then [Raw(Low(n, nb), nb)] else []
  }

  /** emit_eobrun: the pending run, then the correction bits buffered for its blocks. */
  function RunToks(tbl: nat, n: nat, be: seq<Token>): seq<Token> {
    if n > 0 then EobToks(tbl, n) + be else []
  }

  /** The encoder between MCUs: closed restart segments, the current segment, the pending
      end-of-band run with its correction bits, predictions, and the restart countdown. */
  datatype EncSt = EncSt(segs: seq<seq<Token>>, cur: seq<Token>, n: nat, be: seq<Token>, last: seq<int>, togo: nat)

  function NoPredictions(scan: Scan): (last: seq<int>)
    ensures |last| == scan.ncomps
  {
    seq(scan.ncomps, _ => 0)
  }

  function Start(scan: Scan): EncSt {
    EncSt([], [], 0, [], NoPredictions(scan), scan.ri)
  }

  /** The table that codes end-of-band runs; irrelevant outside AC scans. */
  function RunTable(scan: Scan): nat {
    if scan.mode in {AcFirst, AcRefine} && |scan.members| > 0 && scan.members[0] < |scan.acTbl|
    then scan.acTbl[scan.members[0]] else 0
  }

  /** emit_eobrun */
  function Flush(scan: Scan, st: EncSt): (r: EncSt) {
    st.(cur := st.cur + RunToks(RunTable(scan), st.n, st.be), n := 0, be := if st.n > 0 then [] else st.be)
  }

  /** emit_restart */
  function Restart(scan: Scan, st: EncSt): EncSt {
    var f := Flush(scan, st);
    EncSt(f.segs + [f.cur], [], 0, [], NoPredictions(scan), f.togo)
  }

  /** The body of an AC encoder for one block. */
  function AddBand(scan: Scan, st: EncSt, b: BandToks): EncSt {
    var s1 := if b.pre == [] then st else var f := Flush(scan, st); f.(cur := f.cur + b.pre);
    if b.more then
      var s2 := s1.(n := s1.n + 1, be := s1.be + b.tail);
      if s2.n == 0x7FFF || |s2.be| > MAX_CORR_BITS - DCTSIZE2 + 1 then Flush(scan, s2) else s2
    else s1
  }

  /** The blocks of one MCU, restart handling aside. */
  function Body(scan: Scan, st: EncSt, mcu: seq<Block>): EncSt
    requires scan.Ok() && |mcu| == |scan.members| && |st.last| == scan.ncomps
  {
    if scan.mode in {AcFirst, AcRefine} then AddBand(scan, st, BandOf(scan, mcu[0]))
    else
      var r := McuToks(scan, mcu, |mcu|, st.last);
      st.(cur := st.cur + r.0, last := r.1)
  }

  ghost predicate BodyFits(scan: Scan, st: EncSt, mcu: seq<Block>)
    requires scan.Ok() && |mcu| == |scan.members| && |st.last| == scan.ncomps
  {
    if scan.mode in {AcFirst, AcRefine} then BlockFits(scan, mcu[0], 0)
    else McuFits(scan, mcu, |mcu|, st.last)
  }

  function BeginMcu(scan: Scan, st: EncSt): (r: EncSt)
    requires |st.last| == scan.ncomps
    ensures |r.last| == scan.ncomps
  {
    if scan.ri > 0 && st.togo == 0 then Restart(scan, st) else st
  }

  function EndMcu(scan: Scan, st: EncSt): EncSt {
    if scan.ri > 0 then st.(togo := if st.togo == 0 then scan.ri - 1 else st.togo - 1) else st
  }

  function Encode(scan: Scan, st: EncSt, mcu: seq<Block>): EncSt
    requires scan.Ok() && |mcu| == |scan.members| && |st.last| == scan.ncomps
  {
    EndMcu(scan, Body(scan, BeginMcu(scan, st), mcu))
  }

  ghost predicate Encodable(scan: Scan, st: EncSt, mcu: seq<Block>)
    requires scan.Ok() && |mcu| == |scan.members| && |st.last| == scan.ncomps
  {
    BodyFits(scan, BeginMcu(scan, st), mcu)
  }

  ghost predicate Mcus(scan: Scan, mcus: seq<seq<Block>>) {
    forall i :: 0 <= i < |mcus| ==> |mcus[i]| == |scan.members| && forall j :: 0 <= j < |mcus[i]| ==> Coefs(mcus[i][j])
  }

  /** The encoder after a sequence of MCUs. */
  function Run(scan: Scan, mcus: seq<seq<Block>>): (st: EncSt)
    requires scan.Ok() && Mcus(scan, mcus)
    ensures |st.last| == scan.ncomps
  {
    if mcus == [] then Start(scan)
    else
      var before := Run(scan, mcus[..|mcus| - 1]);
      var mcu := mcus[|mcus| - 1];
      Encode(scan, before, mcu)
  }

  /** No MCU of the sequence makes the encoder report a coefficient out of range. */
  ghost predicate AllFit(scan: Scan, mcus: seq<seq<Block>>)
    requires scan.Ok() && Mcus(scan, mcus)
  {
    mcus != [] ==>
      && AllFit(scan, mcus[..|mcus| - 1])
      && Encodable(scan, Run(scan, mcus[..|mcus| - 1]), mcus[|mcus| - 1])
  }

  /** The segments of the whole scan, after finish_pass. */
  function Segments(scan: Scan, mcus: seq<seq<Block>>): seq<seq<Token>>
    requires scan.Ok() && Mcus(scan, mcus)
  {
    var f := Flush(scan, Run(scan, mcus));
    f.segs + [f.cur]
  }

  // ---- What the specification leaves no choice about ----

  /** The coder takes AC values of magnitudes below 1024 and DC differences of magnitudes below 2048, and no others. */
  lemma CodedRange(blk: Block, Ss: nat, Se: nat, Al: nat, diff: int)
    requires Se < 64
    ensures AcFits(blk, Ss, Se, Al) <==> forall k :: Ss <= k <= Se ==> -1024 < Shrink(blk[k], Al) < 1024
    ensures NBits(Magnitude(diff)) <= MAX_COEF_BITS + 1 <==> -2048 < diff < 2048
  {
    hide Shrink, NBits;
    forall k | Ss <= k <= Se
      ensures NBits(Magnitude(Shrink(blk[k], Al))) <= MAX_COEF_BITS <==> -1024 < Shrink(blk[k], Al) < 1024
    {
      CategoryBound(Magnitude(Shrink(blk[k], Al)), 10);
    }
    CategoryBound(Magnitude(diff), 11);
  }

  lemma {:induction false} CategoryBound(v: nat, n: nat)
    requires n <= 16
    ensures NBits(v) <= n <==> v < Pow2(n)
    ensures Pow2(10) == 1024 && Pow2(11) == 2048
  {
    Pow2Values();
    if v < Pow2(n) { NBitsMax(v, n); } else if NBits(v) <= n { Pow2Mono(NBits(v), n); }
  }

  /** Examples in the terms of sections F.1.2 and G.1.2 of ITU-T T.81: the DC difference -3 has category 2; after two
      zeros the coefficient -2 has the run/size symbol 0x22; after eighteen zeros a ZRL comes first; a new coefficient
      of a refinement scan has size 1 and a sign; end-of-band runs of 1, 4 and 32767 blocks. */
  lemma KnownSymbols(tbl: nat)
    ensures DcToks(tbl, 0) == [Sym(tbl, 0)] && DcToks(tbl, -3) == [Sym(tbl, 2), Raw(0, 2)]
    ensures CoefToks(tbl, 2, -2) == [Sym(tbl, 0x22), Raw(1, 2)]
    ensures CoefToks(tbl, 18, 5) == [Sym(tbl, 0xF0), Sym(tbl, 0x23), Raw(5, 3)]
    ensures SignToks(tbl, 3, 1) == [Sym(tbl, 0x31), Raw(1, 1)] && SignToks(tbl, 3, -1) == [Sym(tbl, 0x31), Raw(0, 1)]
    ensures EobToks(tbl, 1) == [Sym(tbl, 0)] && EobToks(tbl, 4) == [Sym(tbl, 0x20), Raw(0, 2)]
    ensures EobToks(tbl, 0x7FFF) == [Sym(tbl, 0xE0), Raw(0x3FFF, 14)]
  {
    hide DcToks, CoefToks, EobToks;
    KnownDc(tbl);
    KnownAc(tbl);
    KnownEob(tbl);
    LongestRun(tbl);
  }

  lemma KnownDc(tbl: nat)
    ensures DcToks(tbl, 0) == [Sym(tbl, 0)] && DcToks(tbl, -3) == [Sym(tbl, 2), Raw(0, 2)]
  {
    assert NBits(3) == 2;
  }

  lemma KnownAc(tbl: nat)
    ensures CoefToks(tbl, 2, -2) == [Sym(tbl, 0x22), Raw(1, 2)]
    ensures CoefToks(tbl, 18, 5) == [Sym(tbl, 0xF0), Sym(tbl, 0x23), Raw(5, 3)]
  {
    assert NBits(2) == 2 && NBits(5) == 3;
    assert MagBits(-2) == 1 && MagBits(5) == 5;
    assert ZrlToks(tbl, 2) == [];
    assert ZrlToks(tbl, 18) == [Sym(tbl, 0xF0)] + ZrlToks(tbl, 2);
  }

  lemma KnownEob(tbl: nat)
    ensures EobToks(tbl, 1) == [Sym(tbl, 0)] && EobToks(tbl, 4) == [Sym(tbl, 0x20), Raw(0, 2)]
  {
    assert NBits(1) == 1 && NBits(4) == 3 && Low(4, 2) == 0;
  }

  lemma LongestRun(tbl: nat)
    ensures EobToks(tbl, 0x7FFF) == [Sym(tbl, 0xE0), Raw(0x3FFF, 14)]
  {
    hide NBits, Low, Pow2;
    AllOnes(14);
    Pow2Values();
  }

  lemma {:induction false} AllOnes(n: nat)
    ensures NBits(Pow2(n + 1) - 1) == n + 1 && Low(Pow2(n + 1) - 1, n) == Pow2(n) - 1
  {
    if n > 0 {
      AllOnes(n - 1);
      assert (Pow2(n + 1) - 1) / 2 == Pow2(n) - 1 && (Pow2(n + 1) - 1) % 2 == 1;
    } else {
      assert NBits(1) == 1;
    }
  }

  /** The prediction of a block is the DC value of the block before it of the same component, in this MCU or an earlier
      one, and 0 at the start of a segment. */
  lemma {:induction false} PredictionIs(scan: Scan, mcu: seq<Block>, i: nat, last: seq<int>, ci: nat) returns (j: nat)
    requires scan.Ok() && scan.mode in {Sequential, DcFirst} && |last| == scan.ncomps && ci < scan.ncomps
    requires |mcu| == |scan.members| && i <= |mcu|
    ensures j <= i && (forall k :: j <= k < i ==> scan.members[k] != ci)
    ensures if j == 0 then McuToks(scan, mcu, i, last).1[ci] == last[ci]
            else scan.members[j - 1] == ci && McuToks(scan, mcu, i, last).1[ci] == Sar(mcu[j - 1][0], scan.Al)
    ensures Start(scan).last[ci] == 0
  {
    hide BlockToks;
    if i == 0 {
      j := 0;
    } else if scan.members[i - 1] == ci {
      j := i;
    } else {
      j := PredictionIs(scan, mcu, i - 1, last, ci);
    }
  }
}
