/** Blocks that come out of the forward DCT never make the coders report a coefficient out of range. */
module SampledImage {
  import opened Bits
  import opened Coefficients
  import opened Coding
  import ForwardDct
  import NaturalOrder

  /** The range of quantised coefficients of 8-bit samples, in zigzag order. */
  ghost predicate Sampled(blk: Block) {
    -1024 <= blk[0] <= 1016 && forall k :: 1 <= k < 64 ==> -1023 <= blk[k] <= 1023
  }

  ghost predicate AllSampled(mcus: seq<seq<Block>>) {
    forall i, j :: 0 <= i < |mcus| && 0 <= j < |mcus[i]| ==> Sampled(mcus[i][j])
  }

  lemma {:induction false} SarRange(c: int, n: nat)
    requires -1024 <= c <= 1016
    ensures -1024 <= Sar(c, n) <= 1016
    decreases n
  {
    if n > 0 { SarRange(c / 2, n - 1); }
  }

  lemma {:induction false} ShrBelow(c: nat, n: nat)
    ensures Shr(c, n) <= c
  {}

  lemma {:induction false} SizeBelow(v: int, n: nat)
    requires 0 - Pow2(n) < v < Pow2(n)
    ensures NBits(Magnitude(v)) <= n
  {
    NBitsMax(Magnitude(v), n);
  }

  lemma BlockSampledFits(scan: Scan, blk: Block, pred: int)
    requires scan.Ok() && Sampled(blk) && -1024 <= pred <= 1016
    ensures BlockFits(scan, blk, pred) && -1024 <= DcValue(scan, blk) <= 1016
  {
    hide NBits, Sar, Shr;
    Pow2Values();
    SarRange(blk[0], scan.Al);
    SizeBelow(DcValue(scan, blk) - pred, MAX_COEF_BITS + 1);
    forall k, n: nat | 1 <= k < 64 ensures NBits(Magnitude(Shrink(blk[k], n))) <= MAX_COEF_BITS {
      ShrBelow(Magnitude(blk[k]), n);
      SizeBelow(Shrink(blk[k], n), MAX_COEF_BITS);
    }
  }

  ghost predicate Predictions(last: seq<int>) {
    forall i :: 0 <= i < |last| ==> -1024 <= last[i] <= 1016
  }

  lemma {:induction false} McuSampledFits(scan: Scan, mcu: seq<Block>, i: nat, last: seq<int>)
    requires scan.Ok() && scan.mode in {Sequential, DcFirst, DcRefine} && |last| == scan.ncomps
    requires |mcu| == |scan.members| && i <= |mcu| && Predictions(last) && forall j :: 0 <= j < |mcu| ==>
      Sampled(mcu[j])
    ensures McuFits(scan, mcu, i, last) && Predictions(McuToks(scan, mcu, i, last).1)
  {
    hide BlockFits, BlockToks, DcValue, Sampled, McuToks, Predict;
    if i > 0 {
      McuSampledFits(scan, mcu, i - 1, last);
      var before := McuToks(scan, mcu, i - 1, last).1;
      BlockSampledFits(scan, mcu[i - 1], before[scan.members[i - 1]]);
      NextPredictions(scan, mcu, i, last);
    } else {
      NoToks(scan, mcu, last);
    }
  }

  lemma {:induction false} NoToks(scan: Scan, mcu: seq<Block>, last: seq<int>)
    requires scan.Ok() && scan.mode in {Sequential, DcFirst, DcRefine} && |last| == scan.ncomps
      && |mcu| == |scan.members|
    ensures McuToks(scan, mcu, 0, last).1 == last
  {}

  lemma {:induction false} NextPredictions(scan: Scan, mcu: seq<Block>, i: nat, last: seq<int>)
    requires scan.Ok() && scan.mode in {Sequential, DcFirst, DcRefine} && |last| == scan.ncomps
    requires |mcu| == |scan.members| && 0 < i <= |mcu| && -1024 <= DcValue(scan, mcu[i - 1]) <= 1016
    requires Predictions(McuToks(scan, mcu, i - 1, last).1)
    ensures Predictions(McuToks(scan, mcu, i, last).1)
  {
    hide DcValue, BlockToks;
  }

  lemma BodySampledFits(scan: Scan, st: EncSt, mcu: seq<Block>)
    requires scan.Ok() && |mcu| == |scan.members| && |st.last| == scan.ncomps && Predictions(st.last)
    requires forall j :: 0 <= j < |mcu| ==> Sampled(mcu[j])
    ensures BodyFits(scan, st, mcu) && Predictions(Body(scan, st, mcu).last)
  {
    hide BlockFits, McuToks, McuFits, BandOf, Sampled, RunToks;
    if scan.mode in {AcFirst, AcRefine} {
      BlockSampledFits(scan, mcu[0], 0);
    } else {
      McuSampledFits(scan, mcu, |mcu|, st.last);
    }
  }

  /** No scan of quantised 8-bit samples, sequential or progressive, with any restart interval, makes
      the encoder report a DC difference or an AC coefficient out of range. */
  lemma {:induction false} SampledFits(scan: Scan, mcus: seq<seq<Block>>)
    requires scan.Ok() && Mcus(scan, mcus) && AllSampled(mcus)
    ensures AllFit(scan, mcus) && Predictions(Run(scan, mcus).last)
  {
    hide Body, BodyFits, Sampled, Flush;
    if mcus != [] {
      var n := |mcus| - 1;
      SampledFits(scan, mcus[..n]);
      BodySampledFits(scan, BeginMcu(scan, Run(scan, mcus[..n])), mcus[n]);
    }
  }

  /** What forward_DCT stores, seen in zigzag order, is in range. */
  lemma TransformedIsSampled(w: seq<int>, divisors: seq<ForwardDct.int32>, stored: seq<int>)
    requires ForwardDct.Centered(w) && ForwardDct.Divisors(divisors) && ForwardDct.QuantizedBlock(w, divisors, stored)
    ensures Sampled(NaturalOrder.Zigzag(stored)) && Coefs(NaturalOrder.Zigzag(stored))
  {
    hide ForwardDct.QuantizedBlock, NaturalOrder.NaturalOf, ForwardDct.Centered, ForwardDct.Divisors;
    ForwardDct.QuantizedRange(w, divisors, stored);
    forall k | 0 <= k < 64
      ensures k == 0 <==> NaturalOrder.NaturalOf(k) == 0
    {
      FirstFirst(k);
    }
  }

  lemma FirstFirst(k: nat)
    requires k < 64
    ensures k == 0 <==> NaturalOrder.NaturalOf(k) == 0
  {
    NaturalOrder.OrdersInverse(k);
  }
}
