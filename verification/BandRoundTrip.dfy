/** AC scans: the decoder machine undoes the coding of one band, including its part in an
    end-of-band run and the correction bits that a refinement scan defers. */
module BandRoundTrip {
  import opened Bits
  import opened Coefficients
  import opened Coding
  import opened Decoding
  import opened TokenRoundTrip

  // ---- End-of-band runs ----

  lemma {:induction false} LeadingOne(v: nat)
    requires v > 0
    ensures v == Pow2(NBits(v) - 1) + Low(v, NBits(v) - 1)
  {
    var n := NBits(v) - 1;
    if v > 1 {
      LeadingOne(v / 2);
      assert n == 1 + (NBits(v / 2) - 1);
      assert Pow2(n) == 2 * Pow2(n - 1) && Low(v, n) == 2 * Low(v / 2, n - 1) + v % 2;
    }
  }

  /** The decoder right after an end-of-band symbol for n blocks, read at coefficient k. */
  function AfterEob(scan: Scan, st: St, k: nat, n: nat): St
    requires n > 0
  {
    if scan.mode == AcFirst then st.(pc := Fin, eobrun := n - 1) else st.(pc := TailAt(k), eobrun := n)
  }

  lemma {:induction false} TokEobSize(scan: Scan, st: St, k: nat, r: nat, rest: seq<Token>)
    requires StOk(scan, st) && scan.mode in {AcFirst, AcRefine} && st.pc == AcTop(k) && k <= scan.Se && r <= 14
    ensures var st' := if r == 0 then AfterEob(scan, st, k, 1) else st.(pc := EobBits(k, r));
      && StOk(scan, st')
      && RunTok(scan, st, [Sym(scan.acTbl[scan.members[st.blkn]], 16 * r)] + rest) == RunTok(scan, st', rest)
  {
    hide RunTok, Put, Scale, Short, Corrected;
    StepTok(scan, st, Sym(scan.acTbl[scan.members[st.blkn]], 16 * r), rest);
  }

  lemma TokEobBits(scan: Scan, st: St, k: nat, r: nat, v: nat, rest: seq<Token>)
    requires StOk(scan, st) && st.pc == EobBits(k, r) && v < Pow2(r)
    ensures var st' := AfterEob(scan, st, k, Pow2(r) + v);
      StOk(scan, st') && RunTok(scan, st, [Raw(v, r)] + rest) == RunTok(scan, st', rest)
  {
    hide RunTok, Put, Scale, Short, Corrected, Pow2;
    StepTok(scan, st, Raw(v, r), rest);
  }

  lemma {:induction false} EobDecoded(scan: Scan, st: St, k: nat, n: nat, rest: seq<Token>)
    requires StOk(scan, st) && scan.mode in {AcFirst, AcRefine} && st.pc == AcTop(k) && k <= scan.Se
    requires 0 < n <= 0x7FFF
    ensures StOk(scan, AfterEob(scan, st, k, n))
    ensures RunTok(scan, st, EobToks(scan.acTbl[scan.members[st.blkn]], n) + rest)
         == RunTok(scan, AfterEob(scan, st, k, n), rest)
  {
    hide RunTok, Asks, Feed, NBits, Low, Pow2;
    var tbl := scan.acTbl[scan.members[st.blkn]];
    var nb := NBits(n) - 1;
    LeadingOne(n);
    RunFits(n);
    if nb == 0 {
      LowZero(n);
      assert EobToks(tbl, n) + rest == [Sym(tbl, 16 * nb)] + rest;
      TokEobSize(scan, st, k, 0, rest);
    } else {
      var bits := Raw(Low(n, nb), nb);
      assert EobToks(tbl, n) + rest == [Sym(tbl, 16 * nb)] + ([bits] + rest);
      TokEobSize(scan, st, k, nb, [bits] + rest);
      TokEobBits(scan, st.(pc := EobBits(k, nb)), k, nb, Low(n, nb), rest);
    }
  }

  lemma {:induction false} LowZero(n: nat)
    ensures Low(n, 0) == 0 && Pow2(0) == 1
  {}

  lemma {:induction false} RunFits(n: nat)
    requires n <= 0x7FFF
    ensures NBits(n) <= 15
  {
    Pow2Values();
    NBitsMax(n, 15);
  }

  // ---- First scans ----

  /** A band of an AC first scan, up to and including its end-of-band symbol. */
  lemma FirstBand(scan: Scan, c: Block, b: Block, last: seq<int>, m: nat, rest: seq<Token>)
    requires scan.Ok() && scan.mode == AcFirst && |last| == scan.ncomps && Coefs(c)
    requires AcFits(c, scan.Ss, scan.Se, scan.Al) && Ready(scan, c, b) && 0 < m <= 0x7FFF
    ensures StOk(scan, Init(scan, 0, last, [b]))
    ensures var band := BandOf(scan, c);
      var eob := if band.more then EobToks(scan.AcTable(), m) else [];
      EndsAs(RunTok(scan, Init(scan, 0, last, [b]), band.pre + (eob + rest)), rest,
             if band.more then m - 1 else 0, last, [Target(scan, c, b)])
  {
    hide RunTok, AcToks, EobToks, Asks, Feed, FillTo, Target;
    var st := Init(scan, 0, last, [b]);
    var ac := AcToks(scan.AcTable(), c, scan.Ss, scan.Se, scan.Al, 0);
    var eob := if ac.1 > 0 then EobToks(scan.AcTable(), m) else [];
    FillEnds(scan, c, b);
    AcRun(scan, st, c, b, scan.Ss, 0, eob + rest);
    var st1 := st.(pc := AcTop(scan.Se + 1 - ac.1), blocks := [Target(scan, c, b)]);
    assert st.blocks[0 := Target(scan, c, b)] == [Target(scan, c, b)];
    if ac.1 > 0 {
      EobDecoded(scan, st1, scan.Se + 1 - ac.1, m, rest);
      AtFin(scan, AfterEob(scan, st1, scan.Se + 1 - ac.1, m), rest);
    } else {
      assert eob + rest == rest;
      EndOfLoop(scan, st1, rest);
    }
  }

  lemma FillEnds(scan: Scan, c: Block, b: Block)
    requires scan.Ok() && scan.mode in {AcFirst, AcRefine}
    ensures FillTo(scan, c, b, scan.Ss) == b && FillTo(scan, c, b, scan.Se + 1) == Target(scan, c, b)
  {}

  lemma {:induction false} AtFin(scan: Scan, st: St, rest: seq<Token>)
    requires StOk(scan, st) && st.pc == Fin
    ensures RunTok(scan, st, rest) == Ends(st, rest)
  {}

  /** Leaving the coefficient loop past the end of the band. */
  lemma {:induction false} EndOfLoop(scan: Scan, st: St, rest: seq<Token>)
    requires StOk(scan, st) && scan.mode in {AcFirst, AcRefine} && st.pc == AcTop(scan.Se + 1)
    ensures RunTok(scan, st, rest) == Ends(st.(pc := Fin), rest)
  {
    StepSilent(scan, st, rest);
  }

  /** A block inside an end-of-band run of a first scan has nothing to send. */
  lemma {:induction false} NothingSent(scan: Scan, c: Block, b: Block, k: nat, r: nat)
    requires scan.Ok() && scan.mode == AcFirst && scan.Ss <= k <= scan.Se + 1
    requires AcToks(scan.AcTable(), c, k, scan.Se, scan.Al, r).0 == []
    ensures forall j :: k <= j <= scan.Se ==> Level(c[j], j, scan.Al) == 0
    decreases scan.Se + 1 - k
  {
    if k <= scan.Se {
      ScaleZero(scan.Al);
      NothingSent(scan, c, b, k + 1, r + 1);
    }
  }

  lemma {:induction false} FirstBandInRun(scan: Scan, c: Block, b: Block, last: seq<int>, e: nat, rest: seq<Token>)
    requires scan.Ok() && scan.mode == AcFirst && |last| == scan.ncomps && Ready(scan, c, b)
    requires e > 0 && BandOf(scan, c).pre == []
    ensures StOk(scan, Init(scan, e, last, [b]))
    ensures EndsAs(RunTok(scan, Init(scan, e, last, [b]), BandOf(scan, c).tail + rest), rest, e - 1, last,
      [Target(scan, c, b)])
  {
    NothingSent(scan, c, b, scan.Ss, 0);
    assert Target(scan, c, b) == b;
    assert BandOf(scan, c).tail + rest == rest;
    AtFin(scan, Init(scan, e, last, [b]), rest);
  }

  // ---- Refinement scans ----

  /** Number of coefficients in [k0, k) whose transformed magnitude is zero. */
  function NumZeros(c: Block, k0: nat, k: nat, Al: nat): nat
    requires k0 <= k <= 64
  {
    if k == k0 then 0 else NumZeros(c, k0, k - 1, Al) + if AbsVal(c, k - 1, Al) == 0 then 1 else 0
  }

  /** The correction bits of the already nonzero coefficients in [k0, k). */
  function Corr(c: Block, k0: nat, k: nat, Al: nat): seq<Token>
    requires k0 <= k <= 64
  {
    if k == k0 then []
    else Corr(c, k0, k - 1, Al) + if AbsVal(c, k - 1, Al) > 1 then [Raw(AbsVal(c, k - 1, Al) % 2, 1)] else []
  }

  ghost predicate NoneNew(c: Block, k0: nat, k: nat, Al: nat)
    requires k <= 64
  {
    forall j :: k0 <= j < k ==> AbsVal(c, j, Al) != 1
  }

  /** A refinement scan and the decoder's block before it. */
  ghost predicate Refining(scan: Scan, c: Block, b: Block) {
    scan.Ok() && scan.mode == AcRefine && Coefs(c) && Ready(scan, c, b)
  }

  /** What the decoder finds at coefficient k, and what the scan makes of it. */
  lemma AtCoef(scan: Scan, c: Block, b: Block, k: nat)
    requires Refining(scan, c, b) && scan.Ss <= k <= scan.Se
    ensures FillTo(scan, c, b, k)[k] == b[k] && (b[k] != 0 <==> AbsVal(c, k, scan.Al) > 1)
    ensures var a := AbsVal(c, k, scan.Al);
      FillTo(scan, c, b, k + 1) == FillTo(scan, c, b, k)[k :=
        if a > 1 then (if a % 2 == 1 then Correct(b[k], scan.Al) else b[k])
        else if a == 1 then (if c[k] < 0 then 0 - Pow2(scan.Al) else Pow2(scan.Al)) else 0]
  {
    hide Level, Correct, Pow2;
    AcRefined(c[k], k, scan.Al);
    FillNext(scan, c, b, k);
  }

  /** One iteration of the do-while loop over a coefficient that is not the target. */
  lemma InnerStep(scan: Scan, st: St, c: Block, b: Block, k: nat, r: nat, s: int, rest: seq<Token>)
    requires Refining(scan, c, b) && StOk(scan, st) && st.pc == Inner(k, r, s) && scan.Ss <= k < scan.Se
    requires st.blocks == [FillTo(scan, c, b, k)] && AbsVal(c, k, scan.Al) != 1
    requires AbsVal(c, k, scan.Al) == 0 ==> r > 0
    ensures var a := AbsVal(c, k, scan.Al);
      var st' := st.(pc := Inner(k + 1, if a == 0 then r - 1 else r, s), blocks := [FillTo(scan, c, b, k + 1)]);
      && StOk(scan, st')
      && RunTok(scan, st, (if a > 1 then [Raw(a % 2, 1)] else []) + rest) == RunTok(scan, st', rest)
  {
    hide RunTok, FillTo, Correct, AbsVal, Ready;
    AtCoef(scan, c, b, k);
    Pow2Values();
    var a, f := AbsVal(c, k, scan.Al), FillTo(scan, c, b, k);
    assert f[k := f[k]] == f;
    assert forall x: Block :: st.blocks[0 := x] == [x];
    if a > 1 {
      StepTok(scan, st, Raw(a % 2, 1), rest);
    } else {
      assert [] + rest == rest;
      StepSilent(scan, st, rest);
    }
  }

  /** The do-while loop from k0 to k, neither reaching a target nor the end of the band. */
  lemma {:induction false} Advance(scan: Scan, st: St, c: Block, b: Block, k0: nat, k: nat, r: nat, s: int,
                                   rest: seq<Token>)
    requires Refining(scan, c, b) && StOk(scan, st) && scan.Ss <= k0 <= k <= scan.Se
    requires st.pc == Inner(k0, r, s) && st.blocks == [FillTo(scan, c, b, k0)]
    requires NoneNew(c, k0, k, scan.Al) && NumZeros(c, k0, k, scan.Al) <= r
    ensures var st' := st.(pc := Inner(k, r - NumZeros(c, k0, k, scan.Al), s), blocks := [FillTo(scan, c, b, k)]);
      StOk(scan, st') && RunTok(scan, st, Corr(c, k0, k, scan.Al) + rest) == RunTok(scan, st', rest)
    decreases k - k0
  {
    hide RunTok, FillTo, AbsVal, Asks, Feed, Ready;
    if k == k0 {
      assert [] + rest == rest;
    } else {
      var a := AbsVal(c, k - 1, scan.Al);
      var t := if a > 1 then [Raw(a % 2, 1)] else [];
      assert Corr(c, k0, k, scan.Al) + rest == Corr(c, k0, k - 1, scan.Al) + (t + rest);
      Advance(scan, st, c, b, k0, k - 1, r, s, t + rest);
      var r1 := r - NumZeros(c, k0, k - 1, scan.Al);
      InnerStep(scan, st.(pc := Inner(k - 1, r1, s), blocks := [FillTo(scan, c, b, k - 1)]), c, b, k - 1, r1, s, rest);
    }
  }

  /** One coefficient of the rest of the band after end-of-band. */
  lemma TailStep(scan: Scan, st: St, c: Block, b: Block, k: nat, rest: seq<Token>)
    requires Refining(scan, c, b) && StOk(scan, st) && st.pc == TailAt(k) && scan.Ss <= k <= scan.Se
    requires st.blocks == [FillTo(scan, c, b, k)] && AbsVal(c, k, scan.Al) != 1
    ensures var a := AbsVal(c, k, scan.Al);
      var st' := st.(pc := TailAt(k + 1), blocks := [FillTo(scan, c, b, k + 1)]);
      && StOk(scan, st')
      && RunTok(scan, st, (if a > 1 then [Raw(a % 2, 1)] else []) + rest) == RunTok(scan, st', rest)
  {
    hide RunTok, FillTo, Correct, AbsVal, Ready;
    AtCoef(scan, c, b, k);
    Pow2Values();
    var a, f := AbsVal(c, k, scan.Al), FillTo(scan, c, b, k);
    assert f[k := f[k]] == f;
    assert forall x: Block :: st.blocks[0 := x] == [x];
    if a > 1 {
      StepTok(scan, st, Raw(a % 2, 1), rest);
    } else {
      assert [] + rest == rest;
      StepSilent(scan, st, rest);
    }
  }

  lemma {:induction false} TailAdvance(scan: Scan, st: St, c: Block, b: Block, k0: nat, k: nat, rest: seq<Token>)
    requires Refining(scan, c, b) && StOk(scan, st) && scan.Ss <= k0 <= k <= scan.Se + 1
    requires st.pc == TailAt(k0) && st.blocks == [FillTo(scan, c, b, k0)] && NoneNew(c, k0, k, scan.Al)
    ensures var st' := st.(pc := TailAt(k), blocks := [FillTo(scan, c, b, k)]);
      StOk(scan, st') && RunTok(scan, st, Corr(c, k0, k, scan.Al) + rest) == RunTok(scan, st', rest)
    decreases k - k0
  {
    hide RunTok, FillTo, AbsVal, Asks, Feed, Ready;
    if k == k0 {
      assert [] + rest == rest;
    } else {
      var a := AbsVal(c, k - 1, scan.Al);
      var t := if a > 1 then [Raw(a % 2, 1)] else [];
      assert Corr(c, k0, k, scan.Al) + rest == Corr(c, k0, k - 1, scan.Al) + (t + rest);
      TailAdvance(scan, st, c, b, k0, k - 1, t + rest);
      TailStep(scan, st.(pc := TailAt(k - 1), blocks := [FillTo(scan, c, b, k - 1)]), c, b, k - 1, rest);
    }
  }

  /** The rest of the band after end-of-band, with e blocks left in the run. */
  lemma TailRun(scan: Scan, st: St, c: Block, b: Block, k0: nat, rest: seq<Token>)
    requires Refining(scan, c, b) && StOk(scan, st) && scan.Ss <= k0 <= scan.Se + 1
    requires st.pc == TailAt(k0) && st.blocks == [FillTo(scan, c, b, k0)] && NoneNew(c, k0, scan.Se + 1, scan.Al)
    ensures EndsAs(RunTok(scan, st, Corr(c, k0, scan.Se + 1, scan.Al) + rest), rest, st.eobrun - 1, st.last,
      [Target(scan, c, b)])
  {
    hide RunTok, FillTo, AbsVal, Asks, Feed, Target, Ready;
    TailAdvance(scan, st, c, b, k0, scan.Se + 1, rest);
    FillEnds(scan, c, b);
    TailEnds(scan, st.(pc := TailAt(scan.Se + 1), blocks := [Target(scan, c, b)]), rest);
  }

  lemma {:induction false} TailEnds(scan: Scan, st: St, rest: seq<Token>)
    requires StOk(scan, st) && scan.mode == AcRefine && st.pc == TailAt(scan.Se + 1)
    ensures RunTok(scan, st, rest) == Ends(st.(pc := Fin, eobrun := st.eobrun - 1), rest)
  {
    StepSilent(scan, st, rest);
    AtFin(scan, Feed(scan, st, 0), rest);
  }

  /** The r zeros and the correction bits br collected between k0 and k. Up to the last new
      coefficient nothing but zeros follows the 16th zero, since a ZRL is sent before the
      next nonzero coefficient. */
  ghost predicate Pending(c: Block, k0: nat, k: nat, r: nat, br: seq<Token>, eob: nat, Al: nat)
    requires k0 <= k <= 64
  {
    && r == NumZeros(c, k0, k, Al) && br == Corr(c, k0, k, Al) && NoneNew(c, k0, k, Al)
    && forall j :: k0 <= j < k && j <= eob && NumZeros(c, k0, j, Al) >= 16 ==> AbsVal(c, j, Al) == 0
  }

  lemma {:induction false} NothingPending(c: Block, k0: nat, k: nat, Al: nat)
    requires k0 <= k <= 64 && NoneNew(c, k0, k, Al)
    requires NumZeros(c, k0, k, Al) == 0 && Corr(c, k0, k, Al) == []
    ensures k0 == k
  {}

  /** The n-th zero, counting from 0. */
  lemma {:induction false} FindZero(c: Block, k0: nat, k: nat, Al: nat, n: nat) returns (z: nat)
    requires k0 <= k <= 64 && NumZeros(c, k0, k, Al) > n
    ensures k0 <= z < k && AbsVal(c, z, Al) == 0 && NumZeros(c, k0, z, Al) == n
    decreases k - k0
  {
    if NumZeros(c, k0, k - 1, Al) > n {
      z := FindZero(c, k0, k - 1, Al, n);
    } else {
      z := k - 1;
    }
  }

  /** A stretch of zeros contributes no correction bits and all its positions to the run. */
  lemma {:induction false} AllZeros(c: Block, k0: nat, z: nat, k: nat, Al: nat)
    requires k0 <= z <= k <= 64 && forall j :: z <= j < k ==> AbsVal(c, j, Al) == 0
    ensures Corr(c, k0, k, Al) == Corr(c, k0, z, Al)
    ensures NumZeros(c, k0, k, Al) == NumZeros(c, k0, z, Al) + (k - z)
    decreases k - z
  {
    if z < k { AllZeros(c, k0, z, k - 1, Al); }
  }

  /** After the 16th zero, z, only zeros are pending. */
  lemma AfterZrl(c: Block, k0: nat, k: nat, r: nat, br: seq<Token>, eob: nat, Al: nat) returns (z: nat)
    requires k0 <= k <= 64 && Pending(c, k0, k, r, br, eob, Al) && r >= 16 && k <= eob + 1
    ensures k0 <= z < k && AbsVal(c, z, Al) == 0 && NumZeros(c, k0, z, Al) == 15
    ensures br == Corr(c, k0, z, Al) && NoneNew(c, k0, z, Al)
    ensures Pending(c, z + 1, k, r - 16, [], eob, Al)
  {
    z := FindZero(c, k0, k, Al, 15);
    forall j | z <= j < k ensures AbsVal(c, j, Al) == 0 {
      if j > z { ZerosMono(c, k0, z + 1, j, Al); }
    }
    AllZeros(c, k0, z, k, Al);
    AllZeros(c, z + 1, z + 1, k, Al);
  }

  lemma {:induction false} ZerosMono(c: Block, k0: nat, i: nat, j: nat, Al: nat)
    requires k0 <= i <= j <= 64
    ensures NumZeros(c, k0, i, Al) <= NumZeros(c, k0, j, Al)
    decreases j - i
  {
    if i < j { ZerosMono(c, k0, i, j - 1, Al); }
  }

  /** The decoder at the top of its coefficient loop, everything below k settled. */
  ghost predicate AtTop(scan: Scan, st: St, c: Block, b: Block, k: nat) {
    Refining(scan, c, b) && StOk(scan, st) && scan.Ss <= k <= scan.Se + 1
    && st.pc == AcTop(k) && st.blocks == [FillTo(scan, c, b, k)]
  }

  lemma {:induction false} TokZrl(scan: Scan, st: St, c: Block, b: Block, k: nat, rest: seq<Token>)
    requires AtTop(scan, st, c, b, k) && k <= scan.Se
    ensures StOk(scan, st.(pc := Inner(k, 15, 0)))
    ensures RunTok(scan, st, [Sym(scan.AcTable(), 0xF0)] + rest) == RunTok(scan, st.(pc := Inner(k, 15, 0)), rest)
  {
    hide RunTok, FillTo, Ready, Put, Corrected;
    StepTok(scan, st, Sym(scan.AcTable(), 0xF0), rest);
  }

  /** The loop reaches a zero coefficient with no zeros left to skip, and there is nothing to store. */
  lemma ZrlTarget(scan: Scan, st: St, c: Block, b: Block, z: nat, rest: seq<Token>)
    requires Refining(scan, c, b) && StOk(scan, st) && st.pc == Inner(z, 0, 0) && scan.Ss <= z <= scan.Se
    requires st.blocks == [FillTo(scan, c, b, z)] && AbsVal(c, z, scan.Al) == 0
    ensures AtTop(scan, st.(pc := AcTop(z + 1)), c, b, z + 1)
    ensures RunTok(scan, st, rest) == RunTok(scan, st.(pc := AcTop(z + 1)), rest)
  {
    hide RunTok, FillTo, Ready, AbsVal, Put, Corrected;
    AtCoef(scan, c, b, z);
    var f := FillTo(scan, c, b, z);
    assert f[z := f[z]] == f;
    StepSilent(scan, st, rest);
    StepSilent(scan, st.(pc := Place(z, 0)), rest);
  }

  /** A ZRL with its correction bits. */
  lemma ZrlStep(scan: Scan, st: St, c: Block, b: Block, k0: nat, k: nat, r: nat, br: seq<Token>, eob: nat,
                rest: seq<Token>)
    returns (z: nat)
    requires AtTop(scan, st, c, b, k0) && k0 <= k <= scan.Se && r >= 16 && k <= eob
    requires Pending(c, k0, k, r, br, eob, scan.Al)
    ensures k0 <= z < k && Pending(c, z + 1, k, r - 16, [], eob, scan.Al)
    ensures AtTop(scan, st.(pc := AcTop(z + 1), blocks := [FillTo(scan, c, b, z + 1)]), c, b, z + 1)
    ensures RunTok(scan, st, [Sym(scan.AcTable(), 0xF0)] + (br + rest))
         == RunTok(scan, st.(pc := AcTop(z + 1), blocks := [FillTo(scan, c, b, z + 1)]), rest)
  {
    hide RunTok, FillTo, Ready, AbsVal, Asks, Feed, Corr, NumZeros, Pending;
    z := AfterZrl(c, k0, k, r, br, eob, scan.Al);
    TokZrl(scan, st, c, b, k0, br + rest);
    Advance(scan, st.(pc := Inner(k0, 15, 0)), c, b, k0, z, 15, 0, rest);
    var st1 := st.(pc := Inner(z, 0, 0), blocks := [FillTo(scan, c, b, z)]);
    ZrlTarget(scan, st1, c, b, z, rest);
  }

  /** The symbol of a new coefficient, and its sign. */
  lemma {:induction false} TokNew(scan: Scan, st: St, c: Block, b: Block, k0: nat, r: nat, v: int, rest: seq<Token>)
    requires AtTop(scan, st, c, b, k0) && k0 <= scan.Se && r <= 15
    ensures var st' := st.(pc := Inner(k0, r, if v < 0 then 0 - Pow2(scan.Al) else Pow2(scan.Al)));
      && StOk(scan, st')
      && RunTok(scan, st, SignToks(scan.AcTable(), r, v) + rest) == RunTok(scan, st', rest)
  {
    hide RunTok, FillTo, Ready, Put, Corrected;
    var sign := Raw(if v < 0 then 0 else 1, 1);
    assert Pow2(1) == 2;
    assert SignToks(scan.AcTable(), r, v) + rest == [Sym(scan.AcTable(), 16 * r + 1)] + ([sign] + rest);
    StepTok(scan, st, Sym(scan.AcTable(), 16 * r + 1), [sign] + rest);
    StepTok(scan, st.(pc := Sign(k0, r)), sign, rest);
  }

  /** The loop reaches the target, and the new coefficient is stored. */
  lemma NewTarget(scan: Scan, st: St, c: Block, b: Block, k: nat, rest: seq<Token>) returns (st': St)
    requires Refining(scan, c, b) && StOk(scan, st) && scan.Ss <= k <= scan.Se
    requires st.pc == Inner(k, 0, if c[k] < 0 then 0 - Pow2(scan.Al) else Pow2(scan.Al))
    requires st.blocks == [FillTo(scan, c, b, k)] && AbsVal(c, k, scan.Al) == 1
    ensures AtTop(scan, st', c, b, k + 1) && st'.last == st.last
    ensures RunTok(scan, st, rest) == RunTok(scan, st', rest)
  {
    hide RunTok, FillTo, Ready, AbsVal, Corrected;
    AtCoef(scan, c, b, k);
    Pow2Mono(scan.Al, 13);
    Pow2Values();
    var s := if c[k] < 0 then 0 - Pow2(scan.Al) else Pow2(scan.Al);
    StepSilent(scan, st, rest);
    StepSilent(scan, st.(pc := Place(k, s)), rest);
    st' := Feed(scan, st.(pc := Place(k, s)), 0);
    assert forall x: Block :: st.blocks[0 := x] == [x];
  }

  lemma NewStep(scan: Scan, st: St, c: Block, b: Block, k0: nat, k: nat, r: nat, br: seq<Token>, rest: seq<Token>)
    returns (st': St)
    requires AtTop(scan, st, c, b, k0) && k0 <= k <= scan.Se && r <= 15 && AbsVal(c, k, scan.Al) == 1
    requires r == NumZeros(c, k0, k, scan.Al) && br == Corr(c, k0, k, scan.Al) && NoneNew(c, k0, k, scan.Al)
    ensures AtTop(scan, st', c, b, k + 1) && st'.last == st.last
    ensures RunTok(scan, st, SignToks(scan.AcTable(), r, c[k]) + (br + rest)) == RunTok(scan, st', rest)
  {
    hide RunTok, FillTo, Ready, AbsVal, Asks, Feed, Corr, NumZeros, SignToks, Pow2;
    var s := if c[k] < 0 then 0 - Pow2(scan.Al) else Pow2(scan.Al);
    TokNew(scan, st, c, b, k0, r, c[k], br + rest);
    Advance(scan, st.(pc := Inner(k0, r, s)), c, b, k0, k, r, s, rest);
    st' := NewTarget(scan, st.(pc := Inner(k, 0, s), blocks := [FillTo(scan, c, b, k)]), c, b, k, rest);
  }

  /** End of the band: an end-of-band run of m blocks that starts here, or nothing. */
  lemma BandEnd(scan: Scan, st: St, c: Block, b: Block, k0: nat, r: nat, br: seq<Token>, eob: nat, m: nat,
                rest: seq<Token>)
    requires AtTop(scan, st, c, b, k0) && Pending(c, k0, scan.Se + 1, r, br, eob, scan.Al) && 0 < m <= 0x7FFF
    ensures var more := r > 0 || |br| > 0;
      var toks := if more then EobToks(scan.AcTable(), m) + br else [];
      EndsAs(RunTok(scan, st, toks + rest), rest, if more then m - 1 else 0, st.last, [Target(scan, c, b)])
  {
    hide RunTok, FillTo, Ready, AbsVal, Asks, Feed, Corr, NumZeros, EobToks, Target;
    if r > 0 || |br| > 0 {
      SomePending(c, k0, scan.Se + 1, scan.Al);
      var e := EobToks(scan.AcTable(), m);
      assert e + br + rest == e + (br + rest);
      EobDecoded(scan, st, k0, m, br + rest);
      TailRun(scan, AfterEob(scan, st, k0, m), c, b, k0, rest);
    } else {
      NothingPending(c, k0, scan.Se + 1, scan.Al);
      FillEnds(scan, c, b);
      assert [] + rest == rest;
      EndOfLoop(scan, st, rest);
    }
  }

  lemma {:induction false} SomePending(c: Block, k0: nat, k: nat, Al: nat)
    requires k0 <= k <= 64 && (NumZeros(c, k0, k, Al) > 0 || Corr(c, k0, k, Al) != [])
    ensures k0 < k
  {}

  /** The end-of-band symbol and correction bits of a band, for a run of m blocks. */
  function EobOf(scan: Scan, band: BandToks, m: nat): seq<Token>
    requires scan.Ok() && scan.mode in {AcFirst, AcRefine} && m > 0
  {
    if band.more then EobToks(scan.AcTable(), m) + band.tail else []
  }

  lemma PendingZero(c: Block, k0: nat, k: nat, r: nat, br: seq<Token>, eob: nat, Al: nat)
    requires k0 <= k < 64 && Pending(c, k0, k, r, br, eob, Al) && AbsVal(c, k, Al) == 0
    ensures Pending(c, k0, k + 1, r + 1, br, eob, Al)
  {
    hide AbsVal;
  }

  lemma PendingBit(c: Block, k0: nat, k: nat, r: nat, br: seq<Token>, eob: nat, Al: nat)
    requires k0 <= k < 64 && Pending(c, k0, k, r, br, eob, Al) && AbsVal(c, k, Al) > 1 && (r <= 15 || k > eob)
    ensures Pending(c, k0, k + 1, r, br + [Raw(AbsVal(c, k, Al) % 2, 1)], eob, Al)
  {
    hide AbsVal;
  }

  lemma PendingNone(c: Block, k: nat, eob: nat, Al: nat)
    requires k <= 64
    ensures Pending(c, k, k, 0, [], eob, Al)
  {}

  /** A band of a refinement scan from coefficient k on. */
  lemma {:induction false} RefineRun(scan: Scan, st: St, c: Block, b: Block, k0: nat, k: nat, r: nat, br: seq<Token>,
                                     m: nat, rest: seq<Token>)
    requires AtTop(scan, st, c, b, k0) && k0 <= k <= scan.Se + 1 && 0 < m <= 0x7FFF
    requires Pending(c, k0, k, r, br, LastNew(c, scan.Se + 1, scan.Ss, scan.Al), scan.Al)
    ensures var band := RefineToks(scan.AcTable(), c, k, scan.Se, scan.Al, LastNew(c, scan.Se + 1, scan.Ss, scan.Al),
      r, br);
      EndsAs(RunTok(scan, st, band.pre + (EobOf(scan, band, m) + rest)), rest,
             if band.more then m - 1 else 0, st.last, [Target(scan, c, b)])
    decreases scan.Se + 1 - k, r
  {
    hide RunTok, FillTo, Ready, AbsVal, Asks, Feed, EobToks, Target, LastNew, SignToks, EndsAs, Pending, EobOf, AtTop;
    TopBounds(scan, st, c, b, k0);
    var eob, tbl := LastNew(c, scan.Se + 1, scan.Ss, scan.Al), scan.AcTable();
    var band := RefineToks(tbl, c, k, scan.Se, scan.Al, eob, r, br);
    var tail := EobOf(scan, band, m) + rest;
    if k > scan.Se {
      EndTail(scan, band, m, rest);
      BandEnd(scan, st, c, b, k0, r, br, eob, m, rest);
    } else if AbsVal(c, k, scan.Al) == 0 {
      PendingZero(c, k0, k, r, br, eob, scan.Al);
      RefineRun(scan, st, c, b, k0, k + 1, r + 1, br, m, rest);
    } else if r > 15 && k <= eob {
      var sub := RefineToks(tbl, c, k, scan.Se, scan.Al, eob, r - 16, []);
      SameTail(scan, band, sub, m);
      assert band.pre + tail == [Sym(tbl, 0xF0)] + (br + (sub.pre + tail));
      var z := ZrlStep(scan, st, c, b, k0, k, r, br, eob, sub.pre + tail);
      RefineRun(scan, st.(pc := AcTop(z + 1), blocks := [FillTo(scan, c, b, z + 1)]), c, b, z + 1, k, r - 16, [], m,
        rest);
    } else if AbsVal(c, k, scan.Al) > 1 {
      PendingBit(c, k0, k, r, br, eob, scan.Al);
      RefineRun(scan, st, c, b, k0, k + 1, r, br + [Raw(AbsVal(c, k, scan.Al) % 2, 1)], m, rest);
    } else {
      var sub := RefineToks(tbl, c, k + 1, scan.Se, scan.Al, eob, 0, []);
      SameTail(scan, band, sub, m);
      assert band.pre + tail == SignToks(tbl, r, c[k]) + (br + (sub.pre + tail));
      PendingParts(c, k0, k, r, br, eob, scan.Al);
      var st' := NewStep(scan, st, c, b, k0, k, r, br, sub.pre + tail);
      PendingNone(c, k + 1, eob, scan.Al);
      RefineRun(scan, st', c, b, k + 1, k + 1, 0, [], m, rest);
    }
  }

  lemma EndTail(scan: Scan, band: BandToks, m: nat, rest: seq<Token>)
    requires scan.Ok() && scan.mode in {AcFirst, AcRefine} && m > 0 && band.pre == []
    ensures band.pre + (EobOf(scan, band, m) + rest)
         == (if band.more then EobToks(scan.AcTable(), m) + band.tail else []) + rest
  {}

  lemma SameTail(scan: Scan, band: BandToks, sub: BandToks, m: nat)
    requires scan.Ok() && scan.mode in {AcFirst, AcRefine} && m > 0 && band.tail == sub.tail && band.more == sub.more
    ensures EobOf(scan, band, m) == EobOf(scan, sub, m)
  {}

  lemma TopBounds(scan: Scan, st: St, c: Block, b: Block, k: nat)
    requires AtTop(scan, st, c, b, k)
    ensures Refining(scan, c, b) && StOk(scan, st) && scan.Ss <= k <= scan.Se + 1
  {}

  lemma {:induction false} PendingParts(c: Block, k0: nat, k: nat, r: nat, br: seq<Token>, eob: nat, Al: nat)
    requires k0 <= k <= 64 && Pending(c, k0, k, r, br, eob, Al)
    ensures r == NumZeros(c, k0, k, Al) && br == Corr(c, k0, k, Al) && NoneNew(c, k0, k, Al)
  {}

  /** A band with no new coefficient sends only the correction bits of its end-of-band. */
  lemma {:induction false} NoPrefix(c: Block, tbl: nat, k0: nat, k: nat, Se: nat, Al: nat, eob: nat, r: nat,
                                    br: seq<Token>)
    requires Se < 64 && k0 <= k <= Se + 1 && br == Corr(c, k0, k, Al)
    requires RefineToks(tbl, c, k, Se, Al, eob, r, br).pre == []
    ensures NoneNew(c, k, Se + 1, Al) && RefineToks(tbl, c, k, Se, Al, eob, r, br).tail == Corr(c, k0, Se + 1, Al)
    decreases Se + 1 - k, r
  {
    hide AbsVal;
    if k <= Se {
      if AbsVal(c, k, Al) == 0 {
        NoPrefix(c, tbl, k0, k + 1, Se, Al, eob, r + 1, br);
      } else if !(r > 15 && k <= eob) && AbsVal(c, k, Al) > 1 {
        NoPrefix(c, tbl, k0, k + 1, Se, Al, eob, r, br + [Raw(AbsVal(c, k, Al) % 2, 1)]);
      }
    }
  }

  /** Every band leaves something behind: either tokens or a share in an end-of-band run. */
  lemma {:induction false} BandNotEmpty(c: Block, tbl: nat, k: nat, Se: nat, Al: nat, eob: nat, r: nat, br: seq<Token>)
    requires Se < 64 && k <= Se + 1 && (k <= Se || r > 0 || |br| > 0)
    requires RefineToks(tbl, c, k, Se, Al, eob, r, br).pre == []
    ensures RefineToks(tbl, c, k, Se, Al, eob, r, br).more
    decreases Se + 1 - k, r
  {
    hide AbsVal;
    if k <= Se {
      if AbsVal(c, k, Al) == 0 {
        BandNotEmpty(c, tbl, k + 1, Se, Al, eob, r + 1, br);
      } else if !(r > 15 && k <= eob) && AbsVal(c, k, Al) > 1 {
        BandNotEmpty(c, tbl, k + 1, Se, Al, eob, r, br + [Raw(AbsVal(c, k, Al) % 2, 1)]);
      }
    }
  }

  lemma {:induction false} FirstNotEmpty(c: Block, tbl: nat, k: nat, Se: nat, Al: nat, r: nat)
    requires Se < 64 && k <= Se + 1 && (k <= Se || r > 0)
    requires AcToks(tbl, c, k, Se, Al, r).0 == []
    ensures AcToks(tbl, c, k, Se, Al, r).1 > 0
    decreases Se + 1 - k
  {
    if k <= Se { FirstNotEmpty(c, tbl, k + 1, Se, Al, r + 1); }
  }

  lemma EmptyPrefixRuns(scan: Scan, c: Block)
    requires scan.Ok() && scan.mode in {AcFirst, AcRefine} && BandOf(scan, c).pre == []
    ensures BandOf(scan, c).more
  {
    hide AcToks, RefineToks, LastNew;
    if scan.mode == AcFirst {
      FirstNotEmpty(c, scan.AcTable(), scan.Ss, scan.Se, scan.Al, 0);
    } else {
      BandNotEmpty(c, scan.AcTable(), scan.Ss, scan.Se, scan.Al, LastNew(c, scan.Se + 1, scan.Ss, scan.Al), 0, []);
    }
  }

  /** The encoder and decoder meet at a band: c is coded, b is what the decoder holds. */
  ghost predicate BandPair(scan: Scan, c: Block, b: Block, last: seq<int>) {
    scan.Ok() && scan.mode in {AcFirst, AcRefine} && |last| == scan.ncomps && Coefs(c) && Ready(scan, c, b)
    && BlockFits(scan, c, 0)
  }

  /** A band decoded from scratch, its end-of-band counting m blocks. */
  lemma {:induction false} BandDecodes(scan: Scan, c: Block, b: Block, last: seq<int>, m: nat, rest: seq<Token>)
    requires BandPair(scan, c, b, last) && 0 < m <= 0x7FFF
    ensures StOk(scan, Init(scan, 0, last, [b]))
    ensures var band := BandOf(scan, c);
      EndsAs(RunTok(scan, Init(scan, 0, last, [b]), band.pre + (EobOf(scan, band, m) + rest)), rest,
             if band.more then m - 1 else 0, last, [Target(scan, c, b)])
  {
    hide RunTok, Ready, Target, AcToks, RefineToks, LastNew, EobToks, FillTo, Level, Asks, Feed;
    InitOk(scan, 0, last, [b]);
    if scan.mode == AcFirst {
      FirstBand(scan, c, b, last, m, rest);
      assert EobOf(scan, BandOf(scan, c), m) == if BandOf(scan, c).more then EobToks(scan.AcTable(), m) else [];
    } else {
      var st := Init(scan, 0, last, [b]);
      FillEnds(scan, c, b);
      PendingNone(c, scan.Ss, LastNew(c, scan.Se + 1, scan.Ss, scan.Al), scan.Al);
      RefineRun(scan, st, c, b, scan.Ss, scan.Ss, 0, [], m, rest);
    }
  }

  /** A band decoded inside an end-of-band run with e blocks to go. */
  lemma {:induction false} BandInRun(scan: Scan, c: Block, b: Block, last: seq<int>, e: nat, rest: seq<Token>)
    requires BandPair(scan, c, b, last) && e > 0 && BandOf(scan, c).pre == []
    ensures StOk(scan, Init(scan, e, last, [b]))
    ensures EndsAs(RunTok(scan, Init(scan, e, last, [b]), BandOf(scan, c).tail + rest), rest, e - 1, last,
      [Target(scan, c, b)])
  {
    hide RunTok, Ready, Target, AcToks, RefineToks, LastNew, FillTo, Level, Asks, Feed;
    InitOk(scan, e, last, [b]);
    if scan.mode == AcFirst {
      FirstBandInRun(scan, c, b, last, e, rest);
    } else {
      FillEnds(scan, c, b);
      NoPrefix(c, scan.AcTable(), scan.Ss, scan.Ss, scan.Se, scan.Al, LastNew(c, scan.Se + 1, scan.Ss, scan.Al), 0, []);
      TailRun(scan, Init(scan, e, last, [b]), c, b, scan.Ss, rest);
    }
  }
}
