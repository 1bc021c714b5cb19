/** The decoder machine undoes the encoders, on tokens: every block of a sequential or
    DC scan, and every block of an AC scan together with its part in an end-of-band run. */
module TokenRoundTrip {
  import opened Bits
  import opened Coefficients
  import opened Coding
  import opened Decoding

  lemma {:induction false} StepSilent(scan: Scan, st: St, toks: seq<Token>)
    requires StOk(scan, st) && Asks(scan, st).Silent?
    ensures StOk(scan, Feed(scan, st, 0)) && RunTok(scan, st, toks) == RunTok(scan, Feed(scan, st, 0), toks)
  {
    FeedOk(scan, st, 0);
  }

  lemma {:induction false} StepTok(scan: Scan, st: St, t: Token, rest: seq<Token>)
    requires StOk(scan, st) && Answers(Asks(scan, st), t)
    ensures StOk(scan, Feed(scan, st, Content(t)))
    ensures RunTok(scan, st, [t] + rest) == RunTok(scan, Feed(scan, st, Content(t)), rest)
  {
    FeedOk(scan, st, Content(t));
    assert ([t] + rest)[1..] == rest;
  }

  /** The run is over, with nothing consumed beyond `rest`. */
  ghost predicate EndsAs(run: TokRun, rest: seq<Token>, eobrun: nat, last: seq<int>, blocks: seq<Block>) {
    run.Ends? && run.rest == rest && run.st.pc == Fin && run.st.eobrun == eobrun
    && run.st.last == last && run.st.blocks == blocks
  }

  /** Block c as the decoder knows it after this scan has filled in band indices below k. */
  function FillTo(scan: Scan, c: Block, b: Block, k: nat): Block {
    seq(64, j requires 0 <= j < 64 => if scan.Ss <= j < k && (j > 0 || !scan.UsesAc()) then Level(c[j], j, scan.Al)
      else b[j])
  }

  // ---- DC coefficients ----

  lemma {:induction false} TokDcSize(scan: Scan, st: St, s: nat, rest: seq<Token>)
    requires StOk(scan, st) && st.pc == DcTop && st.blkn < |st.blocks| && s <= 15
    ensures var st' := if s == 0 then SetDc(scan, st, 0) else st.(pc := DcMag(s));
      && StOk(scan, st')
      && RunTok(scan, st, [Sym(scan.dcTbl[scan.members[st.blkn]], s)] + rest) == RunTok(scan, st', rest)
  {
    hide RunTok, Put, Scale, Short;
    StepTok(scan, st, Sym(scan.dcTbl[scan.members[st.blkn]], s), rest);
  }

  lemma {:induction false} TokDcMag(scan: Scan, st: St, s: nat, v: nat, rest: seq<Token>)
    requires StOk(scan, st) && st.pc == DcMag(s) && v < Pow2(s)
    ensures StOk(scan, SetDc(scan, st, Extend(v, s)))
    ensures RunTok(scan, st, [Raw(v, s)] + rest) == RunTok(scan, SetDc(scan, st, Extend(v, s)), rest)
  {
    hide RunTok, Put, Scale, Short, Pow2, Extend;
    StepTok(scan, st, Raw(v, s), rest);
  }

  lemma {:induction false} DcRun(scan: Scan, st: St, diff: int, rest: seq<Token>)
    requires StOk(scan, st) && st.pc == DcTop && st.blkn < |st.blocks| && NBits(Magnitude(diff)) <= 15
    ensures StOk(scan, SetDc(scan, st, diff))
    ensures RunTok(scan, st, DcToks(scan.dcTbl[scan.members[st.blkn]], diff) + rest) ==
      RunTok(scan, SetDc(scan, st, diff), rest)
  {
    hide RunTok, Asks, Feed, Pow2, Extend, NBits, MagBits, SetDc;
    var tbl := scan.dcTbl[scan.members[st.blkn]];
    var nb := NBits(Magnitude(diff));
    if nb == 0 {
      ZeroSize(diff);
      assert DcToks(tbl, diff) + rest == [Sym(tbl, 0)] + rest;
      TokDcSize(scan, st, 0, rest);
    } else {
      ZeroSize(diff);
      ExtendMag(diff);
      var bits := Raw(MagBits(diff), nb);
      assert DcToks(tbl, diff) + rest == [Sym(tbl, nb)] + ([bits] + rest);
      hide DcToks;
      TokDcSize(scan, st, nb, [bits] + rest);
      TokDcMag(scan, st.(pc := DcMag(nb)), nb, MagBits(diff), rest);
      SetDcPc(scan, st, DcMag(nb), diff);
    }
  }

  lemma ZeroSize(v: int)
    ensures NBits(Magnitude(v)) == 0 <==> v == 0
  {}

  lemma SetDcPc(scan: Scan, st: St, pc: Pc, diff: int)
    requires StOk(scan, st) && StOk(scan, st.(pc := pc)) && st.blkn < |st.blocks|
    ensures SetDc(scan, st.(pc := pc), diff) == SetDc(scan, st, diff)
  {}

  // ---- AC coefficients of sequential and first scans ----

  lemma {:induction false} ZrlRun(scan: Scan, st: St, k: nat, r: nat, rest: seq<Token>)
    requires StOk(scan, st) && st.pc == AcTop(k) && scan.mode in {Sequential, AcFirst} && k + r <= scan.Se
    ensures StOk(scan, st.(pc := AcTop(k + r - r % 16)))
    ensures RunTok(scan, st, ZrlToks(scan.acTbl[scan.members[st.blkn]], r) + rest)
         == RunTok(scan, st.(pc := AcTop(k + r - r % 16)), rest)
    decreases r
  {
    hide RunTok;
    var tbl := scan.acTbl[scan.members[st.blkn]];
    if r > 15 {
      assert ZrlToks(tbl, r) + rest == [Sym(tbl, 0xF0)] + (ZrlToks(tbl, r - 16) + rest);
      StepTok(scan, st, Sym(tbl, 0xF0), ZrlToks(tbl, r - 16) + rest);
      ZrlRun(scan, st.(pc := AcTop(k + 16)), k + 16, r - 16, rest);
    } else {
      assert ZrlToks(tbl, r) + rest == rest;
    }
  }

  lemma TokAcSize(scan: Scan, st: St, k: nat, r: nat, s: nat, rest: seq<Token>)
    requires StOk(scan, st) && scan.mode in {Sequential, AcFirst} && st.pc == AcTop(k)
    requires k + r <= scan.Se && r <= 15 && 1 <= s <= 15
    ensures StOk(scan, st.(pc := AcMag(k + r, s)))
    ensures RunTok(scan, st, [Sym(scan.acTbl[scan.members[st.blkn]], 16 * r + s)] + rest)
         == RunTok(scan, st.(pc := AcMag(k + r, s)), rest)
  {
    hide RunTok, Put, Scale, Short;
    StepTok(scan, st, Sym(scan.acTbl[scan.members[st.blkn]], 16 * r + s), rest);
  }

  lemma TokAcMag(scan: Scan, st: St, k: nat, s: nat, v: nat, rest: seq<Token>)
    requires StOk(scan, st) && st.pc == AcMag(k, s) && v < Pow2(s)
    ensures var st' := Put(st, k, Short(Scale(Extend(v, s), scan.Al))).(pc := AcTop(k + 1));
      StOk(scan, st') && RunTok(scan, st, [Raw(v, s)] + rest) == RunTok(scan, st', rest)
  {
    hide RunTok, Put, Scale, Short, Pow2, Extend;
    StepTok(scan, st, Raw(v, s), rest);
  }

  lemma PutPc(st: St, pc: Pc, k: nat, v: int)
    requires st.blkn < |st.blocks|
    ensures Put(st.(pc := pc), k, v) == Put(st, k, v).(pc := pc)
  {}

  /** One nonzero coefficient after a run of zeros. */
  lemma {:induction false} CoefRun(scan: Scan, st: St, k: nat, r: nat, v: int, rest: seq<Token>)
    requires StOk(scan, st) && scan.mode in {Sequential, AcFirst} && r < k && st.pc == AcTop(k - r) && k <= scan.Se
    requires v != 0 && NBits(Magnitude(v)) <= 15
    ensures StOk(scan, Put(st, k, Short(Scale(v, scan.Al))).(pc := AcTop(k + 1)))
    ensures RunTok(scan, st, CoefToks(scan.acTbl[scan.members[st.blkn]], r, v) + rest)
         == RunTok(scan, Put(st, k, Short(Scale(v, scan.Al))).(pc := AcTop(k + 1)), rest)
  {
    hide RunTok, Short, Scale, ZrlToks, Asks, Feed, Pow2, Extend, NBits, Put;
    var tbl := scan.acTbl[scan.members[st.blkn]];
    ExtendMag(v);
    var nb, q := NBits(Magnitude(v)), r % 16;
    var sym, bits := Sym(tbl, 16 * q + nb), Raw(MagBits(v), nb);
    assert CoefToks(tbl, r, v) + rest == ZrlToks(tbl, r) + ([sym] + ([bits] + rest));
    hide CoefToks, MagBits;
    ZrlRun(scan, st, k - r, r, [sym] + ([bits] + rest));
    TokAcSize(scan, st.(pc := AcTop(k - q)), k - q, q, nb, [bits] + rest);
    TokAcMag(scan, st.(pc := AcMag(k, nb)), k, nb, MagBits(v), rest);
    PutPc(st, AcMag(k, nb), k, Short(Scale(v, scan.Al)));
  }

  lemma FillNext(scan: Scan, c: Block, b: Block, k: nat)
    requires scan.Ok() && k < 64 && 1 <= k && scan.Ss <= k
    ensures FillTo(scan, c, b, k + 1) == FillTo(scan, c, b, k)[k := Level(c[k], k, scan.Al)]
  {
    hide Level;
  }

  /** The state at the top of the coefficient loop, the current block replaced. */
  function TopWith(st: St, k: nat, blk: Block): St
    requires st.blkn < |st.blocks|
  {
    st.(pc := AcTop(k), blocks := st.blocks[st.blkn := blk])
  }

  lemma FillZero(scan: Scan, c: Block, b: Block, k: nat)
    requires scan.Ok() && 1 <= k < 64 && scan.Ss <= k && b[k] == 0 && Shrink(c[k], scan.Al) == 0
    ensures FillTo(scan, c, b, k + 1) == FillTo(scan, c, b, k)
  {
    hide Shrink;
    ScaleZero(scan.Al);
  }

  /** The next coefficient is nonzero. */
  lemma {:induction false} FillCoef(scan: Scan, st: St, c: Block, b: Block, k: nat, r: nat, rest: seq<Token>)
    requires StOk(scan, st) && scan.mode in {Sequential, AcFirst} && Coefs(c)
    requires r < k <= scan.Se && scan.Ss <= k && st.pc == AcTop(k - r) && Cur(st) == FillTo(scan, c, b, k)
    requires var v := Shrink(c[k], scan.Al); v != 0 && NBits(Magnitude(v)) <= 15
    ensures var st' := TopWith(st, k + 1, FillTo(scan, c, b, k + 1));
      && StOk(scan, st')
      && RunTok(scan, st, CoefToks(scan.acTbl[scan.members[st.blkn]], r, Shrink(c[k], scan.Al)) + rest) ==
         RunTok(scan, st', rest)
  {
    hide RunTok, CoefToks, Shrink, FillTo, Asks, Feed, NBits, Scale, Sar;
    FillNext(scan, c, b, k);
    LevelShort(c[k], k, scan.Al);
    CoefRun(scan, st, k, r, Shrink(c[k], scan.Al), rest);
  }

  /** The coefficient loop from k to the end of the band. */
  lemma {:induction false} AcRun(scan: Scan, st: St, c: Block, b: Block, k: nat, r: nat, rest: seq<Token>)
    requires StOk(scan, st) && scan.mode in {Sequential, AcFirst} && Coefs(c)
    requires scan.Ss + r <= k <= scan.Se + 1 && r < k && st.pc == AcTop(k - r)
    requires AcFits(c, k, scan.Se, scan.Al)
    requires Cur(st) == FillTo(scan, c, b, k) && forall j :: k <= j <= scan.Se ==> b[j] == 0
    ensures var out := AcToks(scan.acTbl[scan.members[st.blkn]], c, k, scan.Se, scan.Al, r);
      && out.1 <= scan.Se + 1 - scan.Ss && out.1 <= scan.Se
      && var st' := TopWith(st, scan.Se + 1 - out.1, FillTo(scan, c, b, scan.Se + 1));
      && StOk(scan, st')
      && RunTok(scan, st, out.0 + rest) == RunTok(scan, st', rest)
    decreases scan.Se + 1 - k
  {
    hide RunTok, Shrink, NBits, FillTo, Asks, Feed, CoefToks, Magnitude;
    var tbl := scan.acTbl[scan.members[st.blkn]];
    if k > scan.Se {
      assert [] + rest == rest;
      assert st.blocks == st.blocks[st.blkn := Cur(st)];
    } else if Shrink(c[k], scan.Al) == 0 {
      FillZero(scan, c, b, k);
      AcRun(scan, st, c, b, k + 1, r + 1, rest);
    } else {
      var head, tail := CoefToks(tbl, r, Shrink(c[k], scan.Al)), AcToks(tbl, c, k + 1, scan.Se, scan.Al, 0);
      assert head + tail.0 + rest == head + (tail.0 + rest);
      FillCoef(scan, st, c, b, k, r, tail.0 + rest);
      var st1 := TopWith(st, k + 1, FillTo(scan, c, b, k + 1));
      AcRun(scan, st1, c, b, k + 1, 0, rest);
      TopTwice(st, k + 1, FillTo(scan, c, b, k + 1), scan.Se + 1 - tail.1, FillTo(scan, c, b, scan.Se + 1));
    }
  }

  lemma TopTwice(st: St, k: nat, x: Block, j: nat, y: Block)
    requires st.blkn < |st.blocks|
    ensures TopWith(TopWith(st, k, x), j, y) == TopWith(st, j, y)
  {
    assert st.blocks[st.blkn := x][st.blkn := y] == st.blocks[st.blkn := y];
  }

  // ---- Whole blocks of sequential and DC scans ----

  /** The decoder's block before the scan: earlier scans have left exactly the bits above Al. */
  ghost predicate Ready(scan: Scan, c: Block, b: Block) {
    forall k :: 0 <= k < 64 && scan.InBand(k) ==> b[k] == if scan.Refines() then Level(c[k], k, scan.Al + 1) else 0
  }

  /** The decoder's block after the scan. */
  function Target(scan: Scan, c: Block, b: Block): Block {
    seq(64, k requires 0 <= k < 64 => if scan.InBand(k) then Level(c[k], k, scan.Al) else b[k])
  }

  /** The decoder between blocks of a sequential or DC scan. */
  ghost predicate AtBlock(scan: Scan, st: St) {
    StOk(scan, st) && st.pc == if scan.mode == DcRefine then BitTop else DcTop
  }

  function NextBlock(scan: Scan, st: St, c: Block, b: Block): St
    requires st.blkn < |st.blocks| && |st.last| == scan.ncomps && st.blkn < |scan.members|
      && scan.members[st.blkn] < scan.ncomps
  {
    st.(blkn := st.blkn + 1, blocks := st.blocks[st.blkn := Target(scan, c, b)],
        last := Predict(scan, scan.members[st.blkn], c, st.last))
  }

  lemma {:induction false} DcRefineBlock(scan: Scan, st: St, c: Block, rest: seq<Token>)
    requires AtBlock(scan, st) && scan.mode == DcRefine && st.blkn < |st.blocks|
    requires Coefs(c) && Ready(scan, c, Cur(st))
    ensures StOk(scan, NextBlock(scan, st, c, Cur(st)))
    ensures RunTok(scan, st, [Raw(DcValue(scan, c) % 2, 1)] + rest) == RunTok(scan, NextBlock(scan, st, c, Cur(st)),
      rest)
  {
    hide RunTok, Sar, Level, SetBit;
    var v := DcValue(scan, c) % 2;
    DcRefined(c[0], scan.Al);
    Pow2Values();
    StepTok(scan, st, Raw(v, 1), rest);
    assert Bit(c[0], scan.Al) <==> v == 1;
    assert Target(scan, c, Cur(st)) == Cur(st)[0 := Level(c[0], 0, scan.Al)];
    assert Cur(st)[0 := Cur(st)[0]] == Cur(st);
    assert st.blocks[st.blkn := Cur(st)] == st.blocks;
  }

  lemma {:induction false} DcFirstBlock(scan: Scan, st: St, c: Block, rest: seq<Token>)
    requires AtBlock(scan, st) && scan.mode == DcFirst && st.blkn < |st.blocks| && Coefs(c)
    requires BlockFits(scan, c, st.last[scan.members[st.blkn]])
    ensures StOk(scan, NextBlock(scan, st, c, Cur(st)))
    ensures RunTok(scan, st, BlockToks(scan, scan.members[st.blkn], c, st.last[scan.members[st.blkn]]) + rest)
         == RunTok(scan, NextBlock(scan, st, c, Cur(st)), rest)
  {
    hide RunTok, Sar, Scale, DcToks, Asks, Feed, SetDc, NextBlock;
    DcRun(scan, st, DcValue(scan, c) - st.last[scan.members[st.blkn]], rest);
    DcFirstDc(scan, st, c);
  }

  lemma DcFirstDc(scan: Scan, st: St, c: Block)
    requires AtBlock(scan, st) && scan.mode == DcFirst && st.blkn < |st.blocks| && Coefs(c)
    ensures SetDc(scan, st, DcValue(scan, c) - st.last[scan.members[st.blkn]]) == NextBlock(scan, st, c, Cur(st))
  {
    hide Sar, Scale;
    LevelShort(c[0], 0, scan.Al);
    assert Target(scan, c, Cur(st)) == Cur(st)[0 := Level(c[0], 0, scan.Al)];
  }

  lemma {:induction false} SequentialBlock(scan: Scan, st: St, c: Block, rest: seq<Token>)
    requires AtBlock(scan, st) && scan.mode == Sequential && st.blkn < |st.blocks| && Coefs(c)
    requires BlockFits(scan, c, st.last[scan.members[st.blkn]]) && Ready(scan, c, Cur(st))
    ensures StOk(scan, NextBlock(scan, st, c, Cur(st)))
    ensures RunTok(scan, st, BlockToks(scan, scan.members[st.blkn], c, st.last[scan.members[st.blkn]]) + rest)
         == RunTok(scan, NextBlock(scan, st, c, Cur(st)), rest)
  {
    hide RunTok, Sar, Scale, DcToks, Asks, Feed, AcToks, Shrink, NBits, SetDc, Target, FillTo, Level;
    var ci, b := scan.members[st.blkn], Cur(st);
    var diff := DcValue(scan, c) - st.last[ci];
    var tbl := scan.acTbl[ci];
    var ac := AcToks(tbl, c, 1, 63, 0, 0);
    var eob := if ac.1 > 0 then [Sym(tbl, 0)] else [];
    var dc := DcToks(scan.dcTbl[ci], diff);
    var b1 := b[0 := c[0]];
    assert BlockToks(scan, ci, c, st.last[ci]) + rest == dc + (ac.0 + (eob + rest));
    hide BlockToks;
    DcRun(scan, st, diff, ac.0 + (eob + rest));
    SequentialDc(scan, st, c);
    var st1 := SetDc(scan, st, diff);
    assert FillTo(scan, c, b1, 1) == b1 by { NothingFilled(scan, c, b1); }
    AcRun(scan, st1, c, b1, 1, 0, eob + rest);
    var st2 := st1.(pc := AcTop(64 - ac.1), blocks := st1.blocks[st.blkn := FillTo(scan, c, b1, 64)]);
    EndOfBlock(scan, st2, 64 - ac.1, eob, rest);
    FilledIsTarget(scan, c, b);
    assert st1.blocks[st.blkn := Target(scan, c, b)] == st.blocks[st.blkn := Target(scan, c, b)];
  }

  lemma NothingFilled(scan: Scan, c: Block, b: Block)
    requires scan.Ok() && scan.mode == Sequential
    ensures FillTo(scan, c, b, 1) == b
  {}

  lemma SequentialDc(scan: Scan, st: St, c: Block)
    requires AtBlock(scan, st) && scan.mode == Sequential && st.blkn < |st.blocks| && Coefs(c)
    ensures SetDc(scan, st, DcValue(scan, c) - st.last[scan.members[st.blkn]]) ==
      st.(pc := AcTop(1), blocks := st.blocks[st.blkn := Cur(st)[0 := c[0]]],
          last := st.last[scan.members[st.blkn] := DcValue(scan, c)])
  {
    ScaleSarZero(c[0]);
  }

  lemma {:induction false} ScaleSarZero(c: int)
    ensures Scale(Sar(c, 0), 0) == c && Sar(c, 0) == c
  {}

  lemma FilledIsTarget(scan: Scan, c: Block, b: Block)
    requires scan.Ok() && scan.mode == Sequential
    ensures FillTo(scan, c, b[0 := c[0]], 64) == Target(scan, c, b)
  {
    forall j | 0 <= j < 64 ensures FillTo(scan, c, b[0 := c[0]], 64)[j] == Target(scan, c, b)[j] {
      ScaleSarZero(c[j]);
    }
  }

  /** End-of-block, written only after trailing zeros. */
  lemma EndOfBlock(scan: Scan, st: St, k: nat, eob: seq<Token>, rest: seq<Token>)
    requires StOk(scan, st) && scan.mode == Sequential && st.pc == AcTop(k) && k <= 64
    requires eob == if k < 64 then [Sym(scan.acTbl[scan.members[st.blkn]], 0)] else []
    ensures var st' := st.(pc := DcTop, blkn := st.blkn + 1);
      StOk(scan, st') && RunTok(scan, st, eob + rest) == RunTok(scan, st', rest)
  {
    hide RunTok;
    if k < 64 {
      StepTok(scan, st, eob[0], rest);
    } else {
      assert eob + rest == rest;
      StepSilent(scan, st, rest);
    }
  }

  /** Any block of a sequential or DC scan. */
  lemma {:induction false} BlockRun(scan: Scan, st: St, c: Block, rest: seq<Token>)
    requires AtBlock(scan, st) && scan.mode in {Sequential, DcFirst, DcRefine} && st.blkn < |st.blocks| && Coefs(c)
    requires BlockFits(scan, c, st.last[scan.members[st.blkn]]) && Ready(scan, c, Cur(st))
    ensures AtBlock(scan, NextBlock(scan, st, c, Cur(st)))
    ensures RunTok(scan, st, BlockToks(scan, scan.members[st.blkn], c, st.last[scan.members[st.blkn]]) + rest)
         == RunTok(scan, NextBlock(scan, st, c, Cur(st)), rest)
  {
    hide RunTok, Ready, Target;
    if scan.mode == Sequential {
      SequentialBlock(scan, st, c, rest);
    } else if scan.mode == DcFirst {
      DcFirstBlock(scan, st, c, rest);
    } else {
      DcRefineBlock(scan, st, c, rest);
    }
  }

  /** The decoder's blocks after the first i blocks of the MCU. */
  function Targets(scan: Scan, mcu: seq<Block>, bs: seq<Block>, i: nat): seq<Block>
    requires i <= |mcu| == |bs|
  {
    seq(|bs|, j requires 0 <= j < |bs| => if j < i then Target(scan, mcu[j], bs[j]) else bs[j])
  }

  ghost predicate AllReady(scan: Scan, mcu: seq<Block>, bs: seq<Block>) {
    |mcu| == |bs| == |scan.members| && forall j :: 0 <= j < |mcu| ==> Coefs(mcu[j]) && Ready(scan, mcu[j], bs[j])
  }

  /** The decoder after the first i blocks of the MCU. */
  ghost function Mid(scan: Scan, mcu: seq<Block>, bs: seq<Block>, last: seq<int>, i: nat): St
    requires scan.Ok() && scan.mode in {Sequential, DcFirst, DcRefine} && |last| == scan.ncomps
    requires i <= |mcu| == |bs| == |scan.members|
  {
    Init(scan, 0, McuToks(scan, mcu, i, last).1, Targets(scan, mcu, bs, i)).(blkn := i)
  }

  lemma MidStep(scan: Scan, mcu: seq<Block>, bs: seq<Block>, last: seq<int>, i: nat)
    requires scan.Ok() && scan.mode in {Sequential, DcFirst, DcRefine} && |last| == scan.ncomps
    requires 0 < i <= |mcu| == |bs| == |scan.members|
    ensures var st := Mid(scan, mcu, bs, last, i - 1); var ci := scan.members[i - 1];
      && st.blkn == i - 1 && |st.blocks| == |bs| && Cur(st) == bs[i - 1] && |st.last| == scan.ncomps
      && st.last == McuToks(scan, mcu, i - 1, last).1
      && NextBlock(scan, st, mcu[i - 1], bs[i - 1]) == Mid(scan, mcu, bs, last, i)
      && McuToks(scan, mcu, i, last).0
         == McuToks(scan, mcu, i - 1, last).0 + BlockToks(scan, ci, mcu[i - 1], st.last[ci])
  {
    hide Target, Predict, BlockToks;
    assert Targets(scan, mcu, bs, i - 1)[i - 1 := Target(scan, mcu[i - 1], bs[i - 1])] == Targets(scan, mcu, bs, i);
  }

  /** The first i blocks of an MCU of a sequential or DC scan. */
  lemma {:induction false} McuRun(scan: Scan, mcu: seq<Block>, bs: seq<Block>, last: seq<int>, i: nat, rest: seq<Token>)
    requires scan.Ok() && scan.mode in {Sequential, DcFirst, DcRefine} && |last| == scan.ncomps
    requires AllReady(scan, mcu, bs) && i <= |mcu| && McuFits(scan, mcu, i, last)
    ensures AtBlock(scan, Mid(scan, mcu, bs, last, i)) && StOk(scan, Init(scan, 0, last, bs))
    ensures RunTok(scan, Init(scan, 0, last, bs), McuToks(scan, mcu, i, last).0 + rest)
         == RunTok(scan, Mid(scan, mcu, bs, last, i), rest)
  {
    hide RunTok, BlockToks, Target, Ready, BlockFits;
    if i == 0 {
      assert [] + rest == rest;
      assert Targets(scan, mcu, bs, 0) == bs;
    } else {
      McuRun(scan, mcu, bs, last, i - 1, BlockAt(scan, mcu, last, i - 1) + rest);
      McuRunStep(scan, mcu, bs, last, i, rest);
    }
  }

  function BlockAt(scan: Scan, mcu: seq<Block>, last: seq<int>, i: nat): seq<Token>
    requires scan.Ok() && scan.mode in {Sequential, DcFirst, DcRefine} && |last| == scan.ncomps
    requires i < |mcu| == |scan.members|
  {
    BlockToks(scan, scan.members[i], mcu[i], McuToks(scan, mcu, i, last).1[scan.members[i]])
  }

  lemma McuRunStep(scan: Scan, mcu: seq<Block>, bs: seq<Block>, last: seq<int>, i: nat, rest: seq<Token>)
    requires scan.Ok() && scan.mode in {Sequential, DcFirst, DcRefine} && |last| == scan.ncomps
    requires AllReady(scan, mcu, bs) && 0 < i <= |mcu| && McuFits(scan, mcu, i, last)
    requires AtBlock(scan, Mid(scan, mcu, bs, last, i - 1)) && StOk(scan, Init(scan, 0, last, bs))
    requires RunTok(scan, Init(scan, 0, last, bs), McuToks(scan, mcu, i - 1, last).0
      + (BlockAt(scan, mcu, last, i - 1) + rest))
          == RunTok(scan, Mid(scan, mcu, bs, last, i - 1), BlockAt(scan, mcu, last, i - 1) + rest)
    ensures AtBlock(scan, Mid(scan, mcu, bs, last, i))
    ensures RunTok(scan, Init(scan, 0, last, bs), McuToks(scan, mcu, i, last).0 + rest)
         == RunTok(scan, Mid(scan, mcu, bs, last, i), rest)
  {
    hide RunTok, BlockToks, Target, Ready, BlockFits, Asks, Feed, Mid, McuToks, Init, Targets, NextBlock;
    MidStep(scan, mcu, bs, last, i);
    BlockRun(scan, Mid(scan, mcu, bs, last, i - 1), mcu[i - 1], rest);
    var before := McuToks(scan, mcu, i - 1, last).0;
    assert before + BlockAt(scan, mcu, last, i - 1) + rest == before + (BlockAt(scan, mcu, last, i - 1) + rest);
  }

  /** A whole MCU of a sequential or DC scan comes back. */
  lemma {:induction false} McuDecodes(scan: Scan, mcu: seq<Block>, bs: seq<Block>, last: seq<int>, rest: seq<Token>)
    requires scan.Ok() && scan.mode in {Sequential, DcFirst, DcRefine} && |last| == scan.ncomps
    requires AllReady(scan, mcu, bs) && McuFits(scan, mcu, |mcu|, last)
    ensures StOk(scan, Init(scan, 0, last, bs))
    ensures var r := McuToks(scan, mcu, |mcu|, last);
      EndsAs(RunTok(scan, Init(scan, 0, last, bs), r.0 + rest), rest, 0, r.1, Targets(scan, mcu, bs, |mcu|))
  {
    McuRun(scan, mcu, bs, last, |mcu|, rest);
    StepSilent(scan, Mid(scan, mcu, bs, last, |mcu|), rest);
  }
}
