/** Which end-of-band runs a progressive AC scan uses: the longest possible ones. The blocks of a restart segment
    fall into groups, one end-of-band run each, and a run ends only where a block has a coefficient to send, where
    the segment ends, or where the run or its correction bits reach their limit (jcphuff.c). */
module RunGroups {
  import opened Bits
  import opened Coefficients
  import opened HuffmanTables
  import opened Coding
  import opened BandRoundTrip
  import opened SegmentRoundTrip
  import opened ScanRoundTrip

  // ---- Groups of bands ----

  /** The correction bits of a group of blocks. */
  function Tails(g: seq<BandToks>): seq<Token> {
    if g == [] then [] else Tails(g[..|g| - 1]) + g[|g| - 1].tail
  }

  /** A block that ends with a coefficient, alone, or blocks that share an end-of-band: only the first of them may have
      coefficients, there are no more than 0x7FFF, and the last one but no earlier one brings the correction bits
      above 937. */
  ghost predicate GroupOk(g: seq<BandToks>) {
    && g != [] && (if g[0].more then forall i :: 0 <= i < |g| ==> g[i].more else |g| == 1)
    && (forall i :: 1 <= i < |g| ==> g[i].pre == [])
    && |g| <= 0x7FFF && |Tails(g[..|g| - 1])| <= 937
  }

  /** No further block can join the group. */
  ghost predicate Full(g: seq<BandToks>)
    requires g != []
  {
    !g[0].more || |g| == 0x7FFF || |Tails(g)| > 937
  }

  /** The coefficients of the first block, then the end-of-band run with its correction bits. */
  function GroupToks(tbl: nat, g: seq<BandToks>): seq<Token>
    requires g != []
  {
    g[0].pre + if g[0].more then EobToks(tbl, |g|) + Tails(g) else []
  }

  function Flat<T>(gs: seq<seq<T>>): seq<T> {
    if gs == [] then [] else Flat(gs[..|gs| - 1]) + gs[|gs| - 1]
  }

  function AllToks(tbl: nat, gs: seq<seq<BandToks>>): seq<Token>
    requires forall i :: 0 <= i < |gs| ==> gs[i] != []
  {
    if gs == [] then [] else AllToks(tbl, gs[..|gs| - 1]) + GroupToks(tbl, gs[|gs| - 1])
  }

  /** The groups make up the bands, and each run that ends before a block without coefficients is full. */
  ghost predicate Maximal(bands: seq<BandToks>, gs: seq<seq<BandToks>>) {
    && Flat(gs) == bands && (forall i :: 0 <= i < |gs| ==> GroupOk(gs[i]))
    && (forall i :: 0 <= i < |gs| - 1 ==> Full(gs[i]) || gs[i + 1][0].pre != [])
  }

  // ---- The encoder groups like that ----

  /** The encoder's state: its pending run is the last group, or the last group is full. */
  ghost predicate Groups(tbl: nat, st: EncSt, bands: seq<BandToks>, gs: seq<seq<BandToks>>) {
    && Maximal(bands, gs)
    && if st.n == 0 then st.cur == AllToks(tbl, gs) && st.be == [] && (gs != [] ==> Full(gs[|gs| - 1]))
       else
         && gs != [] && var g := gs[|gs| - 1];
         && g[0].more && !Full(g) && st.n == |g| && st.be == Tails(g)
         && st.cur == AllToks(tbl, gs[..|gs| - 1]) + g[0].pre
  }

  lemma {:induction false} TailsAdd(g: seq<BandToks>, b: BandToks)
    ensures Tails(g + [b]) == Tails(g) + b.tail
  {
    assert (g + [b])[..|g|] == g;
  }

  lemma {:induction false} FlatAdd<T>(gs: seq<seq<T>>, g: seq<T>)
    ensures Flat(gs + [g]) == Flat(gs) + g
  {
    assert (gs + [g])[..|gs|] == gs;
  }

  /** The tokens after the pending run has been written. */
  lemma {:induction false} Flushed(scan: Scan, st: EncSt, bands: seq<BandToks>, gs: seq<seq<BandToks>>)
    requires Groups(RunTable(scan), st, bands, gs)
    ensures Flush(scan, st).cur == AllToks(RunTable(scan), gs)
  {
    hide Tails, EobToks, RunTable, Flat, GroupOk;
    NotEmpty(bands, gs);
    if st.n > 0 {
      var g := gs[|gs| - 1];
      var prev := AllToks(RunTable(scan), gs[..|gs| - 1]);
      assert (prev + g[0].pre) + RunToks(RunTable(scan), st.n, st.be) == prev + GroupToks(RunTable(scan), g);
    } else {
      assert st.cur + [] == st.cur;
    }
  }

  lemma NotEmpty(bands: seq<BandToks>, gs: seq<seq<BandToks>>)
    requires Maximal(bands, gs)
    ensures forall i :: 0 <= i < |gs| ==> gs[i] != []
  {}

  lemma OneBand(b: BandToks)
    ensures Tails([b]) == b.tail && GroupOk([b])
    ensures Full([b]) <==> !b.more || |b.tail| > 937
  {
    assert [b][..0] == [];
    assert Tails([]) == [];
    assert [] + b.tail == b.tail;
  }

  /** A new group at the end. */
  lemma Appended(bands: seq<BandToks>, gs: seq<seq<BandToks>>, b: BandToks)
    requires Maximal(bands, gs) && (gs != [] ==> gs[|gs| - 1] != [] && (Full(gs[|gs| - 1]) || b.pre != []))
    ensures Maximal(bands + [b], gs + [[b]])
  {
    hide Full, Tails;
    FlatAdd(gs, [b]);
    OneBand(b);
    var more := gs + [[b]];
    forall i | 0 <= i < |more| - 1 ensures Full(more[i]) || more[i + 1][0].pre != [] {
      if i < |gs| - 1 { assert Full(gs[i]) || gs[i + 1][0].pre != []; }
    }
  }

  /** One more block in the last group. */
  lemma Joined(bands: seq<BandToks>, gs: seq<seq<BandToks>>, b: BandToks)
    requires Maximal(bands, gs) && gs != [] && gs[|gs| - 1] != [] && !Full(gs[|gs| - 1]) && b.pre == [] && b.more
    ensures Maximal(bands + [b], gs[..|gs| - 1] + [gs[|gs| - 1] + [b]])
  {
    hide Tails;
    var n := |gs| - 1;
    var g, prev := gs[n] + [b], gs[..n];
    FlatAdd(prev, g);
    assert bands + [b] == Flat(prev) + (gs[n] + [b]);
    assert g[..|g| - 1] == gs[n];
    assert GroupOk(gs[n]);
    assert GroupOk(g);
  }

  /** A block with coefficients, or one that follows a full group. */
  lemma StartGroup(scan: Scan, st: EncSt, bands: seq<BandToks>, gs: seq<seq<BandToks>>, b: BandToks)
    requires Groups(RunTable(scan), st, bands, gs) && (b.pre == [] ==> b.more && st.n == 0)
    ensures Groups(RunTable(scan), AddBand(scan, st, b), bands + [b], gs + [[b]])
  {
    hide EobToks, RunTable, Flat, GroupOk, Tails, Maximal;
    var tbl, more := RunTable(scan), gs + [[b]];
    NotEmpty(bands, gs);
    Flushed(scan, st, bands, gs);
    OneBand(b);
    if gs != [] { PendingNotFull(tbl, st, bands, gs); }
    Appended(bands, gs, b);
    NotEmpty(bands + [b], more);
    assert more[..|gs|] == gs && more[|gs|] == [b];
    var done, st' := AllToks(tbl, gs), AddBand(scan, st, b);
    if !b.more {
      assert st'.cur == done + b.pre == done + GroupToks(tbl, [b]);
    } else if |b.tail| > 937 {
      assert st'.cur == done + GroupToks(tbl, [b]);
    } else {
      assert st'.cur == done + b.pre;
    }
  }

  lemma PendingNotFull(tbl: nat, st: EncSt, bands: seq<BandToks>, gs: seq<seq<BandToks>>)
    requires Groups(tbl, st, bands, gs) && gs != []
    ensures gs[|gs| - 1] != [] && (st.n == 0 <==> Full(gs[|gs| - 1]))
  {
    hide Tails, Flat, AllToks;
    NotEmpty(bands, gs);
  }

  /** What the encoder does with a block without coefficients during a run. */
  lemma JoinState(scan: Scan, st: EncSt, b: BandToks)
    requires b.pre == [] && b.more && st.n > 0
    ensures var st', n, be := AddBand(scan, st, b), st.n + 1, st.be + b.tail;
      if n == 0x7FFF || |be| > 937 then
        st'.n == 0 && st'.be == [] && st'.cur == st.cur + (EobToks(RunTable(scan), n) + be)
      else st'.n == n && st'.be == be && st'.cur == st.cur
  {
    hide EobToks, RunTable;
  }

  /** A block without coefficients that joins the pending run. */
  lemma ExtendGroup(scan: Scan, st: EncSt, bands: seq<BandToks>, gs: seq<seq<BandToks>>, b: BandToks)
    requires Groups(RunTable(scan), st, bands, gs) && b.pre == [] && b.more && st.n > 0
    ensures gs != []
    ensures Groups(RunTable(scan), AddBand(scan, st, b), bands + [b], gs[..|gs| - 1] + [gs[|gs| - 1] + [b]])
  {
    hide EobToks, RunTable, Flat, GroupOk, Tails, Maximal, AddBand, AllToks;
    var tbl, n := RunTable(scan), |gs| - 1;
    NotEmpty(bands, gs);
    JoinState(scan, st, b);
    Joined(bands, gs, b);
    TailsAdd(gs[n], b);
    var prev, g, st' := gs[..n], gs[n] + [b], AddBand(scan, st, b);
    NotEmpty(bands + [b], prev + [g]);
    LastToks(tbl, prev, g);
    if Full(g) {
      var eob := EobToks(tbl, |g|) + Tails(g);
      assert AllToks(tbl, prev) + g[0].pre + eob == AllToks(tbl, prev) + (g[0].pre + eob);
    }
  }

  lemma {:induction false} LastToks(tbl: nat, prev: seq<seq<BandToks>>, g: seq<BandToks>)
    requires g != [] && forall i :: 0 <= i < |prev| ==> prev[i] != []
    ensures var gs := prev + [g];
      && gs[..|prev|] == prev && gs[|prev|] == g && (forall i :: 0 <= i < |gs| ==> gs[i] != [])
      && AllToks(tbl, gs) == AllToks(tbl, prev) + GroupToks(tbl, g)
  {
    var gs := prev + [g];
    assert gs[..|prev|] == prev;
  }

  // ---- What the bands say of the blocks ----

  /** The scan has to send coefficient k: it is the first scan with a nonzero value, after the point transform. */
  predicate New(scan: Scan, blk: Block, k: nat)
    requires k < 64
  {
    if scan.mode == AcFirst then Shrink(blk[k], scan.Al) != 0 else AbsVal(blk, k, scan.Al) == 1
  }

  /** No coefficient from k to the end of the band. */
  ghost predicate NoneNew(scan: Scan, blk: Block, k: nat)
    requires scan.Se < 64
  {
    forall j :: k <= j <= scan.Se ==> !New(scan, blk, j)
  }

  /** The correction bits of coefficients k to Se that are already known to be nonzero. */
  function Corrections(blk: Block, k: nat, Se: nat, Al: nat): seq<Token>
    requires Se < 64
    decreases Se + 1 - k
  {
    if k > Se then []
    else (if AbsVal(blk, k, Al) > 1 then [Raw(AbsVal(blk, k, Al) % 2, 1)] else []) + Corrections(blk, k + 1, Se, Al)
  }

  lemma CorrectionStep(blk: Block, k: nat, Se: nat, Al: nat)
    requires Se < 64
    ensures Corrections(blk, k, Se, Al) ==
      if k > Se then []
      else (if AbsVal(blk, k, Al) > 1 then [Raw(AbsVal(blk, k, Al) % 2, 1)] else []) + Corrections(blk, k + 1, Se, Al)
  {}

  lemma {:induction false} FirstMeans(scan: Scan, blk: Block, tbl: nat, k: nat, r: nat)
    requires scan.mode == AcFirst && scan.Se < 64 && k <= scan.Se + 1
    ensures var t := AcToks(tbl, blk, k, scan.Se, scan.Al, r);
      && (t.0 == [] <==> NoneNew(scan, blk, k))
      && (t.1 > 0 <==> if k > scan.Se then r > 0 else !New(scan, blk, scan.Se))
    decreases scan.Se + 1 - k
  {
    hide Shrink, ZrlToks;
    if k <= scan.Se {
      FirstMeans(scan, blk, tbl, k + 1, if New(scan, blk, k) then 0 else r + 1);
    }
  }

  /** Behind the last new coefficient there are only zeros and corrections. */
  lemma {:induction false} RefineRest(scan: Scan, blk: Block, tbl: nat, k: nat, eob: nat, r: nat, br: seq<Token>)
    requires scan.mode == AcRefine && scan.Se < 64 && eob < k <= scan.Se + 1 && NoneNew(scan, blk, k)
    ensures var b := RefineToks(tbl, blk, k, scan.Se, scan.Al, eob, r, br);
      && b.pre == [] && b.tail == br + Corrections(blk, k, scan.Se, scan.Al)
      && (b.more <==> k <= scan.Se || r > 0 || |br| > 0)
    decreases scan.Se + 1 - k
  {
    hide AbsVal, Corrections;
    CorrectionStep(blk, k, scan.Se, scan.Al);
    var rest := if k <= scan.Se then Corrections(blk, k + 1, scan.Se, scan.Al) else [];
    if k > scan.Se {
      assert br + [] == br;
    } else {
      var a := AbsVal(blk, k, scan.Al);
      assert !New(scan, blk, k);
      if a == 0 {
        RefineRest(scan, blk, tbl, k + 1, eob, r + 1, br);
        assert [] + rest == rest;
      } else {
        RefineRest(scan, blk, tbl, k + 1, eob, r, br + [Raw(a % 2, 1)]);
        assert br + ([Raw(a % 2, 1)] + rest) == br + [Raw(a % 2, 1)] + rest;
      }
    }
  }

  lemma {:induction false} RefineMeans(scan: Scan, blk: Block, tbl: nat, k: nat, eob: nat, r: nat, br: seq<Token>)
    requires scan.mode == AcRefine && k <= eob <= scan.Se < 64 && New(scan, blk, eob) && NoneNew(scan, blk, eob + 1)
    ensures var b := RefineToks(tbl, blk, k, scan.Se, scan.Al, eob, r, br);
      && b.pre != [] && b.tail == Corrections(blk, eob + 1, scan.Se, scan.Al) && (b.more <==> eob < scan.Se)
    decreases scan.Se + 1 - k, r
  {
    hide AbsVal, Corrections;
    var a := AbsVal(blk, k, scan.Al);
    if k == eob && !(r > 15) {
      RefineRest(scan, blk, tbl, k + 1, eob, 0, []);
      var rest := Corrections(blk, k + 1, scan.Se, scan.Al);
      assert [] + rest == rest;
    } else if a == 0 {
      RefineMeans(scan, blk, tbl, k + 1, eob, r + 1, br);
    } else if r > 15 {
      RefineMeans(scan, blk, tbl, k, eob, r - 16, []);
    } else if a > 1 {
      RefineMeans(scan, blk, tbl, k + 1, eob, r, br + [Raw(a % 2, 1)]);
    } else {
      RefineMeans(scan, blk, tbl, k + 1, eob, 0, []);
    }
  }

  /** A block has tokens of its own exactly if it has a coefficient to send, it takes part in an end-of-band run
      exactly if it does not end with one, and then brings the correction bits behind its last new coefficient. */
  lemma {:induction false} BandMeans(scan: Scan, blk: Block) returns (first: nat)
    requires scan.Ok() && scan.mode in {AcFirst, AcRefine}
    ensures (BandOf(scan, blk).pre == [] <==> NoneNew(scan, blk, scan.Ss))
    ensures (BandOf(scan, blk).more <==> !New(scan, blk, scan.Se))
    ensures scan.Ss <= first <= scan.Se + 1 && NoneNew(scan, blk, first)
    ensures first == scan.Ss || New(scan, blk, first - 1)
    ensures BandOf(scan, blk).tail ==
      if scan.mode == AcFirst then [] else Corrections(blk, first, scan.Se, scan.Al)
  {
    hide AbsVal, Shrink, AcToks, RefineToks, Corrections;
    first := LastSent(scan, blk, scan.Se + 1);
    if scan.mode == AcFirst {
      FirstMeans(scan, blk, scan.AcTable(), scan.Ss, 0);
    } else {
      var eob := LastNew(blk, scan.Se + 1, scan.Ss, scan.Al);
      if eob == 0 {
        RefineRest(scan, blk, scan.AcTable(), scan.Ss, 0, 0, []);
        assert [] + Corrections(blk, first, scan.Se, scan.Al) == Corrections(blk, first, scan.Se, scan.Al);
      } else {
        RefineMeans(scan, blk, scan.AcTable(), scan.Ss, eob, 0, []);
      }
    }
  }

  /** One more than the last coefficient below k that the scan has to send, or Ss. */
  ghost function LastSent(scan: Scan, blk: Block, k: nat): (first: nat)
    requires scan.Ss <= k <= scan.Se + 1 <= 64
    ensures scan.Ss <= first <= k && (first == scan.Ss || New(scan, blk, first - 1))
    ensures forall j :: first <= j < k ==> !New(scan, blk, j)
  {
    if k == scan.Ss || New(scan, blk, k - 1) then k else LastSent(scan, blk, k - 1)
  }

  // ---- Zero runs ----

  /** The last Huffman symbol. */
  function LastSym(toks: seq<Token>): Option<nat> {
    if toks == [] then None
    else
      var t := toks[|toks| - 1];
      if t.Sym? then Some(t.s) else LastSym(toks[..|toks| - 1])
  }

  lemma {:induction false} LastOf(a: seq<Token>, b: seq<Token>)
    ensures LastSym(a + b) == if LastSym(b).Some? then LastSym(b) else LastSym(a)
  {
    if b == [] {
      assert a + b == a;
    } else {
      LastOf(a, b[..|b| - 1]);
      assert (a + b)[..|a + b| - 1] == a + b[..|b| - 1];
    }
  }

  lemma {:induction false} NoSymbols(toks: seq<Token>)
    requires forall i :: 0 <= i < |toks| ==> toks[i].Raw?
    ensures LastSym(toks) == None
  {
    if toks != [] { NoSymbols(toks[..|toks| - 1]); }
  }

  /** A symbol that comes with a coefficient, unlike ZRL and end-of-band. */
  predicate EndsWithCoef(toks: seq<Token>) {
    LastSym(toks).Some? && LastSym(toks).value % 16 != 0
  }

  lemma EndsLater(a: seq<Token>, b: seq<Token>)
    ensures EndsWithCoef(b) ==> EndsWithCoef(a + b)
  {
    LastOf(a, b);
  }

  lemma CoefEnds(tbl: nat, r: nat, v: int)
    requires v != 0 && NBits(Magnitude(v)) <= MAX_COEF_BITS
    ensures EndsWithCoef(CoefToks(tbl, r, v))
  {
    hide NBits, Magnitude, MagBits, ZrlToks, EndsWithCoef;
    ExtendMag(v);
    var nb := NBits(Magnitude(v));
    SymbolEnds(tbl, r % 16, nb, MagBits(v));
    EndsLater(ZrlToks(tbl, r), [Sym(tbl, 16 * (r % 16) + nb), Raw(MagBits(v), nb)]);
  }

  lemma SymbolEnds(tbl: nat, r: nat, nb: nat, v: nat)
    requires 0 < nb < 16
    ensures EndsWithCoef([Sym(tbl, 16 * r + nb), Raw(v, nb)])
  {
    var toks := [Sym(tbl, 16 * r + nb), Raw(v, nb)];
    assert toks[..1] == [toks[0]];
    assert (16 * r + nb) % 16 == nb;
  }

  lemma {:induction false} FirstEnds(tbl: nat, blk: Block, k: nat, Se: nat, Al: nat, r: nat)
    requires Se < 64 && k <= Se + 1 && AcFits(blk, k, Se, Al)
    ensures var t := AcToks(tbl, blk, k, Se, Al, r).0; t != [] ==> EndsWithCoef(t)
    decreases Se + 1 - k
  {
    hide EndsWithCoef, CoefToks;
    if k <= Se {
      var v := Shrink(blk[k], Al);
      FirstEnds(tbl, blk, k + 1, Se, Al, if v == 0 then r + 1 else 0);
      if v != 0 {
        CoefEnds(tbl, r, v);
        var rest := AcToks(tbl, blk, k + 1, Se, Al, 0).0;
        EndsLater(CoefToks(tbl, r, v), rest);
        assert CoefToks(tbl, r, v) + [] == CoefToks(tbl, r, v);
      }
    }
  }

  lemma SignEnds(tbl: nat, r: nat, c: int, br: seq<Token>)
    requires forall i :: 0 <= i < |br| ==> br[i].Raw?
    ensures EndsWithCoef(SignToks(tbl, r, c) + br)
  {
    NoSymbols(br);
    LastOf(SignToks(tbl, r, c), br);
    assert SignToks(tbl, r, c)[..1] == [SignToks(tbl, r, c)[0]];
  }

  lemma {:induction false} RefineEnds(scan: Scan, blk: Block, tbl: nat, k: nat, eob: nat, r: nat, br: seq<Token>)
    requires scan.mode == AcRefine && k <= eob <= scan.Se < 64 && New(scan, blk, eob) && NoneNew(scan, blk, eob + 1)
    requires forall i :: 0 <= i < |br| ==> br[i].Raw?
    ensures EndsWithCoef(RefineToks(tbl, blk, k, scan.Se, scan.Al, eob, r, br).pre)
    decreases scan.Se + 1 - k, r
  {
    hide AbsVal, EndsWithCoef, SignToks;
    var a := AbsVal(blk, k, scan.Al);
    if a == 0 {
      RefineEnds(scan, blk, tbl, k + 1, eob, r + 1, br);
    } else if r > 15 {
      RefineEnds(scan, blk, tbl, k, eob, r - 16, []);
      EndsLater([Sym(tbl, 0xF0)] + br, RefineToks(tbl, blk, k, scan.Se, scan.Al, eob, r - 16, []).pre);
    } else if a > 1 {
      RefineEnds(scan, blk, tbl, k + 1, eob, r, br + [Raw(a % 2, 1)]);
    } else {
      var rest := RefineToks(tbl, blk, k + 1, scan.Se, scan.Al, eob, 0, []).pre;
      SignEnds(tbl, r, blk[k], br);
      if k == eob {
        RefineRest(scan, blk, tbl, k + 1, eob, 0, []);
        assert SignToks(tbl, r, blk[k]) + br + [] == SignToks(tbl, r, blk[k]) + br;
      } else {
        RefineEnds(scan, blk, tbl, k + 1, eob, 0, []);
        EndsLater(SignToks(tbl, r, blk[k]) + br, rest);
      }
    }
  }

  /** Zeros at the end of a band are left to the end-of-band: the last symbol of a block's own tokens is that of a
      coefficient, so sixteen zeros are coded only if a coefficient follows. */
  lemma NoIdleZeros(scan: Scan, blk: Block)
    requires scan.Ok() && scan.mode in {AcFirst, AcRefine} && BlockFits(scan, blk, 0)
    ensures BandOf(scan, blk).pre != [] ==> EndsWithCoef(BandOf(scan, blk).pre)
  {
    hide EndsWithCoef, AcToks, RefineToks, AbsVal;
    if scan.mode == AcFirst {
      FirstEnds(scan.AcTable(), blk, scan.Ss, scan.Se, scan.Al, 0);
    } else {
      var eob := LastNew(blk, scan.Se + 1, scan.Ss, scan.Al);
      if eob == 0 {
        RefineRest(scan, blk, scan.AcTable(), scan.Ss, 0, 0, []);
      } else {
        RefineEnds(scan, blk, scan.AcTable(), scan.Ss, eob, 0, []);
      }
    }
  }

  // ---- Segments ----

  ghost function BandsOf(scan: Scan, mcus: seq<seq<Block>>): (bands: seq<BandToks>)
    requires scan.Ok() && scan.mode in {AcFirst, AcRefine} && Mcus(scan, mcus)
    ensures |bands| == |mcus|
  {
    seq(|mcus|, i requires 0 <= i < |mcus| => BandOf(scan, mcus[i][0]))
  }

  lemma {:induction false} SegmentGroups(scan: Scan, mcus: seq<seq<Block>>) returns (gs: seq<seq<BandToks>>)
    requires scan.Ok() && scan.mode in {AcFirst, AcRefine} && Mcus(scan, mcus)
    ensures Groups(RunTable(scan), SegRun(scan, mcus), BandsOf(scan, mcus), gs)
  {
    hide BandOf, AddBand, RunTable, Groups;
    if mcus == [] {
      gs := [];
      Nothing(RunTable(scan), Start(scan));
      assert BandsOf(scan, mcus) == [];
    } else {
      var n := |mcus| - 1;
      gs := SegmentGroups(scan, mcus[..n]);
      var st, b, bands := SegRun(scan, mcus[..n]), BandOf(scan, mcus[n][0]), BandsOf(scan, mcus[..n]);
      if b.pre == [] { EmptyPrefixRuns(scan, mcus[n][0]); }
      assert BandsOf(scan, mcus) == bands + [b];
      if b.pre == [] && st.n > 0 {
        ExtendGroup(scan, st, bands, gs, b);
        gs := gs[..|gs| - 1] + [gs[|gs| - 1] + [b]];
      } else {
        StartGroup(scan, st, bands, gs, b);
        gs := gs + [[b]];
      }
    }
  }

  lemma Nothing(tbl: nat, st: EncSt)
    requires st.cur == [] && st.n == 0 && st.be == []
    ensures Groups(tbl, st, [], [])
  {}

  /** The tokens of every restart segment are those of groups of blocks that share the longest possible runs. */
  lemma RunsAreMaximal(scan: Scan, mcus: seq<seq<Block>>, k: nat) returns (gs: seq<seq<BandToks>>)
    requires scan.Ok() && scan.mode in {AcFirst, AcRefine} && Mcus(scan, mcus) && k < |Intervals(scan.ri, mcus)|
    ensures |Segments(scan, mcus)| == |Intervals(scan.ri, mcus)| && Mcus(scan, Intervals(scan.ri, mcus)[k])
    ensures Maximal(BandsOf(scan, Intervals(scan.ri, mcus)[k]), gs)
    ensures (forall i :: 0 <= i < |gs| ==> gs[i] != []) && Segments(scan, mcus)[k] == AllToks(scan.AcTable(), gs)
  {
    hide SegRun, Flush, Segments, BandOf, Maximal, AllToks;
    SegmentsAre(scan, mcus);
    var seg := Intervals(scan.ri, mcus)[k];
    gs := SegmentGroups(scan, seg);
    Flushed(scan, SegRun(scan, seg), BandsOf(scan, seg), gs);
    NotEmpty(BandsOf(scan, seg), gs);
  }

  lemma {:induction false} FlatHolds<T>(gs: seq<seq<T>>, i: nat)
    requires i < |gs|
    ensures forall x :: x in gs[i] ==> x in Flat(gs)
    ensures |gs[i]| <= |Flat(gs)| && (i < |gs| - 1 ==> |gs[i]| + |gs[|gs| - 1]| <= |Flat(gs)|)
  {
    var n := |gs| - 1;
    if i < n { FlatHolds(gs[..n], i); }
  }

  lemma {:induction false} NoTails(g: seq<BandToks>)
    requires forall i :: 0 <= i < |g| ==> g[i].tail == []
    ensures Tails(g) == []
  {
    if g != [] { NoTails(g[..|g| - 1]); }
  }

  /** Bands without any tokens form one group, as long as a run can be. */
  lemma OneGroup(bands: seq<BandToks>, gs: seq<seq<BandToks>>)
    requires Maximal(bands, gs) && 0 < |bands| <= 0x7FFF
    requires forall i :: 0 <= i < |bands| ==> bands[i] == BandToks([], [], true)
    ensures gs == [bands]
  {
    hide Tails, Flat;
    NoneFlat<BandToks>();
    var n := |gs| - 1;
    forall i, j | 0 <= i < |gs| && 0 <= j < |gs[i]| ensures gs[i][j] == BandToks([], [], true) {
      FlatHolds(gs, i);
      assert gs[i][j] in gs[i];
    }
    if n > 0 {
      NoTails(gs[0]);
      FlatHolds(gs, 0);
      FirstFull(bands, gs);
      assert false;
    }
    FlatAdd<BandToks>([], gs[0]);
    assert gs == [] + [gs[0]] && [] + gs[0] == gs[0];
  }

  lemma FirstFull(bands: seq<BandToks>, gs: seq<seq<BandToks>>)
    requires Maximal(bands, gs) && |gs| > 1
    ensures gs[0] != [] && gs[1] != [] && (Full(gs[0]) || gs[1][0].pre != [])
  {
    hide Full, Flat;
  }

  lemma NoneFlat<T>()
    ensures Flat<T>([]) == []
  {}

  /** A segment without coefficients to send or to correct is one end-of-band run. */
  lemma EmptyBlocks(scan: Scan, mcus: seq<seq<Block>>, k: nat)
    requires scan.Ok() && scan.mode in {AcFirst, AcRefine} && Mcus(scan, mcus) && k < |Intervals(scan.ri, mcus)|
    requires Mcus(scan, Intervals(scan.ri, mcus)[k]) && 0 < |Intervals(scan.ri, mcus)[k]| <= 0x7FFF
    requires forall i, j :: 0 <= i < |Intervals(scan.ri, mcus)[k]| && scan.Ss <= j <= scan.Se ==>
      Shr(Magnitude(Intervals(scan.ri, mcus)[k][i][0][j]), scan.Al) == 0
    ensures |Segments(scan, mcus)| == |Intervals(scan.ri, mcus)|
    ensures Segments(scan, mcus)[k] == EobToks(scan.AcTable(), |Intervals(scan.ri, mcus)[k]|)
  {
    hide Segments, BandOf, AllToks, Tails, EobToks, Maximal;
    var gs := RunsAreMaximal(scan, mcus, k);
    var seg := Intervals(scan.ri, mcus)[k];
    var bands := BandsOf(scan, seg);
    forall i | 0 <= i < |seg| ensures bands[i] == BandToks([], [], true) {
      ZeroBand(scan, seg[i][0]);
    }
    OneGroup(bands, gs);
    NoTails(bands);
    OneRun(scan.AcTable(), bands);
  }

  lemma {:induction false} OneRun(tbl: nat, g: seq<BandToks>)
    requires g != [] && g[0] == BandToks([], [], true) && Tails(g) == []
    ensures AllToks(tbl, [g]) == EobToks(tbl, |g|)
  {
    hide EobToks, Tails;
    assert [g][..0] == [];
    assert AllToks(tbl, []) == [];
  }

  lemma ZeroBand(scan: Scan, blk: Block)
    requires scan.Ok() && scan.mode in {AcFirst, AcRefine}
    requires forall j :: scan.Ss <= j <= scan.Se ==> Shr(Magnitude(blk[j]), scan.Al) == 0
    ensures BandOf(scan, blk) == BandToks([], [], true)
  {
    hide BandOf;
    var first := BandMeans(scan, blk);
    NoCorrections(blk, first, scan.Se, scan.Al);
  }

  lemma {:induction false} NoCorrections(blk: Block, k: nat, Se: nat, Al: nat)
    requires Se < 64 && forall j :: k <= j <= Se ==> AbsVal(blk, j, Al) == 0
    ensures Corrections(blk, k, Se, Al) == []
    decreases Se + 1 - k
  {
    if k <= Se { NoCorrections(blk, k + 1, Se, Al); }
  }
}
