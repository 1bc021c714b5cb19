/** The MCU decoders decode_mcu (jdhuff.c) and decode_mcu_DC_first, _AC_first, _DC_refine and
    _AC_refine (jdphuff.c) as one machine: a state asks for a Huffman symbol or for raw
    bits, and the answer leads to the next state. The control points are those of the
    C routines. */
module Decoding {
  import opened Bits
  import opened Coefficients
  import opened HuffmanTables
  import opened DerivedTables
  import opened BitReader
  import opened Coding

  datatype Pc =
    | DcTop                        // top of the block loop of decode_mcu, decode_mcu_DC_first
    | DcMag(s: nat)                // reading the s bits of a DC difference
    | AcTop(k: nat)                // top of the coefficient loop
    | AcMag(k: nat, s: nat)        // reading the s bits of coefficient k
    | EobBits(k: nat, r: nat)      // reading the r bits of an end-of-band run
    | Sign(k: nat, r: nat)         // reading the sign of a new coefficient
    | Inner(k: nat, r: nat, coef: int)  // the do-while loop of decode_mcu_AC_refine
    | Place(k: nat, coef: int)     // storing the new coefficient, if it is not 0
    | TailAt(k: nat)               // correcting the rest of the band after end-of-band
    | BitTop                       // top of the block loop of decode_mcu_DC_refine
    | Fin

  datatype St = St(pc: Pc, blkn: nat, eobrun: nat, last: seq<int>, blocks: seq<Block>, newnz: seq<nat>)

  datatype Ask = NeedSym(tbl: nat, dc: bool) | NeedBits(n: nat) | Silent | Halt

  /** Control starts here; an end-of-band run in progress needs no input for AcFirst. */
  function Init(scan: Scan, eobrun: nat, last: seq<int>, blocks: seq<Block>): St {
    match scan.mode
    case Sequential => St(DcTop, 0, eobrun, last, blocks, [])
    case DcFirst => St(DcTop, 0, eobrun, last, blocks, [])
    case DcRefine => St(BitTop, 0, eobrun, last, blocks, [])
    case AcFirst =>
      if eobrun > 0 then St(Fin, 0, eobrun - 1, last, blocks, []) else St(AcTop(scan.Ss), 0, 0, last, blocks, [])
    case AcRefine =>
      if eobrun > 0 then St(TailAt(scan.Ss), 0, eobrun, last, blocks, [])
        else St(AcTop(scan.Ss), 0, 0, last, blocks, [])
  }

  ghost predicate StOk(scan: Scan, st: St) {
    && scan.Ok() && |st.blocks| == |scan.members| && st.blkn <= |st.blocks| && |st.last| == scan.ncomps
    && match st.pc
       case Fin => scan.mode in {AcFirst, AcRefine} || st.eobrun == 0
       case BitTop => scan.mode == DcRefine && st.eobrun == 0
       case DcTop => scan.mode in {Sequential, DcFirst} && st.eobrun == 0
       case DcMag(s) => scan.mode in {Sequential, DcFirst} && 1 <= s <= 15 && st.blkn < |st.blocks| && st.eobrun == 0
       case AcTop(k) => scan.mode in {Sequential, AcFirst, AcRefine} && 1 <= k <= 80 && st.blkn < |st.blocks|
         && st.eobrun == 0
       case AcMag(k, s) => scan.mode in {Sequential, AcFirst} && 1 <= k <= 78 && 1 <= s <= 15 && st.blkn < |st.blocks|
         && st.eobrun == 0
       case EobBits(k, r) => scan.mode in {AcFirst, AcRefine} && 1 <= k <= scan.Se && 1 <= r <= 14
         && st.blkn < |st.blocks|
       case Sign(k, r) => scan.mode == AcRefine && 1 <= k <= scan.Se && r <= 15 && st.blkn < |st.blocks|
         && st.eobrun == 0
       case Inner(k, r, s) => scan.mode == AcRefine && 1 <= k <= scan.Se && r <= 15 && st.blkn < |st.blocks|
         && st.eobrun == 0
       case Place(k, s) => scan.mode == AcRefine && 1 <= k <= scan.Se + 1 && st.blkn < |st.blocks| && st.eobrun == 0
       case TailAt(k) => scan.mode == AcRefine && 1 <= k <= scan.Se + 1 && st.blkn < |st.blocks| && st.eobrun > 0
  }

  /** Sequential and AC-first scans may hold any end-of-band count only where it is used. */
  ghost predicate StartOk(scan: Scan, eobrun: nat, last: seq<int>, blocks: seq<Block>) {
    && scan.Ok() && |blocks| == |scan.members| && |last| == scan.ncomps
    && (scan.mode !in {AcFirst, AcRefine} ==> eobrun == 0)
  }

  lemma InitOk(scan: Scan, eobrun: nat, last: seq<int>, blocks: seq<Block>)
    requires StartOk(scan, eobrun, last, blocks)
    ensures StOk(scan, Init(scan, eobrun, last, blocks))
  {}

  function Cur(st: St): Block
    requires st.blkn < |st.blocks|
  {
    st.blocks[st.blkn]
  }

  /** Storing through jpeg_natural_order, whose extra entries all lead to coefficient 63. */
  function Put(st: St, k: nat, v: int): St
    requires st.blkn < |st.blocks|
  {
    var j := if k < 64 then k else 63;
    st.(blocks := st.blocks[st.blkn := Cur(st)[j := v]])
  }

  ghost function Asks(scan: Scan, st: St): Ask
    requires StOk(scan, st)
  {
    match st.pc
    case Fin => Halt
    case DcTop => if st.blkn < |st.blocks| then NeedSym(scan.dcTbl[scan.members[st.blkn]], true) else Silent
    case DcMag(s) => NeedBits(s)
    case AcTop(k) => if k <= scan.Se then NeedSym(scan.acTbl[scan.members[st.blkn]], false) else Silent
    case AcMag(k, s) => NeedBits(s)
    case EobBits(k, r) => NeedBits(r)
    case Sign(k, r) => NeedBits(1)
    case Inner(k, r, s) => if Cur(st)[k] != 0 then NeedBits(1) else Silent
    case Place(k, s) => Silent
    case TailAt(k) => if k <= scan.Se && Cur(st)[k] != 0 then NeedBits(1) else Silent
    case BitTop => if st.blkn < |st.blocks| then NeedBits(1) else Silent
  }

  ghost predicate AnswerOk(a: Ask, v: nat) {
    match a
    case NeedSym(_, dc) => v < 256 && (dc ==> v <= 15)
    case NeedBits(n) => v < Pow2(n)
    case Silent => v == 0
    case Halt => false
  }

  /** The DC coefficient of the current block is its prediction plus diff. */
  ghost function SetDc(scan: Scan, st: St, diff: int): St
    requires StOk(scan, st) && st.blkn < |st.blocks|
  {
    var ci := scan.members[st.blkn];
    var s := st.last[ci] + diff;
    var st1 := Put(st, 0, Short(Scale(s, scan.Al))).(last := st.last[ci := s]);
    if scan.mode == Sequential then st1.(pc := AcTop(1)) else st1.(pc := DcTop, blkn := st.blkn + 1)
  }

  /** One more correction bit for the nonzero coefficient k. */
  ghost function Corrected(scan: Scan, st: St, k: nat, v: nat): St
    requires st.blkn < |st.blocks| && k < 64
  {
    if v == 1 then Put(st, k, Correct(Cur(st)[k], scan.Al)) else st
  }

  ghost function Feed(scan: Scan, st: St, v: nat): St
    requires StOk(scan, st) && AnswerOk(Asks(scan, st), v)
  {
    match st.pc
    case DcTop =>
      if st.blkn == |st.blocks| then st.(pc := Fin)
      else if v == 0 then SetDc(scan, st, 0) else st.(pc := DcMag(v))
    case DcMag(s) => SetDc(scan, st, Extend(v, s))
    case AcTop(k) =>
      if k > scan.Se then (if scan.mode == Sequential then st.(pc := DcTop, blkn := st.blkn + 1) else st.(pc := Fin))
      else
        var r, s := v / 16, v % 16;
        if scan.mode == AcRefine then
          if s != 0 then st.(pc := Sign(k, r))
          else if r == 15 then st.(pc := Inner(k, 15, 0))
          else if r == 0 then st.(pc := TailAt(k), eobrun := 1)
          else st.(pc := EobBits(k, r))
        else
          if s != 0 then st.(pc := AcMag(k + r, s))
          else if r == 15 then st.(pc := AcTop(k + 16))
          else if scan.mode == Sequential then st.(pc := DcTop, blkn := st.blkn + 1)
          else if r == 0 then st.(pc := Fin, eobrun := 0)
          else st.(pc := EobBits(k, r))
    case AcMag(k, s) => Put(st, k, Short(Scale(Extend(v, s), scan.Al))).(pc := AcTop(k + 1))
    case EobBits(k, r) =>
      if scan.mode == AcFirst then st.(pc := Fin, eobrun := Pow2(r) + v - 1)
      else st.(pc := TailAt(k), eobrun := Pow2(r) + v)
    case Sign(k, r) => st.(pc := Inner(k, r, if v == 1 then Pow2(scan.Al) else 0 - Pow2(scan.Al)))
    case Inner(k, r, s) =>
      if Cur(st)[k] == 0 && r == 0 then st.(pc := Place(k, s))
      else
        var st1 := if Cur(st)[k] != 0 then Corrected(scan, st, k, v) else st;
        var r1 := if Cur(st)[k] != 0 then r else r - 1;
        st1.(pc := if k < scan.Se then Inner(k + 1, r1, s) else Place(k + 1, s))
    case Place(k, s) =>
      if s != 0 then Put(st, k, Short(s)).(pc := AcTop(k + 1), newnz := st.newnz + [if k < 64 then k else 63])
      else st.(pc := AcTop(k + 1))
    case TailAt(k) =>
      if k > scan.Se then st.(pc := Fin, eobrun := st.eobrun - 1)
      else (if Cur(st)[k] != 0 then Corrected(scan, st, k, v) else st).(pc := TailAt(k + 1))
    case BitTop =>
      if st.blkn == |st.blocks| then st.(pc := Fin)
      else (if v == 1 then Put(st, 0, SetBit(Cur(st)[0], scan.Al)) else st).(blkn := st.blkn + 1)
  }

  /** Every step makes progress, also on garbage. */
  ghost function Rank(scan: Scan, st: St): (n: nat)
    requires StOk(scan, st)
  {
    var base := 500 * (|st.blocks| - st.blkn);
    match st.pc
    case Fin => 0
    case DcTop => base + 1
    case BitTop => base + 1
    case DcMag(s) => base
    case AcTop(k) => base - 500 + 4 * (100 - k) + 5
    case AcMag(k, s) => base - 500 + 4 * (100 - k) + 4
    case EobBits(k, r) => base - 500 + 4 * (100 - k) + 4
    case Sign(k, r) => base - 500 + 4 * (100 - k) + 4
    case Inner(k, r, s) => base - 500 + 4 * (100 - k) + 3
    case Place(k, s) => base - 500 + 4 * (100 - k) + 2
    case TailAt(k) => base - 500 + 4 * (100 - k) + 3
  }

  lemma FeedOk(scan: Scan, st: St, v: nat)
    requires StOk(scan, st) && AnswerOk(Asks(scan, st), v)
    ensures Progress(scan, st, Feed(scan, st, v))
  {
    hide Feed, Rank, Progress;
    if st.pc.AcTop? {
      FeedOkAc(scan, st, v);
    } else if st.pc.Inner? || st.pc.Place? || st.pc.TailAt? {
      FeedOkRefine(scan, st, v);
    } else if st.pc.AcMag? || st.pc.EobBits? || st.pc.Sign? {
      FeedOkBits(scan, st, v);
    } else {
      FeedOkDc(scan, st, v);
    }
  }

  ghost predicate Progress(scan: Scan, st: St, st': St)
    requires StOk(scan, st)
  {
    StOk(scan, st') && Rank(scan, st') < Rank(scan, st) && |st'.blocks| == |st.blocks|
  }

  lemma FeedOkDc(scan: Scan, st: St, v: nat)
    requires StOk(scan, st) && AnswerOk(Asks(scan, st), v)
    requires st.pc.DcTop? || st.pc.DcMag? || st.pc.BitTop? || st.pc.Fin?
    ensures Progress(scan, st, Feed(scan, st, v))
  {
    hide Scale, Short, Extend, SetBit, Pow2;
  }

  lemma FeedOkAc(scan: Scan, st: St, v: nat)
    requires StOk(scan, st) && AnswerOk(Asks(scan, st), v) && st.pc.AcTop?
    ensures Progress(scan, st, Feed(scan, st, v))
  {
    hide Scale, Short, Extend, SetBit, Pow2;
  }

  lemma FeedOkBits(scan: Scan, st: St, v: nat)
    requires StOk(scan, st) && AnswerOk(Asks(scan, st), v) && (st.pc.AcMag? || st.pc.EobBits? || st.pc.Sign?)
    ensures Progress(scan, st, Feed(scan, st, v))
  {
    hide Scale, Short, Extend, SetBit, Pow2;
  }

  lemma FeedOkRefine(scan: Scan, st: St, v: nat)
    requires StOk(scan, st) && AnswerOk(Asks(scan, st), v) && (st.pc.Inner? || st.pc.Place? || st.pc.TailAt?)
    ensures Progress(scan, st, Feed(scan, st, v))
  {
    hide Scale, Short, Extend, Correct, Pow2;
  }

  // ---- Running the machine on tokens ----

  datatype TokRun = Ends(st: St, rest: seq<Token>) | Stuck

  /** Does token t answer the question a? */
  ghost predicate Answers(a: Ask, t: Token) {
    match a
    case NeedSym(tbl, _) => t.Sym? && t.tbl == tbl && AnswerOk(a, t.s)
    case NeedBits(n) => t.Raw? && t.n == n && AnswerOk(a, t.v)
    case _ => false
  }

  function Content(t: Token): nat {
    if t.Sym? then t.s else t.v
  }

  ghost function RunTok(scan: Scan, st: St, toks: seq<Token>): (run: TokRun)
    requires StOk(scan, st)
    ensures run.Ends? ==> StOk(scan, run.st) && run.st.pc == Fin
    decreases Rank(scan, st)
  {
    var a := Asks(scan, st);
    if a.Halt? then Ends(st, toks)
    else if a.Silent? then
      FeedOk(scan, st, 0);
      RunTok(scan, Feed(scan, st, 0), toks)
    else if toks != [] && Answers(a, toks[0]) then
      FeedOk(scan, st, Content(toks[0]));
      RunTok(scan, Feed(scan, st, Content(toks[0])), toks[1..])
    else Stuck
  }

  // ---- Running the machine on the reader ----

  /** One table slot: the definition and both derived forms. */
  datatype Tab = Tab(h: HuffTbl, c: CTbl, d: DTbl)

  /** Every table of the scan is present and usable by the decoder. */
  ghost predicate TabsOk(scan: Scan, tabs: seq<Tab>)
    requires scan.Ok()
  {
    && (scan.UsesDc() ==> forall i :: 0 <= i < scan.ncomps ==>
       Present(tabs, scan.dcTbl[i]) && DcTable(tabs[scan.dcTbl[i]].h))
    && (scan.UsesAc() ==> forall i :: 0 <= i < scan.ncomps ==> Present(tabs, scan.acTbl[i]))
  }

  ghost predicate Present(tabs: seq<Tab>, t: nat) {
    t < |tabs| && TableOk(tabs[t].h, tabs[t].d)
  }

  /** A DC table lists only symbols up to 15. */
  ghost predicate DcTable(h: HuffTbl) {
    h.WellTyped() && Count(h.bits, 16) <= 256 && forall p :: 0 <= p < Count(h.bits, 16) ==> h.huffval[p] <= 15
  }

  datatype RdRun = Done(st: St, rd: Rd) | Susp(st: St, rd: Rd)

  ghost function Fetch(data: seq<nat>, lim: nat, rd: Rd, tabs: seq<Tab>, a: Ask): Fetched
    requires lim <= |data| && (a.NeedSym? || a.NeedBits?)
    requires a.NeedSym? ==> Present(tabs, a.tbl)
    requires a.NeedBits? ==> a.n <= 16
  {
    if a.NeedSym? then GetSym(data, lim, rd, tabs[a.tbl].h, tabs[a.tbl].d) else GetBits(data, lim, rd, a.n)
  }

  lemma AskOk(scan: Scan, st: St, tabs: seq<Tab>)
    requires StOk(scan, st) && TabsOk(scan, tabs)
    ensures var a := Asks(scan, st);
      && (a.NeedSym? ==> Present(tabs, a.tbl) && (a.dc ==> DcTable(tabs[a.tbl].h)))
      && (a.NeedBits? ==> a.n <= 16)
  {}

  /** Whatever the input, a fetch answers the question asked. */
  lemma FetchOk(data: seq<nat>, lim: nat, rd: Rd, tabs: seq<Tab>, a: Ask)
    requires lim <= |data| && Bytes(data) && (a.NeedSym? || a.NeedBits?)
    requires a.NeedSym? ==> Present(tabs, a.tbl) && (a.dc ==> DcTable(tabs[a.tbl].h))
    requires a.NeedBits? ==> a.n <= 16
    ensures var f := Fetch(data, lim, rd, tabs, a); f.Got? ==> AnswerOk(a, f.v)
  {
    if a.NeedSym? {
      SymInTable(data, lim, rd, tabs[a.tbl].h, tabs[a.tbl].d);
    }
  }

  /** HUFF_DECODE returns a listed symbol, or 0 for an invalid code. */
  lemma SymInTable(data: seq<nat>, lim: nat, rd: Rd, h: HuffTbl, d: DTbl)
    requires lim <= |data| && TableOk(h, d)
    ensures var f := GetSym(data, lim, rd, h, d);
      f.Got? ==> f.v == 0 || exists p :: 0 <= p < Count(h.bits, 16) && f.v == h.huffval[p]
  {
    hide Fill, Legal, SlowSym, BitsOf, Val;
    var r := if |rd.buf| < 8 then Fill(data, lim, rd, 0) else Some(rd);
    if r.Some? {
      if |r.value.buf| < 8 {
        SlowSymInTable(data, lim, r.value, h, d, 1);
      } else if d.lookNbits[Val8(r.value.buf)] == 0 {
        SlowSymInTable(data, lim, r.value, h, d, 9);
      } else {
        LookBits(h, d, Val8(r.value.buf));
        CountMono(h.bits, d.lookNbits[Val8(r.value.buf)], 16);
      }
    }
  }

  lemma SlowSymInTable(data: seq<nat>, lim: nat, rd: Rd, h: HuffTbl, d: DTbl, l: nat)
    requires lim <= |data| && TableOk(h, d) && (l == 1 || l == 9)
    requires l == 9 ==> |rd.buf| >= 8 && d.lookNbits[Val8(rd.buf)] == 0
    ensures var f := SlowSym(data, lim, rd, h, d, l);
      f.Got? ==> f.v == 0 || exists p :: 0 <= p < Count(h.bits, 16) && f.v == h.huffval[p]
  {
    hide GetBits, Val8, Legal, Decodes, LongCode, Next, Pow2, Count;
    match GetBits(data, lim, rd, l)
    case Starved =>
    case Got(code, rd') =>
      SlowStart(data, lim, rd, h, d, l);
      LongCodeInTable(data, lim, rd', h, d, code, l);
  }

  lemma {:induction false} LongCodeInTable(data: seq<nat>, lim: nat, rd: Rd, h: HuffTbl, d: DTbl, code: nat, l: nat)
    requires lim <= |data| && PartialCode(h, d, code, l)
    ensures var f := LongCode(data, lim, rd, h, d, code, l);
      f.Got? ==> f.v == 0 || exists p :: 0 <= p < Count(h.bits, 16) && f.v == h.huffval[p]
    decreases 17 - l
  {
    hide LongCode, GetBits, Legal, Next, Pow2, Count;
    if code > d.maxcode[l] {
      LongStep(data, lim, rd, h, d, code, l);
      match GetBits(data, lim, rd, 1)
      case Starved =>
      case Got(b, rd') => LongCodeInTable(data, lim, rd', h, d, 2 * code + b, l + 1);
    } else {
      LongEnd(data, lim, rd, h, d, code, l);
      if l <= 16 { ListedAt(h, d, code, l); }
    }
  }

  lemma ListedAt(h: HuffTbl, d: DTbl, code: nat, l: nat)
    requires PartialCode(h, d, code, l) && l <= 16 && code <= d.maxcode[l]
    ensures 0 <= code + d.valoffset[l] < Count(h.bits, 16) <= 256
    ensures d.huffval[code + d.valoffset[l]] == h.huffval[code + d.valoffset[l]]
  {
    IndexInTable(h, d, code, l);
  }

  ghost function RunRd(scan: Scan, data: seq<nat>, lim: nat, tabs: seq<Tab>, st: St, rd: Rd): RdRun
    requires StOk(scan, st) && TabsOk(scan, tabs) && lim <= |data| && Bytes(data)
    decreases Rank(scan, st)
  {
    var a := Asks(scan, st);
    if a.Halt? then Done(st, rd)
    else if a.Silent? then
      FeedOk(scan, st, 0);
      RunRd(scan, data, lim, tabs, Feed(scan, st, 0), rd)
    else
      AskOk(scan, st, tabs);
      FetchOk(data, lim, rd, tabs, a);
      match Fetch(data, lim, rd, tabs, a)
      case Starved => Susp(st, rd)
      case Got(v, rd') =>
        FeedOk(scan, st, v);
        RunRd(scan, data, lim, tabs, Feed(scan, st, v), rd')
  }
}
