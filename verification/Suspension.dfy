/** Suspension is invisible: however the input arrives in pieces, an MCU that was suspended and
    retried ends exactly as if all its input had been there from the start. */
module Suspension {
  import opened Bits
  import opened Coefficients
  import opened HuffmanTables
  import opened DerivedTables
  import opened BitReader
  import opened Coding
  import opened Decoding
  import opened McuDecoding
  import opened TokenBits

  // ---- More input does not change a fetch that succeeded ----

  lemma {:induction false} SkipMore(data: seq<nat>, lim: nat, lim2: nat, q: nat)
    requires lim <= lim2 <= |data| && SkipFF(data, lim, q) < lim
    ensures SkipFF(data, lim2, q) == SkipFF(data, lim, q)
    decreases lim - q
  {
    if q < lim && data[q] == 0xFF { SkipMore(data, lim, lim2, q + 1); }
  }

  lemma {:induction false} FillStable(data: seq<nat>, lim: nat, lim2: nat, rd: Rd, n: nat)
    requires lim <= lim2 <= |data| && n <= MIN_GET_BITS && FillMore(data, lim, rd, n).Some?
    ensures FillMore(data, lim2, rd, n) == FillMore(data, lim, rd, n)
    decreases lim - rd.pos
  {
    hide BitsOf, SkipFF;
    if |rd.buf| < MIN_GET_BITS {
      if data[rd.pos] != 0xFF {
        FillStable(data, lim, lim2, rd.(buf := rd.buf + BitsOf(data[rd.pos], 8), pos := rd.pos + 1), n);
      } else {
        var q := SkipFF(data, lim, rd.pos + 1);
        SkipMore(data, lim, lim2, rd.pos + 1);
        if data[q] == 0 {
          FillStable(data, lim, lim2, rd.(buf := rd.buf + BitsOf(0xFF, 8), pos := q + 1), n);
        }
      }
    }
  }

  lemma BitsStable(data: seq<nat>, lim: nat, lim2: nat, rd: Rd, n: nat)
    requires lim <= lim2 <= |data| && n <= MIN_GET_BITS && GetBits(data, lim, rd, n).Got?
    ensures GetBits(data, lim2, rd, n) == GetBits(data, lim, rd, n)
  {
    hide FillMore;
    if |rd.buf| < n && rd.marker == 0 { FillStable(data, lim, lim2, rd, n); }
  }

  lemma {:induction false} LongStable(data: seq<nat>, lim: nat, lim2: nat, rd: Rd, h: HuffTbl, d: DTbl, code: nat,
                                      l: nat)
    requires lim <= lim2 <= |data| && PartialCode(h, d, code, l) && LongCode(data, lim, rd, h, d, code, l).Got?
    ensures LongCode(data, lim2, rd, h, d, code, l) == LongCode(data, lim, rd, h, d, code, l)
    decreases 17 - l
  {
    hide LongCode, GetBits, Legal, LookFilled, LengthEntry, Count, Next, Pow2;
    if code > d.maxcode[l] {
      LongStep(data, lim, rd, h, d, code, l);
      LongStep(data, lim2, rd, h, d, code, l);
      BitsStable(data, lim, lim2, rd, 1);
      var Got(b, rd') := GetBits(data, lim, rd, 1);
      LongStable(data, lim, lim2, rd', h, d, 2 * code + b, l + 1);
    } else {
      LongEnd(data, lim, rd, h, d, code, l);
      LongEnd(data, lim2, rd, h, d, code, l);
    }
  }

  lemma SlowStable(data: seq<nat>, lim: nat, lim2: nat, rd: Rd, h: HuffTbl, d: DTbl, l: nat)
    requires lim <= lim2 <= |data| && TableOk(h, d) && (l == 1 || l == 9)
    requires l == 9 ==> |rd.buf| >= 8 && d.lookNbits[Val8(rd.buf)] == 0
    requires SlowSym(data, lim, rd, h, d, l).Got?
    ensures SlowSym(data, lim2, rd, h, d, l) == SlowSym(data, lim, rd, h, d, l)
  {
    hide LongCode, GetBits, Next, Pow2, Legal, Decodes, Val8;
    BitsStable(data, lim, lim2, rd, l);
    SlowStart(data, lim, rd, h, d, l);
    var Got(code, rd') := GetBits(data, lim, rd, l);
    LongStable(data, lim, lim2, rd', h, d, code, l);
  }

  lemma SymStable(data: seq<nat>, lim: nat, lim2: nat, rd: Rd, h: HuffTbl, d: DTbl)
    requires lim <= lim2 <= |data| && TableOk(h, d) && GetSym(data, lim, rd, h, d).Got?
    ensures GetSym(data, lim2, rd, h, d) == GetSym(data, lim, rd, h, d)
  {
    hide SlowSym, FillMore, Legal, LookEntry, Val;
    if |rd.buf| < 8 && rd.marker == 0 { FillStable(data, lim, lim2, rd, 0); }
    var r := if |rd.buf| < 8 then Fill(data, lim, rd, 0).value else rd;
    if |r.buf| < 8 {
      SlowStable(data, lim, lim2, r, h, d, 1);
    } else if d.lookNbits[Val8(r.buf)] == 0 {
      SlowStable(data, lim, lim2, r, h, d, 9);
    }
  }

  lemma FetchStable(data: seq<nat>, lim: nat, lim2: nat, rd: Rd, tabs: seq<Tab>, a: Ask)
    requires lim <= lim2 <= |data| && (a.NeedSym? || a.NeedBits?) && AskFits(tabs, a)
    requires Fetch(data, lim, rd, tabs, a).Got?
    ensures Fetch(data, lim2, rd, tabs, a) == Fetch(data, lim, rd, tabs, a)
  {
    hide GetSym, GetBits;
    if a.NeedSym? {
      PresentOk(tabs, a.tbl);
      SymStable(data, lim, lim2, rd, tabs[a.tbl].h, tabs[a.tbl].d);
    } else {
      BitsStable(data, lim, lim2, rd, a.n);
    }
  }

  // ---- A fetch starves only before a marker has been seen ----

  lemma {:induction false} FillFlags(data: seq<nat>, lim: nat, rd: Rd, n: nat)
    requires lim <= |data| && n <= MIN_GET_BITS && rd.marker == 0
    requires FillMore(data, lim, rd, n).Some? && FillMore(data, lim, rd, n).value.marker == 0
    ensures FillMore(data, lim, rd, n).value.dry == rd.dry
    decreases lim - rd.pos
  {
    hide BitsOf, SkipFF;
    if |rd.buf| < MIN_GET_BITS {
      if data[rd.pos] != 0xFF {
        FillFlags(data, lim, rd.(buf := rd.buf + BitsOf(data[rd.pos], 8), pos := rd.pos + 1), n);
      } else {
        var q := SkipFF(data, lim, rd.pos + 1);
        if data[q] == 0 {
          FillFlags(data, lim, rd.(buf := rd.buf + BitsOf(0xFF, 8), pos := q + 1), n);
        }
      }
    }
  }

  /** A marker once seen stays, and until then the flag for missing data is untouched. */
  ghost predicate Flags(rd: Rd, rd': Rd) {
    (rd.marker != 0 ==> rd'.marker == rd.marker) && (rd'.marker == 0 ==> rd'.dry == rd.dry)
  }

  lemma BitsFlags(data: seq<nat>, lim: nat, rd: Rd, n: nat)
    requires lim <= |data| && n <= MIN_GET_BITS
    ensures var f := GetBits(data, lim, rd, n);
      if f.Got? then Flags(rd, f.rd) else rd.marker == 0
  {
    hide FillMore;
    if |rd.buf| < n && rd.marker == 0 {
      var r := FillMore(data, lim, rd, n);
      if r.Some? && r.value.marker == 0 { FillFlags(data, lim, rd, n); }
    }
  }

  lemma {:induction false} LongFlags(data: seq<nat>, lim: nat, rd: Rd, h: HuffTbl, d: DTbl, code: nat, l: nat)
    requires lim <= |data| && PartialCode(h, d, code, l)
    ensures var f := LongCode(data, lim, rd, h, d, code, l);
      if f.Got? then Flags(rd, f.rd) else rd.marker == 0
    decreases 17 - l
  {
    hide LongCode, GetBits, Legal, LookFilled, LengthEntry, Count, Next, Pow2;
    if code > d.maxcode[l] {
      LongStep(data, lim, rd, h, d, code, l);
      BitsFlags(data, lim, rd, 1);
      match GetBits(data, lim, rd, 1)
      case Starved =>
      case Got(b, rd') => LongFlags(data, lim, rd', h, d, 2 * code + b, l + 1);
    } else {
      LongEnd(data, lim, rd, h, d, code, l);
    }
  }

  lemma SlowFlags(data: seq<nat>, lim: nat, rd: Rd, h: HuffTbl, d: DTbl, l: nat)
    requires lim <= |data| && TableOk(h, d) && (l == 1 || l == 9)
    requires l == 9 ==> |rd.buf| >= 8 && d.lookNbits[Val8(rd.buf)] == 0
    ensures var f := SlowSym(data, lim, rd, h, d, l);
      if f.Got? then Flags(rd, f.rd) else rd.marker == 0
  {
    hide LongCode, GetBits, Next, Pow2, Legal, Decodes, Val8;
    BitsFlags(data, lim, rd, l);
    match GetBits(data, lim, rd, l)
    case Starved =>
    case Got(code, rd') =>
      SlowStart(data, lim, rd, h, d, l);
      LongFlags(data, lim, rd', h, d, code, l);
  }

  lemma SymFlags(data: seq<nat>, lim: nat, rd: Rd, h: HuffTbl, d: DTbl)
    requires lim <= |data| && TableOk(h, d)
    ensures var f := GetSym(data, lim, rd, h, d);
      if f.Got? then Flags(rd, f.rd) else rd.marker == 0
  {
    hide SlowSym, FillMore, Legal, LookEntry, Val;
    var r := if |rd.buf| < 8 then Fill(data, lim, rd, 0) else Some(rd);
    if |rd.buf| < 8 && rd.marker == 0 && r.Some? && r.value.marker == 0 { FillFlags(data, lim, rd, 0); }
    if r.Some? {
      if |r.value.buf| < 8 {
        SlowFlags(data, lim, r.value, h, d, 1);
      } else if d.lookNbits[Val8(r.value.buf)] == 0 {
        SlowFlags(data, lim, r.value, h, d, 9);
      }
    }
  }

  lemma FetchFlags(data: seq<nat>, lim: nat, rd: Rd, tabs: seq<Tab>, a: Ask)
    requires lim <= |data| && (a.NeedSym? || a.NeedBits?) && AskFits(tabs, a)
    ensures var f := Fetch(data, lim, rd, tabs, a);
      if f.Got? then Flags(rd, f.rd) else rd.marker == 0
  {
    hide GetSym, GetBits;
    if a.NeedSym? {
      PresentOk(tabs, a.tbl);
      SymFlags(data, lim, rd, tabs[a.tbl].h, tabs[a.tbl].d);
    } else {
      BitsFlags(data, lim, rd, a.n);
    }
  }

  /** A run that suspends has not met a marker, so it may leave the permanent flags alone. */
  lemma {:induction false} SuspFlags(scan: Scan, data: seq<nat>, lim: nat, tabs: seq<Tab>, st: St, rd: Rd)
    requires StOk(scan, st) && TabsOk(scan, tabs) && lim <= |data| && Bytes(data)
    ensures var run := RunRd(scan, data, lim, tabs, st, rd);
      if run.Susp? then run.rd.marker == rd.marker == 0 && run.rd.dry == rd.dry else Flags(rd, run.rd)
    decreases Rank(scan, st)
  {
    hide Asks, Feed, StOk, Rank, TabsOk, Bytes, Fetch;
    var a := Asks(scan, st);
    if a.Halt? {
    } else if a.Silent? {
      FeedOk(scan, st, 0);
      SuspFlags(scan, data, lim, tabs, Feed(scan, st, 0), rd);
    } else {
      AskOk(scan, st, tabs);
      FetchOk(data, lim, rd, tabs, a);
      FetchFlags(data, lim, rd, tabs, a);
      match Fetch(data, lim, rd, tabs, a)
      case Starved =>
      case Got(v, rd') =>
        FeedOk(scan, st, v);
        SuspFlags(scan, data, lim, tabs, Feed(scan, st, v), rd');
    }
  }

  // ---- More input does not change a run, it only continues it ----

  /** One step of a run that asked for input and got it. */
  lemma StepOn(scan: Scan, data: seq<nat>, lim: nat, tabs: seq<Tab>, st: St, rd: Rd) returns (v: nat, rd': Rd)
    requires StOk(scan, st) && TabsOk(scan, tabs) && lim <= |data| && Bytes(data)
    requires var a := Asks(scan, st); (a.NeedSym? || a.NeedBits?)
    requires RunRd(scan, data, lim, tabs, st, rd) != Susp(st, rd)
    ensures var a := Asks(scan, st);
      && AskFits(tabs, a) && AnswerOk(a, v) && Fetch(data, lim, rd, tabs, a) == Got(v, rd')
      && StOk(scan, Feed(scan, st, v)) && Rank(scan, Feed(scan, st, v)) < Rank(scan, st)
      && RunRd(scan, data, lim, tabs, st, rd) == RunRd(scan, data, lim, tabs, Feed(scan, st, v), rd')
  {
    hide Asks, Feed, StOk, Rank, TabsOk, Bytes, Fetch, AnswerOk;
    var a := Asks(scan, st);
    AskOk(scan, st, tabs);
    FetchOk(data, lim, rd, tabs, a);
    match Fetch(data, lim, rd, tabs, a)
    case Starved => assert false;
    case Got(w, rd1) =>
      v, rd' := w, rd1;
      FeedOk(scan, st, w);
  }

  lemma {:induction false} Starving(scan: Scan, data: seq<nat>, lim: nat, tabs: seq<Tab>, st: St, rd: Rd)
    requires StOk(scan, st) && TabsOk(scan, tabs) && lim <= |data| && Bytes(data)
    requires var a := Asks(scan, st); (a.NeedSym? || a.NeedBits?)
    ensures var a := Asks(scan, st); AskFits(tabs, a) && (Fetch(data, lim, rd, tabs, a).Starved? ==>
      RunRd(scan, data, lim, tabs, st, rd) == Susp(st, rd))
  {
    hide Asks, Feed, StOk, Rank, TabsOk, Bytes, Fetch, AnswerOk;
    AskOk(scan, st, tabs);
    FetchOk(data, lim, rd, tabs, Asks(scan, st));
  }

  lemma {:induction false} RunStable(scan: Scan, data: seq<nat>, lim: nat, lim2: nat, tabs: seq<Tab>, st: St, rd: Rd)
    requires StOk(scan, st) && TabsOk(scan, tabs) && lim <= lim2 <= |data| && Bytes(data)
    ensures var run := RunRd(scan, data, lim, tabs, st, rd);
      && StOk(scan, run.st)
      && RunRd(scan, data, lim2, tabs, st, rd) == if run.Done? then run
         else RunRd(scan, data, lim2, tabs, run.st, run.rd)
    decreases Rank(scan, st)
  {
    hide Asks, Feed, StOk, Rank, TabsOk, Bytes, Fetch, RunRd;
    var a := Asks(scan, st);
    if a.Halt? {
      RunHalts(scan, data, lim, tabs, st, rd);
      RunHalts(scan, data, lim2, tabs, st, rd);
    } else if a.Silent? {
      RunSilent(scan, data, lim, tabs, st, rd);
      RunSilent(scan, data, lim2, tabs, st, rd);
      RunStable(scan, data, lim, lim2, tabs, Feed(scan, st, 0), rd);
    } else if RunRd(scan, data, lim, tabs, st, rd) != Susp(st, rd) {
      var v, rd' := StepOn(scan, data, lim, tabs, st, rd);
      FetchStable(data, lim, lim2, rd, tabs, a);
      RunFetch(scan, data, lim2, tabs, st, rd, v, rd');
      RunStable(scan, data, lim, lim2, tabs, Feed(scan, st, v), rd');
    }
  }

  // ---- Retrying: all scans but AC refinement ----

  /** Every coefficient of B is that of st or that of U. */
  ghost predicate Between(bs: seq<Block>, B: seq<Block>, U: seq<Block>) {
    |B| == |bs| == |U| && forall i, j :: 0 <= i < |bs| && 0 <= j < 64 ==> B[i][j] == bs[i][j] || B[i][j] == U[i][j]
  }

  /** The machine never goes back to an earlier block. */
  ghost predicate Settled(st: St, U: seq<Block>) {
    |U| == |st.blocks| && forall i :: 0 <= i < st.blkn && i < |U| ==> U[i] == st.blocks[i]
  }

  lemma FeedSettled(scan: Scan, st: St, v: nat, U: seq<Block>)
    requires StOk(scan, st) && AnswerOk(Asks(scan, st), v) && Settled(Feed(scan, st, v), U)
    ensures Settled(st, U)
  {
    hide Scale, Short, Extend, SetBit, Pow2, Correct;
    FeedOk(scan, st, v);
    hide AnswerOk;
  }

  lemma {:induction false} RunSettled(scan: Scan, data: seq<nat>, lim: nat, tabs: seq<Tab>, st: St, rd: Rd)
    requires StOk(scan, st) && TabsOk(scan, tabs) && lim <= |data| && Bytes(data)
    ensures Settled(st, RunRd(scan, data, lim, tabs, st, rd).st.blocks)
    decreases Rank(scan, st)
  {
    hide Asks, Feed, StOk, Rank, TabsOk, Bytes, Fetch, RunRd;
    var a := Asks(scan, st);
    if a.Halt? {
      RunHalts(scan, data, lim, tabs, st, rd);
    } else if a.Silent? {
      RunSilent(scan, data, lim, tabs, st, rd);
      RunSettled(scan, data, lim, tabs, Feed(scan, st, 0), rd);
      FeedSettled(scan, st, 0, RunRd(scan, data, lim, tabs, st, rd).st.blocks);
    } else if RunRd(scan, data, lim, tabs, st, rd) != Susp(st, rd) {
      var v, rd' := StepOn(scan, data, lim, tabs, st, rd);
      RunSettled(scan, data, lim, tabs, Feed(scan, st, v), rd');
      FeedSettled(scan, st, v, RunRd(scan, data, lim, tabs, st, rd).st.blocks);
    }
  }

  /** Setting a bit twice is setting it once. */
  lemma {:induction false} SetBitTwice(x: int, n: nat)
    ensures SetBit(SetBit(x, n), n) == SetBit(x, n)
    decreases n
  {
    if !Bit(x, n) { BitAdded(x, n); }
  }

  lemma {:induction false} BitAdded(x: int, n: nat)
    requires !Bit(x, n)
    ensures Bit(x + Pow2(n), n) && Bit(x - Pow2(n), n)
    decreases n
  {
    if n > 0 {
      BitAdded(x / 2, n - 1);
      assert (x + Pow2(n)) / 2 == x / 2 + Pow2(n - 1);
      assert (x - Pow2(n)) / 2 == x / 2 - Pow2(n - 1);
    }
  }

  /** A block of B after the same value was stored in both. */
  lemma PutBetween(st: St, B: seq<Block>, U: seq<Block>, k: nat, v: int)
    requires Between(st.blocks, B, U) && st.blkn < |st.blocks|
    ensures Between(Put(st, k, v).blocks, Put(st.(blocks := B), k, v).blocks, U)
  {}

  /** Machines that differ in already decoded coefficients take the same step. */
  lemma FeedBetween(scan: Scan, st: St, B: seq<Block>, U: seq<Block>, v: nat)
    requires StOk(scan, st) && AnswerOk(Asks(scan, st), v) && scan.mode != AcRefine
    requires Between(st.blocks, B, U) && Settled(Feed(scan, st, v), U)
    ensures var st2 := st.(blocks := B);
      && StOk(scan, st2) && Asks(scan, st2) == Asks(scan, st)
      && Between(Feed(scan, st, v).blocks, Feed(scan, st2, v).blocks, U)
      && Feed(scan, st2, v) == Feed(scan, st, v).(blocks := Feed(scan, st2, v).blocks)
  {
    if scan.mode == DcRefine {
      FeedBetweenBit(scan, st, B, U, v);
    } else {
      FeedBetweenFirst(scan, st, B, U, v);
    }
  }

  lemma FeedBetweenFirst(scan: Scan, st: St, B: seq<Block>, U: seq<Block>, v: nat)
    requires StOk(scan, st) && AnswerOk(Asks(scan, st), v) && scan.mode in {Sequential, DcFirst, AcFirst}
    requires Between(st.blocks, B, U)
    ensures var st2 := st.(blocks := B);
      && StOk(scan, st2) && Asks(scan, st2) == Asks(scan, st)
      && Between(Feed(scan, st, v).blocks, Feed(scan, st2, v).blocks, U)
      && Feed(scan, st2, v) == Feed(scan, st, v).(blocks := Feed(scan, st2, v).blocks)
  {
    hide Scale, Short, Extend, Pow2, Put, Between;
    BetweenShape(st.blocks, B, U);
    match st.pc
    case DcMag(s) =>
      PutBetween(st, B, U, 0, Short(Scale(st.last[scan.members[st.blkn]] + Extend(v, s), scan.Al)));
      PutFrame(st, 0, Short(Scale(st.last[scan.members[st.blkn]] + Extend(v, s), scan.Al)));
      PutFrame(st.(blocks := B), 0, Short(Scale(st.last[scan.members[st.blkn]] + Extend(v, s), scan.Al)));
    case DcTop =>
      if st.blkn < |st.blocks| {
        PutBetween(st, B, U, 0, Short(Scale(st.last[scan.members[st.blkn]] + 0, scan.Al)));
        PutFrame(st, 0, Short(Scale(st.last[scan.members[st.blkn]] + 0, scan.Al)));
        PutFrame(st.(blocks := B), 0, Short(Scale(st.last[scan.members[st.blkn]] + 0, scan.Al)));
      }
    case AcMag(k, s) =>
      PutBetween(st, B, U, k, Short(Scale(Extend(v, s), scan.Al)));
      PutFrame(st, k, Short(Scale(Extend(v, s), scan.Al)));
      PutFrame(st.(blocks := B), k, Short(Scale(Extend(v, s), scan.Al)));
    case _ =>
  }

  lemma BetweenShape(bs: seq<Block>, B: seq<Block>, U: seq<Block>)
    requires Between(bs, B, U)
    ensures |B| == |bs| == |U|
  {}

  lemma PutFrame(st: St, k: nat, v: int)
    requires st.blkn < |st.blocks|
    ensures Put(st, k, v) == st.(blocks := Put(st, k, v).blocks) && |Put(st, k, v).blocks| == |st.blocks|
  {}

  lemma FeedBetweenBit(scan: Scan, st: St, B: seq<Block>, U: seq<Block>, v: nat)
    requires StOk(scan, st) && AnswerOk(Asks(scan, st), v) && scan.mode == DcRefine
    requires Between(st.blocks, B, U) && Settled(Feed(scan, st, v), U)
    ensures var st2 := st.(blocks := B);
      && StOk(scan, st2) && Asks(scan, st2) == Asks(scan, st)
      && Between(Feed(scan, st, v).blocks, Feed(scan, st2, v).blocks, U)
      && Feed(scan, st2, v) == Feed(scan, st, v).(blocks := Feed(scan, st2, v).blocks)
  {
    hide SetBit;
    if st.pc == BitTop && st.blkn < |st.blocks| && v == 1 {
      var st1, n := Feed(scan, st, v), st.blkn;
      SetBitTwice(Cur(st)[0], scan.Al);
      assert U[n] == st1.blocks[n];
      assert st1.blocks[n][0] == SetBit(Cur(st)[0], scan.Al);
    }
  }

  lemma {:induction false} RetryFirst(scan: Scan, data: seq<nat>, lim: nat, lim2: nat, tabs: seq<Tab>, st: St,
                                      B: seq<Block>, rd: Rd)
    requires StOk(scan, st) && TabsOk(scan, tabs) && lim <= lim2 <= |data| && Bytes(data) && scan.mode != AcRefine
    requires RunRd(scan, data, lim, tabs, st, rd).Susp?
    requires Between(st.blocks, B, RunRd(scan, data, lim, tabs, st, rd).st.blocks)
    ensures StOk(scan, st.(blocks := B)) && StOk(scan, RunRd(scan, data, lim, tabs, st, rd).st)
    ensures var run := RunRd(scan, data, lim, tabs, st, rd);
      RunRd(scan, data, lim2, tabs, st.(blocks := B), rd) == RunRd(scan, data, lim2, tabs, run.st, run.rd)
    decreases Rank(scan, st)
  {
    hide Asks, Feed, StOk, Rank, TabsOk, Bytes, Fetch, RunRd, Between, Settled;
    var run := RunRd(scan, data, lim, tabs, st, rd);
    var U := run.st.blocks;
    var a := Asks(scan, st);
    if a.Halt? {
      RunHalts(scan, data, lim, tabs, st, rd);
      assert false;
    } else if a.Silent? {
      RunSilent(scan, data, lim, tabs, st, rd);
      RunSettled(scan, data, lim, tabs, Feed(scan, st, 0), rd);
      FeedBetween(scan, st, B, U, 0);
      RunSilent(scan, data, lim2, tabs, st.(blocks := B), rd);
      RetryFirst(scan, data, lim, lim2, tabs, Feed(scan, st, 0), Feed(scan, st.(blocks := B), 0).blocks, rd);
    } else if run == Susp(st, rd) {
      BetweenSame(st.blocks, B);
    } else {
      var v, rd' := StepOn(scan, data, lim, tabs, st, rd);
      RunSettled(scan, data, lim, tabs, Feed(scan, st, v), rd');
      FeedBetween(scan, st, B, U, v);
      FetchStable(data, lim, lim2, rd, tabs, a);
      RunFetch(scan, data, lim2, tabs, st.(blocks := B), rd, v, rd');
      RetryFirst(scan, data, lim, lim2, tabs, Feed(scan, st, v), Feed(scan, st.(blocks := B), v).blocks, rd');
    }
  }

  lemma BetweenSame(bs: seq<Block>, B: seq<Block>)
    requires Between(bs, B, bs)
    ensures B == bs
  {
    forall i | 0 <= i < |bs| ensures B[i] == bs[i] {}
  }

  // ---- Retrying: AC refinement, with rollback ----

  /** The band index at which the machine stands. */
  function Cursor(pc: Pc): nat {
    match pc
    case AcTop(k) => k
    case AcMag(k, _) => k
    case EobBits(k, _) => k
    case Sign(k, _) => k
    case Inner(k, _, _) => k
    case Place(k, _) => k
    case TailAt(k) => k
    case _ => 64
  }

  /** A state of an AC refinement scan that can still suspend: new coefficients lie behind it,
      and the coefficient it is about to store goes where a zero is. */
  ghost predicate Steady(scan: Scan, st: St) {
    && StOk(scan, st) && scan.mode == AcRefine && |st.blocks| == 1 && st.blkn == 0
    && (forall i :: 0 <= i < |st.newnz| ==> st.newnz[i] < Cursor(st.pc) && st.newnz[i] < 64)
    && (st.pc.Place? ==> st.pc.k <= scan.Se && Cur(st)[st.pc.k] == 0)
  }

  /** What suspending later leaves of the block: behind the cursor only new coefficients are
      undone; ahead of it, at most a correction bit has been added. */
  ghost predicate Leaves(scan: Scan, st: St, u: Block)
    requires Steady(scan, st)
  {
    var b, c := st.blocks[0], Cursor(st.pc);
    && (forall j :: 0 <= j < c && j < 64 ==> u[j] == if j in st.newnz then 0 else b[j])
    && (forall j :: c <= j < 64 ==> u[j] == b[j] || (b[j] != 0 && u[j] == Correct(b[j], scan.Al)))
  }

  /** A correction never makes a coefficient zero, and correcting twice is correcting once,
      also for negative coefficients and at the ends of the 16-bit range. */
  lemma CorrectTwice(x: int, n: nat)
    requires n <= 13 && x != 0 && -32768 <= x < 32768
    ensures Correct(x, n) != 0 && Correct(Correct(x, n), n) == Correct(x, n) && -32768 <= Correct(x, n) < 32768
  {
    if !Bit(x, n) {
      BitAdded(x, n);
      Pow2Mono(n, 13);
      Pow2Values();
      ShortBit(x + Pow2(n), n);
      ShortBit(x - Pow2(n), n);
    }
  }

  /** Wrapping to 16 bits leaves the low-order bits alone. */
  lemma ShortBit(x: int, n: nat)
    requires n <= 13 && -65536 <= x < 65536
    ensures Bit(Short(x), n) == Bit(x, n)
  {
    hide Bit, Scale, Pow2;
    Pow2Values();
    ScaleOne(16);
    BitPeriod(x, 16, 1, n);
    BitPeriod(x, 16, -1, n);
  }

  lemma {:induction false} BitPeriod(x: int, m: nat, q: int, n: nat)
    requires n < m
    ensures Bit(x + Scale(q, m), n) == Bit(x, n)
    decreases n
  {
    var y := Scale(q, m - 1);
    Halves(x, y);
    assert Scale(q, m) == 2 * y;
    hide Scale;
    if n > 0 { BitPeriod(x / 2, m - 1, q, n - 1); }
  }

  lemma Halves(x: int, y: int)
    ensures (x + 2 * y) % 2 == x % 2 && (x + 2 * y) / 2 == x / 2 + y
  {}

  /** One step of an AC refinement scan that does not finish the MCU. */
  lemma FeedSteady(scan: Scan, st: St, v: nat)
    requires Steady(scan, st) && AnswerOk(Asks(scan, st), v)
    ensures var st1 := Feed(scan, st, v);
      Steady(scan, st1) || st1.pc == Fin || (st1.pc.Place? && st1.pc.k > scan.Se)
  {
    hide Short, Correct, Pow2;
    FeedOk(scan, st, v);
    hide Rank;
  }


  lemma FeedShort(scan: Scan, st: St, v: nat)
    requires Steady(scan, st) && AnswerOk(Asks(scan, st), v) && Coefs(st.blocks[0]) && Steady(scan, Feed(scan, st, v))
    ensures Coefs(Feed(scan, st, v).blocks[0])
  {
    hide Pow2, Bit;
    if st.pc.Inner? || st.pc.TailAt? { CorrectShort(Cur(st), st.pc.k, scan.Al); }
  }

  lemma CorrectShort(b: Block, k: nat, n: nat)
    requires Coefs(b) && n <= 13
    ensures k < 64 && b[k] != 0 ==> -32768 <= Correct(b[k], n) < 32768
  {
    if k < 64 && b[k] != 0 { CorrectTwice(b[k], n); }
  }

  /** What is left behind later is left behind earlier. */
  lemma LeavesBack(scan: Scan, st: St, v: nat, u: Block)
    requires Steady(scan, st) && AnswerOk(Asks(scan, st), v)
    requires Steady(scan, Feed(scan, st, v)) && Leaves(scan, Feed(scan, st, v), u)
    ensures Leaves(scan, st, u)
  {
    hide Correct, Pow2, Short;
  }

  lemma {:induction false} Finishing(scan: Scan, data: seq<nat>, lim: nat, tabs: seq<Tab>, st: St, rd: Rd)
    requires StOk(scan, st) && TabsOk(scan, tabs) && lim <= |data| && Bytes(data)
    requires st.pc == Fin || (st.pc.Place? && st.pc.k > scan.Se)
    ensures RunRd(scan, data, lim, tabs, st, rd).Done?
  {
    hide RunRd, TabsOk, Bytes, Short, Pow2;
    if st.pc == Fin {
      RunHalts(scan, data, lim, tabs, st, rd);
    } else {
      RunSilent(scan, data, lim, tabs, st, rd);
      var st1 := Feed(scan, st, 0);
      RunSilent(scan, data, lim, tabs, st1, rd);
      RunHalts(scan, data, lim, tabs, Feed(scan, st1, 0), rd);
    }
  }

  /** A step of a run that suspends later stays steady. */
  lemma {:induction false} SteadyOn(scan: Scan, data: seq<nat>, lim: nat, tabs: seq<Tab>, st: St, rd: Rd, v: nat)
    requires Steady(scan, st) && TabsOk(scan, tabs) && lim <= |data| && Bytes(data) && AnswerOk(Asks(scan, st), v)
    requires Coefs(st.blocks[0])
    requires StOk(scan, Feed(scan, st, v)) && RunRd(scan, data, lim, tabs, Feed(scan, st, v), rd).Susp?
    ensures Steady(scan, Feed(scan, st, v)) && Coefs(Feed(scan, st, v).blocks[0])
  {
    hide RunRd, TabsOk, Bytes, Feed, Asks, AnswerOk, Coefs, Cursor;
    FeedSteady(scan, st, v);
    var st1 := Feed(scan, st, v);
    if !Steady(scan, st1) {
      Finishing(scan, data, lim, tabs, st1, rd);
      assert false;
    }
    FeedShort(scan, st, v);
  }

  /** A steady run that suspends leaves its block as described. */
  lemma {:induction false} RunLeaves(scan: Scan, data: seq<nat>, lim: nat, tabs: seq<Tab>, st: St, rd: Rd)
    requires Steady(scan, st) && TabsOk(scan, tabs) && lim <= |data| && Bytes(data) && Coefs(st.blocks[0])
    requires RunRd(scan, data, lim, tabs, st, rd).Susp?
    ensures var run := RunRd(scan, data, lim, tabs, st, rd);
      |run.st.blocks| == 1 && Leaves(scan, st, Undo(run.st.blocks[0], run.st.newnz))
    decreases Rank(scan, st)
  {
    hide Asks, Feed, StOk, Rank, TabsOk, Bytes, Fetch, RunRd, Leaves, Undo, Coefs, Cursor;
    var a := Asks(scan, st);
    if a.Halt? {
      RunHalts(scan, data, lim, tabs, st, rd);
      assert false;
    } else if a.Silent? {
      RunSilent(scan, data, lim, tabs, st, rd);
      SteadyOn(scan, data, lim, tabs, st, rd, 0);
      RunLeaves(scan, data, lim, tabs, Feed(scan, st, 0), rd);
      var run := RunRd(scan, data, lim, tabs, st, rd);
      LeavesBack(scan, st, 0, Undo(run.st.blocks[0], run.st.newnz));
    } else if RunRd(scan, data, lim, tabs, st, rd) == Susp(st, rd) {
      LeavesNow(scan, st);
    } else {
      var v, rd' := StepOn(scan, data, lim, tabs, st, rd);
      SteadyOn(scan, data, lim, tabs, st, rd', v);
      RunLeaves(scan, data, lim, tabs, Feed(scan, st, v), rd');
      var run := RunRd(scan, data, lim, tabs, st, rd);
      LeavesBack(scan, st, v, Undo(run.st.blocks[0], run.st.newnz));
    }
  }

  lemma LeavesNow(scan: Scan, st: St)
    requires Steady(scan, st)
    ensures Leaves(scan, st, Undo(st.blocks[0], st.newnz))
  {}

  /** The retried machine: coefficients behind the cursor are decoded again, those ahead are
      as they were left behind. */
  function Retried(st: St, u: Block): St
    requires |st.blocks| == 1
  {
    var b, c := st.blocks[0], Cursor(st.pc);
    st.(blocks := [seq(64, j requires 0 <= j < 64 => if j < c then b[j] else u[j])])
  }

  lemma FeedRetried(scan: Scan, st: St, v: nat, u: Block)
    requires Steady(scan, st) && AnswerOk(Asks(scan, st), v) && Coefs(st.blocks[0])
    requires Steady(scan, Feed(scan, st, v)) && Leaves(scan, Feed(scan, st, v), u)
    ensures Steady(scan, Retried(st, u)) && Asks(scan, Retried(st, u)) == Asks(scan, st)
    ensures Feed(scan, Retried(st, u), v) == Retried(Feed(scan, st, v), u)
  {
    hide Short, Pow2, Correct;
    LeavesBack(scan, st, v, u);
    var b, k := st.blocks[0], Cursor(st.pc);
    if k < 64 && b[k] != 0 { CorrectTwice(b[k], scan.Al); }
    var x, y := Feed(scan, Retried(st, u), v), Retried(Feed(scan, st, v), u);
    assert x.blocks[0] == y.blocks[0];
  }

  lemma {:induction false} RetryRefine(scan: Scan, data: seq<nat>, lim: nat, lim2: nat, tabs: seq<Tab>, st: St, rd: Rd)
    requires Steady(scan, st) && TabsOk(scan, tabs) && lim <= lim2 <= |data| && Bytes(data) && Coefs(st.blocks[0])
    requires RunRd(scan, data, lim, tabs, st, rd).Susp?
    ensures var run := RunRd(scan, data, lim, tabs, st, rd);
      && StOk(scan, run.st) && |run.st.blocks| == 1
      && (var st2 := Retried(st, Undo(run.st.blocks[0], run.st.newnz));
          && StOk(scan, st2)
          && RunRd(scan, data, lim2, tabs, st2, rd) == RunRd(scan, data, lim2, tabs, run.st, run.rd))
    decreases Rank(scan, st)
  {
    hide Asks, Feed, StOk, Rank, TabsOk, Bytes, Fetch, RunRd, Leaves, Undo, Coefs, Cursor, Retried;
    var run := RunRd(scan, data, lim, tabs, st, rd);
    RunLeaves(scan, data, lim, tabs, st, rd);
    var u := Undo(run.st.blocks[0], run.st.newnz);
    var a := Asks(scan, st);
    if a.Halt? {
      RunHalts(scan, data, lim, tabs, st, rd);
      assert false;
    } else if a.Silent? {
      RunSilent(scan, data, lim, tabs, st, rd);
      SteadyOn(scan, data, lim, tabs, st, rd, 0);
      RunLeaves(scan, data, lim, tabs, Feed(scan, st, 0), rd);
      FeedRetried(scan, st, 0, u);
      RunSilent(scan, data, lim2, tabs, Retried(st, u), rd);
      RetryRefine(scan, data, lim, lim2, tabs, Feed(scan, st, 0), rd);
    } else if run == Susp(st, rd) {
      RetriedHere(scan, st);
    } else {
      var v, rd' := StepOn(scan, data, lim, tabs, st, rd);
      SteadyOn(scan, data, lim, tabs, st, rd', v);
      RunLeaves(scan, data, lim, tabs, Feed(scan, st, v), rd');
      FeedRetried(scan, st, v, u);
      FetchStable(data, lim, lim2, rd, tabs, a);
      RunFetch(scan, data, lim2, tabs, Retried(st, u), rd, v, rd');
      RetryRefine(scan, data, lim, lim2, tabs, Feed(scan, st, v), rd');
    }
  }

  /** At the point of suspension the retried machine has caught up. */
  lemma RetriedHere(scan: Scan, st: St)
    requires Steady(scan, st)
    ensures Retried(st, Undo(st.blocks[0], st.newnz)) == st
  {
    var b, u := st.blocks[0], Undo(st.blocks[0], st.newnz);
    assert Retried(st, u).blocks[0] == b;
  }

  // ---- One MCU ----

  ghost predicate Shorts(bs: seq<Block>) {
    forall i :: 0 <= i < |bs| ==> Coefs(bs[i])
  }

  /** Retrying the body of a suspended MCU with more input continues it. */
  lemma RetryBody(scan: Scan, data: seq<nat>, lim: nat, lim2: nat, tabs: seq<Tab>, d: Dec, bs: seq<Block>)
    requires DecOk(scan, d) && |bs| == |scan.members| && TabsOk(scan, tabs) && lim <= lim2 <= |data| && Bytes(data)
      && Shorts(bs)
    requires DecodeBody(scan, data, lim, tabs, d, bs).Suspended?
    ensures var s := DecodeBody(scan, data, lim, tabs, d, bs);
      && s.dec == d && |s.blocks| == |bs|
      && DecodeBody(scan, data, lim2, tabs, d, s.blocks) == DecodeBody(scan, data, lim2, tabs, d, bs)
  {
    hide RunRd, TabsOk, Bytes, Coefs, StOk, Undo, Init;
    InitOk(scan, d.eobrun, d.last, bs);
    var st := Init(scan, d.eobrun, d.last, bs);
    RunRdOk(scan, data, lim, tabs, st, d.rd);
    RunStable(scan, data, lim, lim2, tabs, st, d.rd);
    InitBlocks(scan, d, bs);
    if scan.mode == AcRefine {
      RetryBodyRefine(scan, data, lim, lim2, tabs, d, bs);
    } else {
      var B := RunRd(scan, data, lim, tabs, st, d.rd).st.blocks;
      InitOk(scan, d.eobrun, d.last, B);
      InitBlocks(scan, d, B);
      InitSwap(scan, d, bs, B);
      RetryFirst(scan, data, lim, lim2, tabs, st, B, d.rd);
    }
  }

  lemma InitBlocks(scan: Scan, d: Dec, bs: seq<Block>)
    ensures Init(scan, d.eobrun, d.last, bs).blocks == bs
  {}

  lemma InitSwap(scan: Scan, d: Dec, bs: seq<Block>, B: seq<Block>)
    ensures Init(scan, d.eobrun, d.last, B) == Init(scan, d.eobrun, d.last, bs).(blocks := B)
  {}

  lemma {:induction false} RetryBodyRefine(scan: Scan, data: seq<nat>, lim: nat, lim2: nat, tabs: seq<Tab>, d: Dec,
                                           bs: seq<Block>)
    requires DecOk(scan, d) && |bs| == |scan.members| && TabsOk(scan, tabs) && lim <= lim2 <= |data| && Bytes(data)
      && Shorts(bs)
    requires scan.mode == AcRefine && StOk(scan, Init(scan, d.eobrun, d.last, bs))
    requires RunRd(scan, data, lim, tabs, Init(scan, d.eobrun, d.last, bs), d.rd).Susp?
    ensures var run := RunRd(scan, data, lim, tabs, Init(scan, d.eobrun, d.last, bs), d.rd);
      && StOk(scan, run.st) && StOk(scan, Init(scan, d.eobrun, d.last, LeftBehind(scan, run.st)))
      && |LeftBehind(scan, run.st)| == |bs|
      && RunRd(scan, data, lim2, tabs, Init(scan, d.eobrun, d.last, LeftBehind(scan, run.st)), d.rd)
         == RunRd(scan, data, lim2, tabs, run.st, run.rd)
  {
    hide RunRd, TabsOk, Bytes, Coefs, Undo;
    var st := Init(scan, d.eobrun, d.last, bs);
    assert Steady(scan, st);
    RetryRefine(scan, data, lim, lim2, tabs, st, d.rd);
    RunLeaves(scan, data, lim, tabs, st, d.rd);
    var run := RunRd(scan, data, lim, tabs, st, d.rd);
    var u := Undo(run.st.blocks[0], run.st.newnz);
    assert Retried(st, u).blocks[0] == u;
    assert Retried(st, u) == Init(scan, d.eobrun, d.last, [u]);
  }

  lemma BodyStable(scan: Scan, data: seq<nat>, lim: nat, lim2: nat, tabs: seq<Tab>, d: Dec, bs: seq<Block>)
    requires DecOk(scan, d) && |bs| == |scan.members| && TabsOk(scan, tabs) && lim <= lim2 <= |data| && Bytes(data)
    requires DecodeBody(scan, data, lim, tabs, d, bs).Complete?
    ensures DecodeBody(scan, data, lim2, tabs, d, bs) == DecodeBody(scan, data, lim, tabs, d, bs)
  {
    hide RunRd, TabsOk, Bytes, StOk, Init;
    InitOk(scan, d.eobrun, d.last, bs);
    RunStable(scan, data, lim, lim2, tabs, Init(scan, d.eobrun, d.last, bs), d.rd);
  }

  // ---- Restart markers ----

  lemma {:induction false} MarkerStable(data: seq<nat>, lim: nat, lim2: nat, pos: nat)
    requires lim <= lim2 <= |data|
    ensures var r := NextMarker(data, lim, pos);
      NextMarker(data, lim2, pos) == if r.Found? then r else NextMarker(data, lim2, r.pos)
    decreases lim - pos
  {
    hide SkipFF;
    if pos < lim {
      if data[pos] != 0xFF {
        MarkerStable(data, lim, lim2, pos + 1);
      } else {
        var q := SkipFF(data, lim, pos + 1);
        if q < lim {
          SkipMore(data, lim, lim2, pos + 1);
          if data[q] == 0 { MarkerStable(data, lim, lim2, q + 1); }
        }
      }
    }
  }

  lemma {:induction false} ResyncStable(data: seq<nat>, lim: nat, lim2: nat, pos: nat, marker: nat, desired: nat)
    requires lim <= lim2 <= |data|
    ensures var r := Resync(data, lim, pos, marker, desired);
      Resync(data, lim2, pos, marker, desired) == if r.ok then r else Resync(data, lim2, r.pos, r.marker, desired)
    ensures var r := Resync(data, lim, pos, marker, desired);
      !r.ok && marker != 0 && marker != RST0 + desired && desired < 8 ==> r.marker != 0 && r.marker != RST0 + desired
    decreases lim - pos
  {
    hide NextMarker;
    if ResyncAction(marker, desired) == 2 {
      MarkerStable(data, lim, lim2, pos);
      match NextMarker(data, lim, pos)
      case Waiting(p) =>
      case Found(p, code) =>
        ResyncStable(data, lim, lim2, p, code, desired);
        ActionOnDesired(desired);
    }
  }

  lemma ActionOnDesired(desired: nat)
    ensures desired < 8 ==> ResyncAction(RST0 + desired, desired) == 1
  {}

  lemma RestartStable(data: seq<nat>, lim: nat, lim2: nat, pos: nat, marker: nat, next: nat)
    requires lim <= lim2 <= |data| && next < 8
    ensures var r := ReadRestart(data, lim, pos, marker, next);
      ReadRestart(data, lim2, pos, marker, next) == if r.ok then r else ReadRestart(data, lim2, r.pos, r.marker, next)
  {
    hide NextMarker, Resync, ResyncAction;
    if marker != 0 {
      ResyncStable(data, lim, lim2, pos, marker, next);
    } else {
      MarkerStable(data, lim, lim2, pos);
      match NextMarker(data, lim, pos)
      case Waiting(p) =>
      case Found(p, code) => ResyncStable(data, lim, lim2, p, code, next);
    }
  }

  lemma BeginStable(scan: Scan, data: seq<nat>, lim: nat, lim2: nat, d: Dec)
    requires lim <= lim2 <= |data| && DecOk(scan, d)
    ensures var r := BeginDecode(scan, data, lim, d);
      BeginDecode(scan, data, lim2, d) == if r.0 then r else BeginDecode(scan, data, lim2, r.1)
    ensures var r := BeginDecode(scan, data, lim, d);
      r.0 ==> BeginDecode(scan, data, lim2, r.1) == (true, r.1)
  {
    hide ReadRestart;
    RestartStable(data, lim, lim2, d.rd.pos, d.rd.marker, d.next);
  }

  /** A call that completes does the same with more input; a call that suspends is undone so far
      that the retry ends as one call with all the input would have: same blocks, same state. */
  lemma RetryIsTransparent(scan: Scan, data: seq<nat>, lim: nat, lim2: nat, tabs: seq<Tab>, d: Dec, bs: seq<Block>)
    requires DecOk(scan, d) && |bs| == |scan.members| && TabsOk(scan, tabs) && lim <= lim2 <= |data| && Bytes(data)
      && Shorts(bs)
    ensures var o := DecodeMcu(scan, data, lim, tabs, d, bs);
      && DecOk(scan, o.dec) && |o.blocks| == |bs|
      && DecodeMcu(scan, data, lim2, tabs, d, bs) == if o.Complete? then o
         else DecodeMcu(scan, data, lim2, tabs, o.dec, o.blocks)
  {
    hide DecodeBody, BeginDecode, TabsOk, Bytes, Shorts;
    DecodeMcuOk(scan, data, lim, tabs, d, bs);
    BeginDecodeOk(scan, data, lim, d);
    BeginStable(scan, data, lim, lim2, d);
    var (ok, d1) := BeginDecode(scan, data, lim, d);
    if ok {
      if DecodeBody(scan, data, lim, tabs, d1, bs).Complete? {
        BodyStable(scan, data, lim, lim2, tabs, d1, bs);
      } else {
        RetryBody(scan, data, lim, lim2, tabs, d1, bs);
      }
    }
  }

  // ---- Coefficients stay 16-bit ----

  lemma {:induction false} SetBitBound(x: int, n: nat, m: nat)
    requires n < m && x < Pow2(m) && !Bit(x, n)
    ensures x + Pow2(n) < Pow2(m)
    decreases n
  {
    var y := Pow2(m - 1);
    assert Pow2(m) == 2 * y;
    if n > 0 {
      SetBitBound(x / 2, n - 1, m - 1);
      assert Pow2(n) == 2 * Pow2(n - 1);
    } else {
      OddBelow(x, y);
    }
    hide Pow2;
  }

  lemma OddBelow(x: int, y: int)
    requires x % 2 != 1 && x < 2 * y
    ensures x + 1 < 2 * y
  {}

  lemma FeedShorts(scan: Scan, st: St, v: nat)
    requires StOk(scan, st) && AnswerOk(Asks(scan, st), v) && Shorts(st.blocks)
    ensures Shorts(Feed(scan, st, v).blocks)
  {
    hide Bit;
    if st.pc.BitTop? {
      if st.blkn < |st.blocks| { SetBitShort(Cur(st)[0], scan.Al); }
    } else if st.pc.Inner? || st.pc.TailAt? {
      CorrectShort(Cur(st), st.pc.k, scan.Al);
    }
    hide SetBit, Pow2, Correct;
  }

  lemma SetBitShort(x: int, n: nat)
    requires -32768 <= x < 32768 && n <= 13
    ensures -32768 <= SetBit(x, n) < 32768
  {
    Pow2Values();
    if !Bit(x, n) { SetBitBound(x, n, 15); }
  }

  lemma {:induction false} RunShorts(scan: Scan, data: seq<nat>, lim: nat, tabs: seq<Tab>, st: St, rd: Rd)
    requires StOk(scan, st) && TabsOk(scan, tabs) && lim <= |data| && Bytes(data) && Shorts(st.blocks)
    ensures Shorts(RunRd(scan, data, lim, tabs, st, rd).st.blocks)
    decreases Rank(scan, st)
  {
    hide Asks, Feed, StOk, Rank, TabsOk, Bytes, Fetch, RunRd, Shorts;
    var a := Asks(scan, st);
    if a.Halt? {
      RunHalts(scan, data, lim, tabs, st, rd);
    } else if a.Silent? {
      RunSilent(scan, data, lim, tabs, st, rd);
      FeedShorts(scan, st, 0);
      RunShorts(scan, data, lim, tabs, Feed(scan, st, 0), rd);
    } else if RunRd(scan, data, lim, tabs, st, rd) != Susp(st, rd) {
      var v, rd' := StepOn(scan, data, lim, tabs, st, rd);
      FeedShorts(scan, st, v);
      RunShorts(scan, data, lim, tabs, Feed(scan, st, v), rd');
    }
  }

  lemma McuShorts(scan: Scan, data: seq<nat>, lim: nat, tabs: seq<Tab>, d: Dec, bs: seq<Block>)
    requires DecOk(scan, d) && |bs| == |scan.members| && TabsOk(scan, tabs) && lim <= |data| && Bytes(data)
      && Shorts(bs)
    ensures Shorts(DecodeMcu(scan, data, lim, tabs, d, bs).blocks)
  {
    hide RunRd, TabsOk, Bytes, BeginDecode;
    BeginDecodeOk(scan, data, lim, d);
    var d1 := BeginDecode(scan, data, lim, d).1;
    InitOk(scan, d1.eobrun, d1.last, bs);
    RunShorts(scan, data, lim, tabs, Init(scan, d1.eobrun, d1.last, bs), d1.rd);
  }

  // ---- Any schedule of arrivals ----

  ghost predicate Sized(scan: Scan, bss: seq<seq<Block>>) {
    forall i :: 0 <= i < |bss| ==> |bss[i]| == |scan.members| && Shorts(bss[i])
  }

  /** Each call of the decoder finds as much input as the next entry of the schedule says. */
  ghost predicate Schedule(data: seq<nat>, lims: seq<nat>) {
    (forall i :: 0 <= i < |lims| ==> lims[i] <= |data|) && forall i, j :: 0 <= i < j < |lims| ==> lims[i] <= lims[j]
  }

  /** The decoder driven by a schedule of arrivals: a suspended MCU is retried, on the state and
      the blocks it left behind, at the next call. None if the schedule ends first. */
  ghost function DecodePieces(scan: Scan, data: seq<nat>, lims: seq<nat>, tabs: seq<Tab>, d: Dec,
                              bss: seq<seq<Block>>): Option<ScanOut>
    requires DecOk(scan, d) && TabsOk(scan, tabs) && Bytes(data) && Schedule(data, lims) && Sized(scan, bss)
    decreases |lims|
  {
    if bss == [] then Some(ScanOut(d, []))
    else if lims == [] then None
    else
      var o := DecodeMcu(scan, data, lims[0], tabs, d, bss[0]);
      DecodeMcuOk(scan, data, lims[0], tabs, d, bss[0]);
      McuShorts(scan, data, lims[0], tabs, d, bss[0]);
      if o.Suspended? then DecodePieces(scan, data, lims[1..], tabs, o.dec, [o.blocks] + bss[1..])
      else
        match DecodePieces(scan, data, lims[1..], tabs, o.dec, bss[1..])
        case None => None
        case Some(so) => Some(so.(outs := [o.blocks] + so.outs))
  }

  /** The decoder with all the input present. */
  ghost function DecodeWhole(scan: Scan, data: seq<nat>, tabs: seq<Tab>, d: Dec, bss: seq<seq<Block>>): Option<ScanOut>
    requires DecOk(scan, d) && TabsOk(scan, tabs) && Bytes(data) && Sized(scan, bss)
    decreases |bss|
  {
    if bss == [] then Some(ScanOut(d, []))
    else
      var o := DecodeMcu(scan, data, |data|, tabs, d, bss[0]);
      DecodeMcuOk(scan, data, |data|, tabs, d, bss[0]);
      if o.Suspended? then None
      else
        match DecodeWhole(scan, data, tabs, o.dec, bss[1..])
        case None => None
        case Some(so) => Some(so.(outs := [o.blocks] + so.outs))
  }

  /** Whatever pieces the input arrives in, once the schedule allows for every MCU a call with
      the complete input, the outcome is that of an uninterrupted run, failure included. */
  lemma {:induction false} PiecesDecodeWhole(scan: Scan, data: seq<nat>, lims: seq<nat>, tabs: seq<Tab>, d: Dec,
                                             bss: seq<seq<Block>>)
    requires DecOk(scan, d) && TabsOk(scan, tabs) && Bytes(data) && Sized(scan, bss)
    requires Schedule(data, lims) && |lims| >= |bss| && (forall i :: |lims| - |bss| <= i < |lims| ==> lims[i] == |data|)
    ensures DecodePieces(scan, data, lims, tabs, d, bss) == DecodeWhole(scan, data, tabs, d, bss)
    decreases |lims|
  {
    hide DecodeMcu, TabsOk, Bytes, DecOk, Shorts;
    if bss != [] {
      var o := DecodeMcu(scan, data, lims[0], tabs, d, bss[0]);
      McuShorts(scan, data, lims[0], tabs, d, bss[0]);
      RetryIsTransparent(scan, data, lims[0], |data|, tabs, d, bss[0]);
      if o.Complete? {
        PiecesDecodeWhole(scan, data, lims[1..], tabs, o.dec, bss[1..]);
      } else {
        var again := [o.blocks] + bss[1..];
        assert again[1..] == bss[1..];
        if |lims| > |bss| {
          PiecesDecodeWhole(scan, data, lims[1..], tabs, o.dec, again);
        } else {
          assert lims[0] == |data|;
          Stuck(scan, data, lims[1..], tabs, o.dec, again);
        }
      }
    }
  }

  /** When even the complete input does not suffice, no retry gets any further. */
  lemma {:induction false} Stuck(scan: Scan, data: seq<nat>, lims: seq<nat>, tabs: seq<Tab>, d: Dec,
                                 bss: seq<seq<Block>>)
    requires DecOk(scan, d) && TabsOk(scan, tabs) && Bytes(data) && Sized(scan, bss) && bss != []
    requires Schedule(data, lims) && (forall i :: 0 <= i < |lims| ==> lims[i] == |data|)
    requires DecodeMcu(scan, data, |data|, tabs, d, bss[0]).Suspended?
    ensures DecodePieces(scan, data, lims, tabs, d, bss) == None
    decreases |lims|
  {
    hide DecodeMcu, TabsOk, Bytes, DecOk, Shorts;
    if lims != [] {
      var o := DecodeMcu(scan, data, |data|, tabs, d, bss[0]);
      McuShorts(scan, data, |data|, tabs, d, bss[0]);
      RetryIsTransparent(scan, data, |data|, |data|, tabs, d, bss[0]);
      Stuck(scan, data, lims[1..], tabs, o.dec, [o.blocks] + bss[1..]);
    }
  }

  /** DecodeWhole decodes from the front, DecodeAll is defined from the back. */
  lemma {:induction false} WholeIsAll(scan: Scan, data: seq<nat>, tabs: seq<Tab>, d: Dec, bss: seq<seq<Block>>)
    requires DecOk(scan, d) && TabsOk(scan, tabs) && Bytes(data) && Sized(scan, bss)
    ensures DecodeWhole(scan, data, tabs, d, bss) == DecodeAll(scan, data, |data|, tabs, d, bss)
    decreases |bss|
  {
    hide DecodeMcu, TabsOk, Bytes, DecOk, Shorts;
    if bss != [] {
      DecodeMcuOk(scan, data, |data|, tabs, d, bss[0]);
      AllFromFront(scan, data, tabs, d, bss);
      var o := DecodeMcu(scan, data, |data|, tabs, d, bss[0]);
      if o.Complete? { WholeIsAll(scan, data, tabs, o.dec, bss[1..]); }
    }
  }

  lemma {:induction false} AllFromFront(scan: Scan, data: seq<nat>, tabs: seq<Tab>, d: Dec, bss: seq<seq<Block>>)
    requires DecOk(scan, d) && TabsOk(scan, tabs) && Bytes(data) && Sized(scan, bss) && bss != []
    ensures var o := DecodeMcu(scan, data, |data|, tabs, d, bss[0]);
      && DecOk(scan, o.dec)
      && DecodeAll(scan, data, |data|, tabs, d, bss) ==
         if o.Suspended? then None
         else match DecodeAll(scan, data, |data|, tabs, o.dec, bss[1..])
              case None => None
              case Some(so) => Some(so.(outs := [o.blocks] + so.outs))
    decreases |bss|
  {
    hide DecodeMcu, TabsOk, Bytes, DecOk, Shorts;
    DecodeMcuOk(scan, data, |data|, tabs, d, bss[0]);
    var n := |bss| - 1;
    var o := DecodeMcu(scan, data, |data|, tabs, d, bss[0]);
    if n == 0 {
      assert bss[..|bss| - 1] == [] && bss[1..] == [] && bss[n] == bss[0];
      assert [] + [o.blocks] == [o.blocks] + [];
    } else {
      AllFromFront(scan, data, tabs, d, bss[..n]);
      assert bss[..n][1..] == bss[1..][..n - 1];
      if o.Complete? {
        var r := DecodeAll(scan, data, |data|, tabs, o.dec, bss[1..][..n - 1]);
        if r.Some? {
          DecodeMcuOk(scan, data, |data|, tabs, r.value.dec, bss[n]);
          var last := DecodeMcu(scan, data, |data|, tabs, r.value.dec, bss[n]);
          assert [o.blocks] + r.value.outs + [last.blocks] == [o.blocks] + (r.value.outs + [last.blocks]);
        }
      }
    }
  }
}
