/** What restart markers are for (section B.2.1 of ITU-T T.81): whatever has become of the entropy-coded data of some
    restart intervals, all others decode as they were coded. */
module ErrorConfinement {
  import opened Bits
  import opened Coefficients
  import opened HuffmanTables
  import opened BitWriter
  import opened BitReader
  import opened BitChannel
  import opened Coding
  import opened Decoding
  import opened TokenBits
  import opened McuDecoding
  import opened SegmentRoundTrip
  import opened ScanRoundTrip
  import opened EndOfData
  import opened McuGeometry
  import ScanCodec

  // ---- Any data up to a marker can be decoded ----

  /** Every fetch succeeds, and the marker stays ahead. */
  lemma FetchAlways(data: seq<nat>, lim: nat, rd: Rd, tabs: seq<Tab>, a: Ask, bytes: seq<nat>, m: nat, e: nat)
    returns (bytes': seq<nat>)
    requires e <= lim <= |data| && (a.NeedSym? || a.NeedBits?) && AskFits(tabs, a) && Ahead(data, rd, bytes, m, e)
    ensures var f := Fetch(data, lim, rd, tabs, a); f.Got? && Ahead(data, f.rd, bytes', m, e)
  {
    hide Ahead, GetSym, GetBits, Future, After, Decided;
    if a.NeedSym? {
      PresentOk(tabs, a.tbl);
      var l;
      l, bytes' := SymAlways(data, lim, rd, tabs[a.tbl].h, tabs[a.tbl].d, bytes, m, e);
    } else {
      bytes' := BitsAlways(data, lim, rd, a.n, bytes, m, e);
    }
  }

  lemma {:induction false} RunAlways(scan: Scan, data: seq<nat>, lim: nat, tabs: seq<Tab>, st: St, rd: Rd,
                                     bytes: seq<nat>, m: nat, e: nat) returns (bytes': seq<nat>)
    requires StOk(scan, st) && TabsOk(scan, tabs) && e <= lim <= |data| && Bytes(data) && Ahead(data, rd, bytes, m, e)
    ensures var run := RunRd(scan, data, lim, tabs, st, rd); run.Done? && Ahead(data, run.rd, bytes', m, e)
    decreases Rank(scan, st)
  {
    hide Asks, Feed, StOk, Rank, TabsOk, Bytes, RunRd, Fetch, Ahead;
    if Asks(scan, st).Halt? {
      bytes' := bytes;
      RunHalts(scan, data, lim, tabs, st, rd);
    } else if Asks(scan, st).Silent? {
      RunSilent(scan, data, lim, tabs, st, rd);
      bytes' := RunAlways(scan, data, lim, tabs, Feed(scan, st, 0), rd, bytes, m, e);
    } else {
      var a := Asks(scan, st);
      AskOk(scan, st, tabs);
      var b1 := FetchAlways(data, lim, rd, tabs, a, bytes, m, e);
      FetchOk(data, lim, rd, tabs, a);
      var f := Fetch(data, lim, rd, tabs, a);
      RunFetch(scan, data, lim, tabs, st, rd, f.v, f.rd);
      bytes' := RunAlways(scan, data, lim, tabs, Feed(scan, st, f.v), f.rd, b1, m, e);
    }
  }

  /** An MCU decodes, to whatever blocks, without crossing the marker. */
  lemma BodyAlways(scan: Scan, data: seq<nat>, lim: nat, tabs: seq<Tab>, d: Dec, bs: seq<Block>, bytes: seq<nat>,
                   m: nat, e: nat) returns (d1: Dec, bytes': seq<nat>)
    requires DecOk(scan, d) && |bs| == |scan.members| && TabsOk(scan, tabs) && e <= lim <= |data| && Bytes(data)
    requires Ahead(data, d.rd, bytes, m, e)
    ensures var r := DecodeBody(scan, data, lim, tabs, d, bs); r.Complete? && r.dec == d1
    ensures DecOk(scan, d1) && Ahead(data, d1.rd, bytes', m, e) && d1.next == d.next && d1.togo == CountDown(d).togo
  {
    hide RunRd, StOk, Init, Ahead, TabsOk, Bytes;
    d1 := DecodeBody(scan, data, lim, tabs, d, bs).dec;
    if d.rd.dry && scan.mode != DcRefine {
      bytes' := bytes;
    } else {
      InitOk(scan, d.eobrun, d.last, bs);
      var st := Init(scan, d.eobrun, d.last, bs);
      bytes' := RunAlways(scan, data, lim, tabs, st, d.rd, bytes, m, e);
      RunRdOk(scan, data, lim, tabs, st, d.rd);
      FinShape(scan, RunRd(scan, data, lim, tabs, st, d.rd).st);
    }
  }

  // ---- The restart marker is found ----

  /** next_marker skips the rest of the segment. */
  lemma {:induction false} MarkerSought(data: seq<nat>, lim: nat, rd: Rd, bytes: seq<nat>, m: nat, e: nat)
    requires e <= lim <= |data| && rd.marker == 0 && Ahead(data, rd, bytes, m, e)
    ensures NextMarker(data, lim, rd.pos) == Found(e, m)
    decreases |bytes|
  {
    hide Ahead, NextMarker;
    NextAhead(data, rd, bytes, m, e);
    MarkerRange(data, rd, bytes, m, e);
    if bytes == [] {
      MarkerHere(data, lim, rd.pos);
    } else {
      DataByte(data, lim, rd, bytes[0]);
      MarkerSought(data, lim, Loaded(rd, bytes[0]), bytes[1..], m, e);
    }
  }

  lemma {:induction false} MarkerHere(data: seq<nat>, lim: nat, pos: nat)
    requires pos + 1 < lim <= |data| && data[pos] == 0xFF && data[pos + 1] != 0 && data[pos + 1] != 0xFF
    ensures NextMarker(data, lim, pos) == Found(pos + 2, data[pos + 1])
  {
    assert SkipFF(data, lim, pos + 1) == pos + 1;
  }

  lemma {:induction false} DataByte(data: seq<nat>, lim: nat, rd: Rd, b: nat)
    requires rd.pos + 1 < lim <= |data| && data[rd.pos] == b && (b == 0xFF ==> data[rd.pos + 1] == 0)
    ensures NextMarker(data, lim, rd.pos) == NextMarker(data, lim, Loaded(rd, b).pos)
  {
    hide BitsOf;
    if b == 0xFF { assert SkipFF(data, lim, rd.pos + 1) == rd.pos + 1; }
  }

  lemma MarkerRange(data: seq<nat>, rd: Rd, bytes: seq<nat>, m: nat, e: nat)
    requires Ahead(data, rd, bytes, m, e)
    ensures 0 < m < 0xFF && (rd.marker != 0 ==> rd.marker == m && rd.pos == e)
  {}

  /** Wherever in the interval the decoder stands, and in whatever state: at the restart marker it starts afresh. */
  lemma Recovers(scan: Scan, data: seq<nat>, lim: nat, d: Dec, bytes: seq<nat>, m: nat, e: nat)
    requires DecOk(scan, d) && scan.ri > 0 && d.togo == 0 && e <= lim <= |data|
    requires Ahead(data, d.rd, bytes, m, e) && m == RST0 + d.next
    ensures BeginDecode(scan, data, lim, d) ==
      (true, Dec(Fresh(e), 0, NoPredictions(scan), scan.ri, (d.next + 1) % 8))
  {
    hide NextMarker, Ahead;
    MarkerRange(data, d.rd, bytes, m, e);
    if d.rd.marker == 0 { MarkerSought(data, lim, d.rd, bytes, m, e); }
  }

  /** A marker of the next two intervals, or one that does not belong to the scan, stays unread: the intervals before
      it are missing. */
  lemma KeepsMarker(scan: Scan, data: seq<nat>, lim: nat, d: Dec, bytes: seq<nat>, m: nat, e: nat)
    requires DecOk(scan, d) && scan.ri > 0 && d.togo == 0 && e <= lim <= |data| && Ahead(data, d.rd, bytes, m, e)
    requires m == 0xD0 + (d.next + 1) % 8 || m == 0xD0 + (d.next + 2) % 8 || 0xC0 <= m < 0xD0 || m > 0xD7
    ensures BeginDecode(scan, data, lim, d) ==
      (true, Dec(Rd([], e, m, d.rd.dry), 0, NoPredictions(scan), scan.ri, (d.next + 1) % 8))
    ensures Ahead(data, Rd([], e, m, d.rd.dry), [], m, e)
  {
    hide NextMarker, Stuff;
    if d.rd.marker == 0 { MarkerSought(data, lim, d.rd, bytes, m, e); }
  }

  /** Restart markers of the two intervals before, and markers that cannot stand here, are skipped with the data behind
      them. */
  lemma StaleMarkers(data: seq<nat>, lim: nat, pos: nat, marker: nat, next: nat, bytes: seq<nat>, e: nat)
    requires e <= lim <= |data| && next < 8 && Ahead(data, Fresh(pos), bytes, 0xD0 + next, e)
    requires marker == 0xD0 + (next + 7) % 8 || marker == 0xD0 + (next + 6) % 8 || 0 < marker < 0xC0
    ensures Restarted(data, lim, pos, marker, next) == Sync(true, e, 0)
  {
    hide NextMarker, Ahead;
    MarkerSought(data, lim, Fresh(pos), bytes, 0xD0 + next, e);
    assert ResyncAction(0xD0 + next, next) == 1 && ResyncAction(marker, next) == 2;
    assert Resync(data, lim, e, 0xD0 + next, next) == Sync(true, e, 0);
  }

  // ---- A scan with damaged and with missing intervals ----

  /** The entropy-coded data of successive intervals, stuffed, each behind the restart marker that ends the interval
      before it; of a missing interval neither data nor marker is left. */
  ghost function PieceBytes(pieces: seq<Option<seq<nat>>>): seq<nat> {
    if pieces == [] then []
    else
      var n := |pieces| - 1;
      var front := PieceBytes(pieces[..n]);
      match pieces[n]
      case None => front
      case Some(piece) => (if n == 0 then [] else front + [0xFF, RST0 + (n - 1) % 8]) + Stuff(piece)
  }

  /** The marker that is found when interval j should be over; m is the one behind the scan. */
  function EndMark(pieces: seq<Option<seq<nat>>>, j: nat, m: nat): nat
    decreases |pieces| - j
  {
    if j + 1 >= |pieces| then m
    else if pieces[j + 1].Some? then RST0 + j % 8
    else EndMark(pieces, j + 1, m)
  }

  lemma {:induction false} EndMarkFront(pieces: seq<Option<seq<nat>>>, j: nat, m: nat)
    requires j + 1 < |pieces|
    ensures var n := |pieces| - 1;
      EndMark(pieces, j, m) == EndMark(pieces[..n], j, if pieces[n].Some? then RST0 + (n - 1) % 8 else m)
    decreases |pieces| - j
  {
    if j + 2 < |pieces| && pieces[j + 1].None? { EndMarkFront(pieces, j + 1, m); }
  }

  /** The data of interval j, or what precedes it, and the marker behind it. */
  lemma {:induction false} PieceIn(pieces: seq<Option<seq<nat>>>, m: nat, j: nat)
    requires j < |pieces|
    ensures var all, front := PieceBytes(pieces) + [0xFF, m], PieceBytes(pieces[..j + 1]);
      |front| + 2 <= |all| && all[..|front| + 2] == front + [0xFF, EndMark(pieces, j, m)]
    decreases |pieces|
  {
    hide Stuff;
    var n := |pieces| - 1;
    if j == n {
      assert pieces[..j + 1] == pieces;
    } else {
      var q, m' := pieces[..n], if pieces[n].Some? then RST0 + (n - 1) % 8 else m;
      PieceIn(q, m', j);
      EndMarkFront(pieces, j, m);
      assert q[..j + 1] == pieces[..j + 1];
      assert PieceBytes(q) + [0xFF, m'] <= PieceBytes(pieces) + [0xFF, m];
    }
  }

  /** The MCUs that were coded, the blocks to decode into, and the input: at `pos` it holds a piece of entropy-coded
      data for each restart interval that is not missing, then marker m. */
  datatype Damaged = Damaged(scan: Scan, tabs: seq<Tab>, mcus: seq<seq<Block>>, bss: seq<seq<Block>>,
                             pieces: seq<Option<seq<nat>>>, data: seq<nat>, lim: nat, pos: nat, m: nat)
  {
    ghost predicate Ok()
      ensures Ok() ==> |pieces| > 0
    {
      && scan.Ok() && scan.ri > 0 && Mcus(scan, mcus) && AllFit(scan, mcus) && Paired(scan, mcus, bss)
      && TabsOk(scan, tabs) && Bytes(data) && lim <= |data| && 0 < m < 0xFF
      && |pieces| == |Segments(scan, mcus)|
      && (forall j :: 0 <= j < |pieces| && pieces[j].Some? ==> ByteVals(pieces[j].value))
      && (forall j :: 0 <= j < |pieces| ==> AllEmittable(tabs, Segments(scan, mcus)[j]))
      && pieces[0].Some? && (forall j :: 0 <= j < |pieces| - 1 && pieces[j + 1].None? ==> Bridged(j))
      && (var all := PieceBytes(pieces) + [0xFF, m]; pos + |all| <= lim && data[pos..pos + |all|] == all)
    }

    /** Of the intervals after j no more than two in a row are missing, or all are, before a marker that can follow a
        scan and is no restart marker. */
    ghost predicate Bridged(j: nat) {
      || (j + 2 < |pieces| && pieces[j + 2].Some?)
      || (j + 3 < |pieces| && pieces[j + 3].Some?)
      || ((0xC0 <= m < 0xD0 || m > 0xD7) && forall i :: j < i < |pieces| ==> pieces[i].None?)
    }

    /** The piece is what the encoder wrote for interval j. */
    ghost predicate Intact(j: nat)
      requires scan.Ok() && Mcus(scan, mcus) && |pieces| == |Segments(scan, mcus)|
    {
      j < |pieces| && pieces[j] == Some(Pack(Pad(Flatten(tabs, Segments(scan, mcus)[j]))))
    }

    ghost function From(j: nat): nat
      requires j < |pieces|
    {
      pos + |PieceBytes(pieces[..j])| + if j == 0 then 0 else 2
    }

    ghost function Until(j: nat): nat
      requires j < |pieces|
    {
      pos + |PieceBytes(pieces[..j + 1])| + 2
    }

    function Mark(j: nat): nat {
      EndMark(pieces, j, m)
    }

    /** The same scan without damage. */
    ghost function Whole(): Job
      requires scan.Ok() && Mcus(scan, mcus)
    {
      var all := ScanBytes(tabs, Segments(scan, mcus)) + [0xFF, m];
      Job(scan, tabs, mcus, bss, all, |all|, 0, m)
    }
  }

  lemma WholeOk(dm: Damaged)
    requires dm.Ok()
    ensures dm.scan.Ok() && Mcus(dm.scan, dm.mcus) && dm.Whole().Ok()
  {
    hide ScanBytes, Segments, AllFit, Paired, AllEmittable, TabsOk, PieceBytes, Stuff, Damaged.Bridged;
    var segs := dm.Whole().Segs();
    ScanCodec.ScanAreBytes(dm.tabs, segs);
    var all := ScanBytes(dm.tabs, segs) + [0xFF, dm.m];
    assert all[0..0 + |all|] == all;
  }

  lemma {:induction false} MarkRange(pieces: seq<Option<seq<nat>>>, j: nat, m: nat)
    requires 0 < m < 0xFF
    ensures 0 < EndMark(pieces, j, m) < 0xFF
    decreases |pieces| - j
  {
    if j + 1 < |pieces| { MarkRange(pieces, j + 1, m); }
  }

  /** The end of interval j in the input, and its data if it is there. */
  lemma PieceAt(dm: Damaged, j: nat)
    requires dm.Ok() && j < |dm.pieces|
    ensures dm.Until(j) <= dm.lim <= |dm.data| && 0 < dm.Mark(j) < 0xFF
    ensures dm.pieces[j].Some? ==> (
      dm.From(j) <= dm.Until(j)
      && dm.data[dm.From(j)..dm.Until(j)] == Stuff(dm.pieces[j].value) + [0xFF, dm.Mark(j)])
  {
    hide Segments, AllFit, Paired, AllEmittable, TabsOk, Stuff, Bytes, ByteVals, Damaged.Bridged, PieceBytes, EndMark;
    PieceIn(dm.pieces, dm.m, j);
    MarkRange(dm.pieces, j, dm.m);
    var all := PieceBytes(dm.pieces) + [0xFF, dm.m];
    if dm.pieces[j].Some? {
      PieceSlice(dm.pieces, dm.m, j);
      SubSlice(dm.data, dm.pos, |all|, dm.From(j) - dm.pos, dm.Until(j) - dm.pos);
    }
  }

  lemma {:induction false} PieceSlice(pieces: seq<Option<seq<nat>>>, m: nat, j: nat)
    requires j < |pieces| && pieces[j].Some?
    ensures var all := PieceBytes(pieces) + [0xFF, m];
      var a, b := |PieceBytes(pieces[..j])| + (if j == 0 then 0 else 2), |PieceBytes(pieces[..j + 1])| + 2;
      a <= b <= |all| && all[a..b] == Stuff(pieces[j].value) + [0xFF, EndMark(pieces, j, m)]
  {
    hide Stuff, EndMark, PieceBytes;
    PieceIn(pieces, m, j);
    var before := LastPiece(pieces, j);
    EndSlice(PieceBytes(pieces) + [0xFF, m], before, Stuff(pieces[j].value), [0xFF, EndMark(pieces, j, m)]);
  }

  lemma LastPiece(pieces: seq<Option<seq<nat>>>, j: nat) returns (before: seq<nat>)
    requires j < |pieces| && pieces[j].Some?
    ensures PieceBytes(pieces[..j + 1]) == before + Stuff(pieces[j].value)
    ensures |before| == |PieceBytes(pieces[..j])| + if j == 0 then 0 else 2
  {
    hide Stuff;
    assert pieces[..j + 1][..j] == pieces[..j];
    before := if j == 0 then [] else PieceBytes(pieces[..j]) + [0xFF, RST0 + (j - 1) % 8];
  }

  lemma EndSlice(all: seq<nat>, a: seq<nat>, s: seq<nat>, t: seq<nat>)
    requires |a + s| + |t| <= |all| && all[..|a + s| + |t|] == a + s + t
    ensures all[|a|..|a + s| + |t|] == s + t
  {
    assert all[|a|..|a + s| + |t|] == all[..|a + s| + |t|][|a|..];
  }

  /** What follows interval j: the next one behind its marker, or the marker of a later one. */
  lemma NextPiece(dm: Damaged, j: nat)
    requires dm.Ok() && j + 1 < |dm.pieces|
    ensures dm.pieces[j + 1].Some? ==> dm.From(j + 1) == dm.Until(j) && dm.Mark(j) == RST0 + j % 8
    ensures dm.pieces[j + 1].None? ==> dm.Until(j + 1) == dm.Until(j) && dm.Mark(j + 1) == dm.Mark(j)
    ensures dm.pieces[j + 1].None? ==>
      dm.Mark(j) == 0xD0 + (j + 1) % 8 || dm.Mark(j) == 0xD0 + (j + 2) % 8 || 0xC0 <= dm.Mark(j) < 0xD0
        || dm.Mark(j) > 0xD7
  {
    hide Segments, AllFit, Paired, AllEmittable, TabsOk, Stuff, Bytes, ByteVals;
    assert dm.pieces[..j + 2][..j + 1] == dm.pieces[..j + 1];
    if dm.pieces[j + 1].None? {
      assert dm.Bridged(j);
      if j + 2 < |dm.pieces| {
        assert EndMark(dm.pieces, j + 1, dm.m) ==
          if dm.pieces[j + 2].Some? then RST0 + (j + 1) % 8 else EndMark(dm.pieces, j + 2, dm.m);
      }
      assert j + 3 < |dm.pieces| && dm.pieces[j + 3].Some? ==> EndMark(dm.pieces, j + 2, dm.m) == RST0 + (j + 2) % 8;
      if forall i :: j < i < |dm.pieces| ==> dm.pieces[i].None? { NothingLeft(dm.pieces, j, dm.m); }
    }
  }

  lemma {:induction false} NothingLeft(pieces: seq<Option<seq<nat>>>, j: nat, m: nat)
    requires forall i :: j < i < |pieces| ==> pieces[i].None?
    ensures EndMark(pieces, j, m) == m
    decreases |pieces| - j
  {
    if j + 1 < |pieces| { NothingLeft(pieces, j + 1, m); }
  }

  /** At the start of an interval whose data is there. */
  lemma PieceAhead(dm: Damaged, j: nat)
    requires dm.Ok() && j < |dm.pieces| && dm.pieces[j].Some?
    ensures Ahead(dm.data, Fresh(dm.From(j)), dm.pieces[j].value, dm.Mark(j), dm.Until(j))
  {
    hide Segments, AllFit, Paired, AllEmittable, TabsOk, Stuff, Bytes, PieceBytes, EndMark, Damaged.Bridged;
    PieceAt(dm, j);
  }

  /** At the start of an intact interval its bits are to come. */
  lemma IntactHolds(dm: Damaged, j: nat)
    requires dm.Ok() && j < |dm.pieces| && dm.Intact(j)
    ensures var job := dm.Whole();
      && j < |job.Segs()| && dm.pieces[j].Some?
      && Holds(dm.data, dm.tabs, Fresh(dm.From(j)), job.Segs()[j], job.Padding(j), dm.pieces[j].value, dm.Mark(j),
               dm.Until(j))
  {
    hide Segments, AllFit, Paired, AllEmittable, TabsOk, Stuff, Bytes, PieceBytes, EndMark, Flatten, Pack, Pad, Ahead,
         Damaged.Bridged;
    PieceAhead(dm, j);
    var bits := Pad(Flatten(dm.tabs, Segments(dm.scan, dm.mcus)[j]));
    UnpackPack(bits);
    assert [] + Unpack(dm.pieces[j].value) == bits;
  }

  // ---- Decoding it ----

  /** Where MCU i lies: in interval i / ri. */
  lemma {:induction false} Place<T>(ri: nat, s: seq<T>, i: nat)
    requires ri > 0 && i <= |s|
    ensures var sp := SplitAt(ri, s[..i]);
      if i == 0 then |sp.closed| == |sp.current| == 0
      else |sp.closed| == (i - 1) / ri && |sp.current| == (i - 1) % ri + 1
  {
    if i > 0 {
      Place(ri, s, i - 1);
      assert s[..i][..i - 1] == s[..i - 1];
      if i > 1 { NextQuotient(i - 2, ri); } else { FirstQuotient(ri); }
    }
  }

  lemma FirstQuotient(ri: nat)
    requires ri > 0
    ensures 0 / ri == 0 && 0 % ri == 0
  {}

  lemma NextQuotient(a: nat, ri: nat)
    requires ri > 0
    ensures if a % ri + 1 == ri then (a + 1) / ri == a / ri + 1 && (a + 1) % ri == 0
            else (a + 1) / ri == a / ri && (a + 1) % ri == a % ri + 1
  {
    var q, r := a / ri, a % ri;
    assert a == q * ri + r;
    if r + 1 == ri {
      assert a + 1 == (q + 1) * ri;
      DivMod(q + 1, ri, 0);
    } else {
      DivMod(q, ri, r + 1);
    }
  }

  /** The decoder after k MCUs of interval j; in step with the token-level decoder if the interval is intact. */
  ghost predicate Standing(dm: Damaged, j: nat, k: nat, d: Dec, o: SegOut, bytes: seq<nat>)
    requires dm.Ok() && j < |dm.pieces|
  {
    var job := dm.Whole();
    && DecOk(dm.scan, d) && d.next == j % 8 && k <= dm.scan.ri && d.togo == dm.scan.ri - k
    && Ahead(dm.data, d.rd, bytes, dm.Mark(j), dm.Until(j))
    && (dm.Intact(j) ==>
        && j < |Intervals(dm.scan.ri, dm.bss)| && k <= |Intervals(dm.scan.ri, dm.bss)[j]|
        && (var y := Intervals(dm.scan.ri, dm.bss)[j][..k];
            Shaped(dm.scan, y) && DecSeg(dm.scan, y, job.Segs()[j]) == Some(o))
        && Agrees(d, o) && Holds(dm.data, dm.tabs, d.rd, o.rest, job.Padding(j), bytes, dm.Mark(j), dm.Until(j)))
  }

  /** The start of an interval. */
  lemma AtInterval(dm: Damaged, j: nat, d: Dec) returns (o: SegOut)
    requires dm.Ok() && j < |dm.pieces| && dm.pieces[j].Some?
    requires d == Dec(Fresh(dm.From(j)), 0, NoPredictions(dm.scan), dm.scan.ri, j % 8)
    ensures Standing(dm, j, 0, d, o, dm.pieces[j].value)
  {
    hide Segments, AllFit, Paired, AllEmittable, TabsOk, Stuff, Bytes, PieceBytes, EndMark, Damaged.Bridged, Flatten,
         Pack, Pad, Ahead,
         ScanBytes, Holds, Intervals;
    var job := dm.Whole();
    WholeOk(dm);
    JobShape(job);
    PieceAhead(dm, j);
    o := SegOut(0, NoPredictions(dm.scan), [], job.Segs()[j]);
    if dm.Intact(j) {
      IntactHolds(dm, j);
      var y := Intervals(dm.scan.ri, dm.bss)[j];
      assert y[..0] == [];
    }
  }

  /** Restart processing before the first MCU of an interval. */
  lemma NextStart(dm: Damaged, j: nat, d: Dec, o: SegOut, bytes: seq<nat>)
    returns (d1: Dec, o1: SegOut, bytes1: seq<nat>)
    requires dm.Ok() && j + 1 < |dm.pieces| && Standing(dm, j, dm.scan.ri, d, o, bytes)
    ensures BeginDecode(dm.scan, dm.data, dm.lim, d) == (true, d1)
    ensures Standing(dm, j + 1, 0, d1, o1, bytes1)
  {
    hide Damaged.Ok, Standing, BeginDecode;
    Finished(dm, j, d, o, bytes);
    if dm.pieces[j + 1].Some? {
      d1, o1 := StartsThere(dm, j, d, o, bytes);
      bytes1 := dm.pieces[j + 1].value;
    } else {
      d1 := StartsEmpty(dm, j, d, o, bytes);
      o1, bytes1 := o, [];
    }
  }

  /** At the end of an interval, whether or not its data was there. */
  lemma Finished(dm: Damaged, j: nat, d: Dec, o: SegOut, bytes: seq<nat>)
    requires dm.Ok() && j < |dm.pieces| && Standing(dm, j, dm.scan.ri, d, o, bytes)
    ensures DecOk(dm.scan, d) && dm.scan.ri > 0 && d.togo == 0 && dm.Until(j) <= dm.lim <= |dm.data|
    ensures Ahead(dm.data, d.rd, bytes, dm.Mark(j), dm.Until(j)) && d.next == j % 8
  {
    hide Segments, AllFit, Paired, AllEmittable, TabsOk, Stuff, Bytes, PieceBytes, EndMark, Damaged.Bridged, Ahead,
         Holds,
         Intervals;
    PieceAt(dm, j);
  }

  lemma StartsThere(dm: Damaged, j: nat, d: Dec, o: SegOut, bytes: seq<nat>) returns (d1: Dec, o1: SegOut)
    requires dm.Ok() && j + 1 < |dm.pieces| && Standing(dm, j, dm.scan.ri, d, o, bytes) && dm.pieces[j + 1].Some?
    ensures dm.lim <= |dm.data| && BeginDecode(dm.scan, dm.data, dm.lim, d) == (true, d1)
    ensures Standing(dm, j + 1, 0, d1, o1, dm.pieces[j + 1].value)
  {
    hide Damaged.Ok, Standing, BeginDecode, Ahead, Damaged.Mark, Damaged.Until, Damaged.From;
    Finished(dm, j, d, o, bytes);
    NextPiece(dm, j);
    Recovers(dm.scan, dm.data, dm.lim, d, bytes, dm.Mark(j), dm.Until(j));
    d1 := BeginDecode(dm.scan, dm.data, dm.lim, d).1;
    o1 := AtInterval(dm, j + 1, d1);
  }

  lemma StartsEmpty(dm: Damaged, j: nat, d: Dec, o: SegOut, bytes: seq<nat>) returns (d1: Dec)
    requires dm.Ok() && j + 1 < |dm.pieces| && Standing(dm, j, dm.scan.ri, d, o, bytes) && dm.pieces[j + 1].None?
    ensures dm.lim <= |dm.data| && BeginDecode(dm.scan, dm.data, dm.lim, d) == (true, d1)
    ensures Standing(dm, j + 1, 0, d1, o, [])
  {
    hide Damaged.Ok, Standing, BeginDecode, Ahead, Damaged.Mark, Damaged.Until, Damaged.From;
    Finished(dm, j, d, o, bytes);
    NextPiece(dm, j);
    KeepsMarker(dm.scan, dm.data, dm.lim, d, bytes, dm.Mark(j), dm.Until(j));
    d1 := BeginDecode(dm.scan, dm.data, dm.lim, d).1;
    EmptyStanding(dm, j + 1, d1, o);
  }

  lemma EmptyStanding(dm: Damaged, j: nat, d: Dec, o: SegOut)
    requires dm.Ok() && j < |dm.pieces| && dm.pieces[j].None?
    requires DecOk(dm.scan, d) && d.next == j % 8 && d.togo == dm.scan.ri
    requires Ahead(dm.data, d.rd, [], dm.Mark(j), dm.Until(j))
    ensures Standing(dm, j, 0, d, o, [])
  {
    hide Segments, AllFit, Paired, AllEmittable, TabsOk, Stuff, Bytes, PieceBytes, EndMark, Damaged.Bridged, Flatten,
         Pack, Pad, Ahead, ScanBytes, Holds, Intervals, DecSeg, Damaged.Whole, Damaged.Mark, Damaged.Until;
  }

  /** The next MCU of an interval, intact or not. */
  lemma BodyOf(dm: Damaged, i: nat, j: nat, k: nat, d: Dec, o: SegOut, bytes: seq<nat>)
    returns (d1: Dec, o1: SegOut, bytes1: seq<nat>)
    requires dm.Ok() && i < |dm.bss| == |dm.mcus| && |dm.bss[i]| == |dm.mcus[i]| == |dm.scan.members|
    requires j < |dm.pieces| && k < dm.scan.ri && Standing(dm, j, k, d, o, bytes)
    requires var sp1 := SplitAt(dm.scan.ri, dm.bss[..i + 1]); j == |sp1.closed| && k == |sp1.current| - 1
    ensures var r := DecodeBody(dm.scan, dm.data, dm.lim, dm.tabs, d, dm.bss[i]);
      && r.Complete? && r.dec == d1
      && (dm.Intact(j) ==> r.blocks == McuTargets(dm.scan, dm.mcus[i], dm.bss[i]))
    ensures Standing(dm, j, k + 1, d1, o1, bytes1)
  {
    hide Segments, AllFit, Paired, AllEmittable, TabsOk, Stuff, Bytes, PieceBytes, EndMark, Damaged.Bridged, Flatten,
         Pack, Pad, Ahead,
         ScanBytes, Holds, Intervals, SplitAt, DecodeBody, DecNext, DecSeg, McuTargets;
    var job := dm.Whole();
    WholeOk(dm);
    PieceAt(dm, j);
    if dm.Intact(j) {
      var jj, kk := McuAt(job, i);
      JobShape(job);
      var y := Intervals(dm.scan.ri, dm.bss)[j];
      var oa, ob := TokenOutcome(job, j, k);
      o1 := ob;
      d1, bytes1 := SegmentStep(dm.scan, dm.tabs, dm.data, dm.lim, d, o, dm.bss[i], job.Padding(j), bytes, dm.Mark(j),
        dm.Until(j));
      HeldAhead(dm.data, dm.tabs, d1.rd, o1.rest, job.Padding(j), bytes1, dm.Mark(j), dm.Until(j));
    } else {
      o1 := o;
      d1, bytes1 := BodyAlways(dm.scan, dm.data, dm.lim, dm.tabs, d, dm.bss[i], bytes, dm.Mark(j), dm.Until(j));
    }
  }

  lemma HeldAhead(data: seq<nat>, tabs: seq<Tab>, rd: Rd, toks: seq<Token>, pad: seq<bool>, bytes: seq<nat>, m: nat,
                  e: nat)
    requires Holds(data, tabs, rd, toks, pad, bytes, m, e)
    ensures Ahead(data, rd, bytes, m, e)
  {}

  /** The decoder after i MCUs of the scan. */
  ghost predicate DecodedTo(dm: Damaged, i: nat, d: Dec, o: SegOut, bytes: seq<nat>)
    requires dm.Ok() && i <= |dm.bss|
  {
    var sp := SplitAt(dm.scan.ri, dm.bss[..i]);
    |sp.closed| < |dm.pieces| && Standing(dm, |sp.closed|, |sp.current|, d, o, bytes)
  }

  lemma Shapes(dm: Damaged)
    requires dm.Ok()
    ensures |dm.bss| == |dm.mcus| && Shaped(dm.scan, dm.bss) && DecOk(dm.scan, StartPass(dm.scan, dm.pos))
    ensures forall i :: 0 <= i < |dm.bss| ==> |dm.bss[i]| == |dm.mcus[i]| == |dm.scan.members|
    ensures |Intervals(dm.scan.ri, dm.bss)| == |dm.pieces|
  {
    hide Segments, AllFit, Paired, AllEmittable, TabsOk, Stuff, Bytes, PieceBytes, ScanBytes, Intervals;
    WholeOk(dm);
    JobShape(dm.Whole());
  }

  /** Before MCU i, restart processing done. */
  lemma Begin(dm: Damaged, i: nat, d: Dec, o: SegOut, bytes: seq<nat>) returns (d1: Dec, o1: SegOut, bytes1: seq<nat>)
    requires dm.Ok() && i < |dm.bss| && DecodedTo(dm, i, d, o, bytes)
    ensures BeginDecode(dm.scan, dm.data, dm.lim, d) == (true, d1)
    ensures var sp1 := SplitAt(dm.scan.ri, dm.bss[..i + 1]);
      && |sp1.closed| < |dm.pieces| && 0 < |sp1.current| <= dm.scan.ri
      && Standing(dm, |sp1.closed|, |sp1.current| - 1, d1, o1, bytes1)
  {
    hide Damaged.Ok, Damaged.Intact, Standing, BeginDecode, Intervals;
    Shapes(dm);
    assert dm.bss[..i + 1][..i] == dm.bss[..i];
    IntervalPrefix(dm.scan.ri, dm.bss, i + 1);
    var sp := SplitAt(dm.scan.ri, dm.bss[..i]);
    var j, k := |sp.closed|, |sp.current|;
    Countdown(dm, j, k, d, o, bytes);
    if k == dm.scan.ri {
      d1, o1, bytes1 := NextStart(dm, j, d, o, bytes);
    } else {
      d1, o1, bytes1 := d, o, bytes;
    }
  }

  lemma Countdown(dm: Damaged, j: nat, k: nat, d: Dec, o: SegOut, bytes: seq<nat>)
    requires dm.Ok() && j < |dm.pieces| && Standing(dm, j, k, d, o, bytes)
    ensures k <= dm.scan.ri && dm.scan.ri > 0 && d.togo == dm.scan.ri - k && dm.lim <= |dm.data|
    ensures k < dm.scan.ri ==> BeginDecode(dm.scan, dm.data, dm.lim, d) == (true, d)
  {
    hide Segments, AllFit, Paired, AllEmittable, TabsOk, Stuff, Bytes, PieceBytes, EndMark, Damaged.Bridged, Ahead,
         Holds, Intervals,
         ProcessRestart;
  }

  /** Decoding MCU i in state d gives these blocks and leads to state d1. */
  ghost predicate DecodesTo(dm: Damaged, i: nat, d: Dec, d1: Dec, blocks: seq<Block>) {
    && dm.lim <= |dm.data| && Bytes(dm.data) && DecOk(dm.scan, d) && TabsOk(dm.scan, dm.tabs)
    && i < |dm.bss| && |dm.bss[i]| == |dm.scan.members|
    && DecodeMcu(dm.scan, dm.data, dm.lim, dm.tabs, d, dm.bss[i]) == Complete(d1, blocks)
  }

  /** The restart interval of MCU i. */
  function IntervalOf(ri: nat, i: nat): nat
    requires ri > 0
  {
    i / ri
  }

  /** MCU i lies in an intact interval. */
  ghost predicate Undamaged(dm: Damaged, i: nat) {
    && dm.scan.Ok() && dm.scan.ri > 0 && Mcus(dm.scan, dm.mcus) && |dm.pieces| == |Segments(dm.scan, dm.mcus)|
    && dm.Intact(IntervalOf(dm.scan.ri, i))
  }

  /** These are the blocks of MCU i as they were coded, down to the bit that the scan sends. */
  ghost predicate Back(dm: Damaged, i: nat, blocks: seq<Block>) {
    && i < |dm.mcus| == |dm.bss| && |dm.mcus[i]| == |dm.bss[i]|
    && blocks == McuTargets(dm.scan, dm.mcus[i], dm.bss[i])
  }

  /** One MCU: it suspends in no case, and restores its blocks if its interval is intact. */
  lemma OneMcuOf(dm: Damaged, i: nat, d: Dec, o: SegOut, bytes: seq<nat>)
    returns (d1: Dec, blocks: seq<Block>, o1: SegOut, bytes1: seq<nat>)
    requires dm.Ok() && i < |dm.bss| && DecodedTo(dm, i, d, o, bytes)
    ensures DecodesTo(dm, i, d, d1, blocks) && (Undamaged(dm, i) ==> Back(dm, i, blocks))
    ensures DecodedTo(dm, i + 1, d1, o1, bytes1)
  {
    hide Segments, AllFit, Paired, AllEmittable, TabsOk, Stuff, Bytes, PieceBytes, EndMark, Damaged.Bridged, Flatten,
         Pack, Pad, Ahead,
         ScanBytes, Holds, Intervals, SplitAt, DecodeBody, BeginDecode, McuTargets, Damaged.Intact;
    Shapes(dm);
    var d0, o0, b0 := Begin(dm, i, d, o, bytes);
    var sp1 := SplitAt(dm.scan.ri, dm.bss[..i + 1]);
    Place(dm.scan.ri, dm.bss, i + 1);
    d1, o1, bytes1 := BodyOf(dm, i, |sp1.closed|, |sp1.current| - 1, d0, o0, b0);
    blocks := DecodeBody(dm.scan, dm.data, dm.lim, dm.tabs, d0, dm.bss[i]).blocks;
  }

  /** Decoding the first i MCUs gives so. */
  ghost predicate DecodesAll(dm: Damaged, i: nat, so: ScanOut) {
    && dm.lim <= |dm.data| && Bytes(dm.data) && dm.scan.Ok() && TabsOk(dm.scan, dm.tabs)
    && DecOk(dm.scan, StartPass(dm.scan, dm.pos)) && i <= |dm.bss| && Shaped(dm.scan, dm.bss[..i])
    && DecodeAll(dm.scan, dm.data, dm.lim, dm.tabs, StartPass(dm.scan, dm.pos), dm.bss[..i]) == Some(so)
  }

  lemma NextOf(dm: Damaged, i: nat, so: ScanOut, d1: Dec, blocks: seq<Block>)
    requires DecodesAll(dm, i, so) && DecodesTo(dm, i, so.dec, d1, blocks)
    ensures DecodesAll(dm, i + 1, ScanOut(d1, so.outs + [blocks]))
  {
    hide TabsOk, Bytes, DecodeMcu;
    assert dm.bss[..i + 1][..i] == dm.bss[..i];
  }

  lemma {:induction false} DecodesOn(dm: Damaged, i: nat) returns (so: ScanOut, o: SegOut, bytes: seq<nat>)
    requires dm.Ok() && i <= |dm.bss|
    ensures DecodesAll(dm, i, so) && DecodedTo(dm, i, so.dec, o, bytes) && |so.outs| == i
    ensures forall k :: 0 <= k < i && Undamaged(dm, k) ==> Back(dm, k, so.outs[k])
    decreases i
  {
    hide Segments, AllFit, Paired, AllEmittable, TabsOk, Stuff, Bytes, PieceBytes, McuTargets, Damaged.Intact,
         DecodedTo,
         DecodesTo, Undamaged, Back;
    if i == 0 {
      Shapes(dm);
      o, bytes := AtFirst(dm);
      so := ScanOut(StartPass(dm.scan, dm.pos), []);
    } else {
      hide DecodesAll, Damaged.Ok;
      var so0, o0, b0 := DecodesOn(dm, i - 1);
      var d1, blocks;
      d1, blocks, o, bytes := OneMcuOf(dm, i - 1, so0.dec, o0, b0);
      NextOf(dm, i - 1, so0, d1, blocks);
      so := ScanOut(d1, so0.outs + [blocks]);
    }
  }

  lemma AtFirst(dm: Damaged) returns (o: SegOut, bytes: seq<nat>)
    requires dm.Ok()
    ensures DecodedTo(dm, 0, StartPass(dm.scan, dm.pos), o, bytes)
  {
    hide Segments, AllFit, Paired, AllEmittable, TabsOk, Stuff, Bytes, Standing, Damaged.Bridged;
    assert PieceBytes(dm.pieces[..0]) == [];
    o := AtInterval(dm, 0, StartPass(dm.scan, dm.pos));
    bytes := dm.pieces[0].value;
    assert dm.bss[..0] == [];
  }

  /** Whatever bytes stand in place of those of some intervals, between their restart markers, and even if intervals are
      missing, no more than two in a row: the scan decodes to its end, and every MCU of every intact interval comes back
      as it was coded. */
  lemma DamageIsConfined(dm: Damaged) returns (so: ScanOut)
    requires dm.Ok()
    ensures DecodesAll(dm, |dm.mcus|, so) && |so.outs| == |dm.mcus| == |dm.bss|
    ensures forall i :: 0 <= i < |dm.mcus| && Undamaged(dm, i) ==> Back(dm, i, so.outs[i])
  {
    hide Damaged.Ok, Undamaged, Back, DecodesAll;
    Shapes(dm);
    var o, bytes;
    so, o, bytes := DecodesOn(dm, |dm.bss|);
  }

  /** Once the data of an interval is used up, the decoder leaves the blocks of its remaining MCUs as they are, except
      in DC refinement scans, where missing bits are zeros and change nothing. */
  lemma NothingDecoded(scan: Scan, data: seq<nat>, lim: nat, tabs: seq<Tab>, d: Dec, bs: seq<Block>)
    requires DecOk(scan, d) && |bs| == |scan.members| && TabsOk(scan, tabs) && lim <= |data| && Bytes(data)
    requires d.rd.dry && scan.mode != DcRefine && (scan.ri > 0 ==> d.togo > 0)
    ensures var r := DecodeMcu(scan, data, lim, tabs, d, bs);
      r.Complete? && r.blocks == bs && r.dec.rd == d.rd && r.dec.next == d.next && r.dec.last == d.last
  {
    hide RunRd, TabsOk, Bytes;
  }
}
