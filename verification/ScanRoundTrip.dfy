/** A whole scan, with restart intervals: the bytes that the encoder writes, followed by any
    marker, decode to the blocks that were coded. */
module ScanRoundTrip {
  import opened Coefficients
  import opened HuffmanTables
  import opened BitWriter
  import opened BitReader
  import opened BitChannel
  import opened Coding
  import opened Decoding
  import opened TokenRoundTrip
  import opened SegmentRoundTrip
  import opened TokenBits
  import opened McuDecoding

  // ---- Restart intervals ----

  /** The complete restart intervals of a sequence of MCUs, and the one in progress. */
  datatype Split<T> = Split(closed: seq<seq<T>>, current: seq<T>)

  function SplitAt<T>(ri: nat, s: seq<T>): (r: Split<T>)
    ensures ri > 0 ==> |r.current| <= ri && (forall i :: 0 <= i < |r.closed| ==> |r.closed[i]| == ri)
    ensures ri == 0 ==> r == Split([], s)
  {
    if s == [] then Split([], [])
    else
      var before := SplitAt(ri, s[..|s| - 1]);
      var x := s[|s| - 1];
      if ri > 0 && |before.current| == ri then Split(before.closed + [before.current], [x])
      else (assert s == s[..|s| - 1] + [x]; Split(before.closed, before.current + [x]))
  }

  /** All intervals, the last one possibly short. */
  function Intervals<T>(ri: nat, s: seq<T>): (r: seq<seq<T>>)
    ensures |r| > 0
  {
    SplitAt(ri, s).closed + [SplitAt(ri, s).current]
  }

  /** The tokens of one restart interval, its end-of-band run written out. */
  function ClosedSegment(scan: Scan, mcus: seq<seq<Block>>): seq<Token>
    requires scan.Ok() && Mcus(scan, mcus)
  {
    Flush(scan, SegRun(scan, mcus)).cur
  }

  ghost predicate AllMcus(scan: Scan, chunks: seq<seq<seq<Block>>>) {
    forall i :: 0 <= i < |chunks| ==> Mcus(scan, chunks[i])
  }

  /** The encoder state is the closed segments plus the state within the current interval. */
  ghost predicate RunIs(scan: Scan, st: EncSt, sp: Split<seq<Block>>)
    requires scan.Ok()
  {
    && AllMcus(scan, sp.closed) && Mcus(scan, sp.current)
    && |st.segs| == |sp.closed|
    && (forall i :: 0 <= i < |st.segs| ==> st.segs[i] == ClosedSegment(scan, sp.closed[i]))
    && (var s := SegRun(scan, sp.current); st.cur == s.cur && st.n == s.n && st.be == s.be && st.last == s.last)
    && (scan.ri > 0 ==> st.togo == scan.ri - |sp.current|)
  }

  /** A restart happens exactly at the start of a new interval. */
  lemma {:induction false} RunSplits(scan: Scan, mcus: seq<seq<Block>>)
    requires scan.Ok() && Mcus(scan, mcus)
    ensures RunIs(scan, Run(scan, mcus), SplitAt(scan.ri, mcus))
  {
    hide Body, Flush;
    if mcus != [] {
      var n := |mcus| - 1;
      RunSplits(scan, mcus[..n]);
      var before, sp := Run(scan, mcus[..n]), SplitAt(scan.ri, mcus[..n]);
      SegRunBounded(scan, sp.current);
      if scan.ri > 0 && |sp.current| == scan.ri {
        RestartSplits(scan, before, sp, mcus[n]);
      } else {
        SameSplits(scan, before, sp, mcus[n]);
      }
    }
  }

  lemma {:induction false} OneMcu(scan: Scan, mcu: seq<Block>)
    requires scan.Ok() && Mcus(scan, [mcu])
    ensures SegRun(scan, [mcu]) == Body(scan, Start(scan), mcu)
  {
    hide Body;
    assert [mcu][..0] == [];
  }

  lemma SameSplits(scan: Scan, before: EncSt, sp: Split<seq<Block>>, mcu: seq<Block>)
    requires scan.Ok() && Mcus(scan, [mcu]) && RunIs(scan, before, sp) && |before.last| == scan.ncomps
      && |mcu| == |scan.members|
    requires scan.ri > 0 ==> |sp.current| < scan.ri
    ensures RunIs(scan, Encode(scan, before, mcu), Split(sp.closed, sp.current + [mcu]))
  {
    hide Flush, ClosedSegment, RunTable;
    assert [mcu][0] == mcu;
    var cur := sp.current + [mcu];
    assert cur[..|cur| - 1] == sp.current;
    BodyFrame(scan, before, SegRun(scan, sp.current), mcu);
  }

  /** The body of the encoder looks only at the current segment. */
  lemma BodyFrame(scan: Scan, a: EncSt, b: EncSt, mcu: seq<Block>)
    requires scan.Ok() && |mcu| == |scan.members| && |a.last| == scan.ncomps
    requires a.cur == b.cur && a.n == b.n && a.be == b.be && a.last == b.last
    ensures var x, y := Body(scan, a, mcu), Body(scan, b, mcu);
      x.cur == y.cur && x.n == y.n && x.be == y.be && x.last == y.last && x.segs == a.segs && x.togo == a.togo
  {
    hide BandOf, McuToks, RunToks, RunTable;
  }

  lemma RestartSplits(scan: Scan, before: EncSt, sp: Split<seq<Block>>, mcu: seq<Block>)
    requires scan.Ok() && Mcus(scan, [mcu]) && RunIs(scan, before, sp) && |before.last| == scan.ncomps
      && |mcu| == |scan.members|
    requires scan.ri > 0 && |sp.current| == scan.ri
    ensures RunIs(scan, Encode(scan, before, mcu), Split(sp.closed + [sp.current], [mcu]))
  {
    hide Body, RunToks, RunTable;
    assert [mcu][0] == mcu;
    OneMcu(scan, mcu);
    var r := Restart(scan, before);
    assert r.segs == before.segs + [ClosedSegment(scan, sp.current)];
    BodyFrame(scan, r, Start(scan), mcu);
  }

  /** The segments of a scan are the closed intervals. */
  lemma SegmentsAre(scan: Scan, mcus: seq<seq<Block>>)
    requires scan.Ok() && Mcus(scan, mcus)
    ensures var ch := Intervals(scan.ri, mcus);
      && AllMcus(scan, ch) && |Segments(scan, mcus)| == |ch|
      && forall i :: 0 <= i < |ch| ==> Segments(scan, mcus)[i] == ClosedSegment(scan, ch[i])
  {
    hide RunToks, RunTable, SegRun, Run;
    RunSplits(scan, mcus);
  }

  /** If no MCU of the scan is out of range, none of any interval is. */
  lemma {:induction false} FitsSplits(scan: Scan, mcus: seq<seq<Block>>)
    requires scan.Ok() && Mcus(scan, mcus) && AllFit(scan, mcus)
    ensures AllMcus(scan, Intervals(scan.ri, mcus))
    ensures forall i :: 0 <= i < |Intervals(scan.ri, mcus)| ==> SegFits(scan, Intervals(scan.ri, mcus)[i])
  {
    hide Body, BodyFits, Flush, SegRun, Run;
    SegmentsAre(scan, mcus);
    if mcus != [] {
      var n := |mcus| - 1;
      FitsSplits(scan, mcus[..n]);
      RunSplits(scan, mcus[..n]);
      var before, ch := Intervals(scan.ri, mcus[..n]), Intervals(scan.ri, mcus);
      var sp := SplitAt(scan.ri, mcus[..n]);
      assert before[|before| - 1] == sp.current;
      LastFits(scan, Run(scan, mcus[..n]), sp, mcus[n]);
      forall i | 0 <= i < |ch| ensures SegFits(scan, ch[i]) {
        if i < |ch| - 1 { assert ch[i] == before[i]; }
      }
    }
  }

  lemma {:induction false} LastFits(scan: Scan, before: EncSt, sp: Split<seq<Block>>, mcu: seq<Block>)
    requires scan.Ok() && Mcus(scan, [mcu]) && RunIs(scan, before, sp) && |before.last| == scan.ncomps
      && |mcu| == |scan.members|
    requires Encodable(scan, before, mcu) && SegFits(scan, sp.current)
    ensures var cur := if scan.ri > 0 && |sp.current| == scan.ri then [mcu] else sp.current + [mcu];
      Mcus(scan, cur) && SegFits(scan, cur)
  {
    hide Body, Flush, BlockFits, McuFits, ClosedSegment;
    assert [mcu][0] == mcu;
    if scan.ri > 0 && |sp.current| == scan.ri {
      assert [mcu][..0] == [];
      assert SegRun(scan, []) == Start(scan);
    } else {
      var cur := sp.current + [mcu];
      assert cur[..|cur| - 1] == sp.current;
    }
  }

  // ---- The bytes of a scan ----

  /** The closed segments, each with the restart marker that follows it. */
  ghost function ClosedBytes(tabs: seq<Tab>, segs: seq<seq<Token>>): seq<nat> {
    if segs == [] then []
    else
      var n := |segs| - 1;
      ClosedBytes(tabs, segs[..n]) + (Seal(Flatten(tabs, segs[n])) + [0xFF, RST0 + n % 8])
  }

  /** Everything an encoder writes for a scan. */
  ghost function ScanBytes(tabs: seq<Tab>, segs: seq<seq<Token>>): seq<nat>
    requires |segs| > 0
  {
    var n := |segs| - 1;
    ClosedBytes(tabs, segs[..n]) + Seal(Flatten(tabs, segs[n]))
  }

  lemma {:induction false} ClosedPrefix(tabs: seq<Tab>, segs: seq<seq<Token>>, j: nat)
    requires j <= |segs|
    ensures ClosedBytes(tabs, segs[..j]) <= ClosedBytes(tabs, segs)
    decreases |segs|
  {
    hide Seal, Flatten;
    if j == |segs| {
      assert segs[..j] == segs;
    } else {
      var n := |segs| - 1;
      ClosedPrefix(tabs, segs[..n], j);
      assert segs[..n][..j] == segs[..j];
    }
  }

  /** Segment j lies in the scan behind the closed segments before it, and a marker follows it. */
  function MarkerAfter(n: nat, j: nat, m: nat): nat {
    if j < n then RST0 + j % 8 else m
  }

  lemma {:induction false} SegmentAt(tabs: seq<Tab>, segs: seq<seq<Token>>, m: nat, j: nat)
    requires j < |segs|
    ensures var all := ScanBytes(tabs, segs) + [0xFF, m];
      var a := |ClosedBytes(tabs, segs[..j])|;
      var s := Seal(Flatten(tabs, segs[j])) + [0xFF, MarkerAfter(|segs| - 1, j, m)];
      && a + |s| <= |all| && all[a..a + |s|] == s
      && (j < |segs| - 1 ==> |ClosedBytes(tabs, segs[..j + 1])| == a + |s|)
      && (j == |segs| - 1 ==> |all| == a + |s|)
  {
    hide Seal, Flatten;
    var n := |segs| - 1;
    var all := ScanBytes(tabs, segs) + [0xFF, m];
    var before, body := ClosedBytes(tabs, segs[..j]), Seal(Flatten(tabs, segs[j]));
    var s := body + [0xFF, MarkerAfter(n, j, m)];
    if j == n {
      assert all == before + s;
    } else {
      assert segs[..n][..j + 1] == segs[..j + 1] && segs[..j + 1][..j] == segs[..j];
      ClosedPrefix(tabs, segs[..n], j + 1);
      assert ClosedBytes(tabs, segs[..j + 1]) == before + s;
      hide ClosedBytes;
      var front := ClosedBytes(tabs, segs[..j + 1]);
      assert front <= all;
      assert all[..|front|] == front;
      assert all[|before|..|front|] == front[|before|..];
    }
  }

  // ---- Decoding it ----

  /** A scan to code and to decode: MCUs, the blocks to decode into, the input with the scan at
      `pos` and the marker m behind it, and the limit of the input that has arrived. */
  datatype Job = Job(scan: Scan, tabs: seq<Tab>, mcus: seq<seq<Block>>, bss: seq<seq<Block>>,
                     data: seq<nat>, lim: nat, pos: nat, m: nat)
  {
    ghost predicate Ok() {
      Coded() && Paired(scan, mcus, bss)
    }

    /** The input holds the bytes that the encoder writes for the MCUs. */
    ghost predicate Coded() {
      && scan.Ok() && Mcus(scan, mcus) && AllFit(scan, mcus)
      && TabsOk(scan, tabs) && Bytes(data) && lim <= |data| && 0 < m < 0xFF
      && (forall i :: 0 <= i < |Segs()| ==> AllEmittable(tabs, Segs()[i]))
      && (var all := ScanBytes(tabs, Segs()) + [0xFF, m];
          pos + |all| <= lim && data[pos..pos + |all|] == all)
    }

    function Segs(): (r: seq<seq<Token>>)
      requires scan.Ok() && Mcus(scan, mcus)
      ensures |r| > 0
    {
      Segments(scan, mcus)
    }

    /** Where segment j starts. */
    ghost function From(j: nat): nat
      requires scan.Ok() && Mcus(scan, mcus) && j <= |Segs()|
    {
      pos + |ClosedBytes(tabs, Segs()[..j])|
    }

    ghost function Bits(j: nat): seq<bool>
      requires scan.Ok() && Mcus(scan, mcus) && j < |Segs()|
    {
      Flatten(tabs, Segs()[j])
    }

    ghost function Padding(j: nat): (p: seq<bool>)
      requires scan.Ok() && Mcus(scan, mcus) && j < |Segs()|
      ensures |p| < 8 && Pad(Bits(j)) == Bits(j) + p
    {
      Pad(Bits(j))[|Bits(j)|..]
    }

    /** Where segment j and the marker behind it end. */
    ghost function Until(j: nat): nat
      requires scan.Ok() && Mcus(scan, mcus) && j < |Segs()|
    {
      From(j) + |Seal(Bits(j))| + 2
    }

    function Mark(j: nat): nat
      requires scan.Ok() && Mcus(scan, mcus) && j < |Segs()|
    {
      MarkerAfter(|Segs()| - 1, j, m)
    }
  }

  /** The reservoir at the start of a segment. */
  function Fresh(pos: nat): Rd {
    Rd([], pos, 0, false)
  }

  lemma SubSlice(data: seq<nat>, p: nat, n: nat, a: nat, b: nat)
    requires a <= b <= n && p + n <= |data|
    ensures data[p..p + n][a..b] == data[p + a..p + b]
  {
    var x, y := data[p..p + n][a..b], data[p + a..p + b];
    assert |x| == |y| && forall i :: 0 <= i < |x| ==> x[i] == y[i];
  }

  lemma SegmentBounds(job: Job, j: nat)
    requires job.Ok() && j < |job.Segs()|
    ensures 0 < job.Mark(j) < 0xFF && job.Until(j) <= job.lim
    ensures job.data[job.From(j)..job.Until(j)] == Seal(job.Bits(j)) + [0xFF, job.Mark(j)]
    ensures j < |job.Segs()| - 1 ==> job.From(j + 1) == job.Until(j) && job.Mark(j) == RST0 + j % 8
    ensures j == |job.Segs()| - 1 ==>
      job.Mark(j) == job.m && job.Until(j) == job.pos + |ScanBytes(job.tabs, job.Segs())| + 2
  {
    hide Seal, Flatten, ClosedBytes, ScanBytes, Segments, AllFit, Paired, TabsOk;
    SegmentAt(job.tabs, job.Segs(), job.m, j);
    var all := ScanBytes(job.tabs, job.Segs()) + [0xFF, job.m];
    var a := |ClosedBytes(job.tabs, job.Segs()[..j])|;
    var n := |Seal(job.Bits(j))| + 2;
    SubSlice(job.data, job.pos, |all|, a, a + n);
  }

  /** At the start of segment j its bits are to come. */
  lemma SegmentHolds(job: Job, j: nat) returns (bytes: seq<nat>)
    requires job.Ok() && j < |job.Segs()|
    ensures Holds(job.data, job.tabs, Fresh(job.From(j)), job.Segs()[j], job.Padding(j), bytes, job.Mark(j),
      job.Until(j))
  {
    hide Flatten, ClosedBytes, ScanBytes, Segments, AllFit, Paired, TabsOk, AllEmittable, Seal, Pad, MarkerAfter,
         Holds, Mcus;
    SegmentBounds(job, j);
    bytes := SealedHolds(job.data, job.tabs, job.Segs()[j], job.From(j), job.Until(j), job.Mark(j), job.Padding(j));
  }

  lemma SealedHolds(data: seq<nat>, tabs: seq<Tab>, toks: seq<Token>, pos: nat, e: nat, m: nat, pad: seq<bool>)
    returns (bytes: seq<nat>)
    requires pos <= e <= |data| && 0 < m < 0xFF && AllEmittable(tabs, toks)
    requires Pad(Flatten(tabs, toks)) == Flatten(tabs, toks) + pad
    requires data[pos..e] == Seal(Flatten(tabs, toks)) + [0xFF, m]
    ensures Holds(data, tabs, Fresh(pos), toks, pad, bytes, m, e)
  {
    hide Flatten, AllEmittable, Stuff, Pack, Pad, Unpack;
    var bits := Pad(Flatten(tabs, toks));
    bytes := Pack(bits);
    PackBytes(bits);
    UnpackPack(bits);
    assert [] + Unpack(bytes) == Unpack(bytes);
  }

  // ---- Matching intervals ----

  lemma {:induction false} IntervalPrefix<T>(ri: nat, s: seq<T>, i: nat)
    requires i <= |s|
    ensures var all, sp := Intervals(ri, s), SplitAt(ri, s[..i]);
      |sp.closed| < |all| && all[..|sp.closed|] == sp.closed && sp.current <= all[|sp.closed|]
    decreases |s|
  {
    if i == |s| {
      assert s[..i] == s;
    } else {
      var n := |s| - 1;
      IntervalPrefix(ri, s[..n], i);
      assert s[..n][..i] == s[..i];
      var sp, all0, all := SplitAt(ri, s[..i]), Intervals(ri, s[..n]), Intervals(ri, s);
      assert forall k :: 0 <= k < |all0| - 1 ==> all[k] == all0[k];
      assert all0[|all0| - 1] <= all[|all0| - 1];
    }
  }

  lemma {:induction false} SameShape<T, U>(ri: nat, s: seq<T>, t: seq<U>)
    requires |s| == |t|
    ensures var x, y := SplitAt(ri, s), SplitAt(ri, t); |x.closed| == |y.closed| && |x.current| == |y.current|
  {
    if s != [] { SameShape(ri, s[..|s| - 1], t[..|t| - 1]); }
  }

  lemma IntervalSize<T>(ri: nat, s: seq<T>, j: nat)
    requires ri > 0 && j < |Intervals(ri, s)|
    ensures |Intervals(ri, s)[j]| <= ri
  {}

  /** Element i of a sequence, in its interval. */
  lemma {:induction false} ElementAt<T>(ri: nat, s: seq<T>, i: nat)
    requires i < |s|
    ensures var all, sp := Intervals(ri, s), SplitAt(ri, s[..i + 1]);
      && |sp.closed| < |all| && 0 < |sp.current| <= |all[|sp.closed|]|
      && all[|sp.closed|][|sp.current| - 1] == s[i]
  {
    IntervalPrefix(ri, s, i + 1);
    var all, sp := Intervals(ri, s), SplitAt(ri, s[..i + 1]);
    assert sp.current[|sp.current| - 1] == s[i];
  }

  lemma {:induction false} PairedSplits(scan: Scan, mcus: seq<seq<Block>>, bss: seq<seq<Block>>)
    requires Paired(scan, mcus, bss)
    ensures var x, y := Intervals(scan.ri, mcus), Intervals(scan.ri, bss);
      |x| == |y| && forall j :: 0 <= j < |x| ==> Paired(scan, x[j], y[j])
  {
    hide AllReady;
    if mcus != [] {
      var n := |mcus| - 1;
      PairedSplits(scan, mcus[..n], bss[..n]);
      var x0, y0 := Intervals(scan.ri, mcus[..n]), Intervals(scan.ri, bss[..n]);
      var x, y := Intervals(scan.ri, mcus), Intervals(scan.ri, bss);
      SameShape(scan.ri, mcus[..n], bss[..n]);
      forall j | 0 <= j < |x| ensures Paired(scan, x[j], y[j]) {
        if j < |x0| - 1 { assert x[j] == x0[j] && y[j] == y0[j]; }
        else if j == |x0| - 1 { assert Paired(scan, x0[j], y0[j]); }
      }
    }
  }

  // ---- Decoding one interval ----

  /** Every interval decodes on tokens. */
  lemma ChunkDecodes(job: Job, j: nat)
    requires job.Ok() && j < |job.Segs()|
    ensures var x, y := Intervals(job.scan.ri, job.mcus), Intervals(job.scan.ri, job.bss);
      && |x| == |y| == |job.Segs()| && Mcus(job.scan, x[j]) && Shaped(job.scan, y[j])
      && Decoded(job.scan, DecSeg(job.scan, y[j], job.Segs()[j]), x[j], y[j], 0, SegRun(job.scan, x[j]).last, [])
  {
    hide Flatten, ClosedBytes, ScanBytes, TabsOk, AllEmittable, SegRun, DecSeg, Decoded, AllReady, Intervals;
    var x, y := Intervals(job.scan.ri, job.mcus), Intervals(job.scan.ri, job.bss);
    SegmentsAre(job.scan, job.mcus);
    FitsSplits(job.scan, job.mcus);
    PairedSplits(job.scan, job.mcus, job.bss);
    ChunkTokens(job.scan, x[j], y[j]);
  }

  lemma {:induction false} ChunkTokens(scan: Scan, x: seq<seq<Block>>, y: seq<seq<Block>>)
    requires scan.Ok() && Mcus(scan, x) && Paired(scan, x, y) && SegFits(scan, x)
    ensures Shaped(scan, y)
    ensures Decoded(scan, DecSeg(scan, y, ClosedSegment(scan, x)), x, y, 0, SegRun(scan, x).last, [])
  {
    hide SegRun, DecSeg, Decoded, SegFits, RunToks, RunTable;
    var st := SegRun(scan, x);
    assert Shaped(scan, y) by { PairedShaped(scan, x, y); }
    SegRunBounded(scan, x);
    SegDecodes(scan, x, y, st.n, []);
    assert Owed(scan, st, st.n) + [] == Owed(scan, st, st.n);
  }

  lemma PairedShaped(scan: Scan, x: seq<seq<Block>>, y: seq<seq<Block>>)
    requires Paired(scan, x, y)
    ensures Shaped(scan, y)
  {
    forall i | 0 <= i < |y| ensures |y[i]| == |scan.members| { assert AllReady(scan, x[i], y[i]); }
  }

  /** Decoding part of an interval. */
  lemma {:induction false} DecSegPrefix(scan: Scan, y: seq<seq<Block>>, toks: seq<Token>, k: nat)
    requires scan.Ok() && Shaped(scan, y) && k <= |y| && DecSeg(scan, y, toks).Some?
    ensures Shaped(scan, y[..k])
    ensures var o := DecSeg(scan, y[..k], toks);
      o.Some? && |o.value.outs| == k && o.value.outs <= DecSeg(scan, y, toks).value.outs
    decreases |y|
  {
    hide RunTok, Init, StOk;
    if k == |y| {
      assert y[..k] == y;
      if k > 0 { DecSegPrefix(scan, y[..k - 1], toks, k - 1); assert y[..k - 1][..k - 1] == y[..k - 1]; }
    } else {
      var n := |y| - 1;
      DecSegPrefix(scan, y[..n], toks, k);
      assert y[..n][..k] == y[..k];
    }
  }

  lemma DecSegStep(scan: Scan, y: seq<seq<Block>>, toks: seq<Token>, k: nat) returns (o: SegOut, o1: SegOut)
    requires scan.Ok() && Shaped(scan, y) && k < |y| && DecSeg(scan, y, toks).Some?
    ensures Shaped(scan, y[..k]) && Shaped(scan, y[..k + 1])
    ensures DecSeg(scan, y[..k], toks) == Some(o) && DecSeg(scan, y[..k + 1], toks) == Some(o1)
    ensures |y[k]| == |scan.members| && |o.last| == scan.ncomps && (scan.mode !in {AcFirst, AcRefine} ==> o.eobrun == 0)
    ensures DecNext(scan, o, y[k]) == Some(o1) && |o.outs| == k && k < |DecSeg(scan, y, toks).value.outs|
    ensures o1.outs == o.outs + [DecSeg(scan, y, toks).value.outs[k]]
  {
    hide RunTok, Init, StOk, DecNext;
    DecSegPrefix(scan, y, toks, k);
    DecSegPrefix(scan, y, toks, k + 1);
    o, o1 := DecSeg(scan, y[..k], toks).value, DecSeg(scan, y[..k + 1], toks).value;
    assert y[..k + 1][..k] == y[..k];
    var all := DecSeg(scan, y, toks).value.outs;
    assert o1.outs[k] == all[k] && forall i :: 0 <= i < k ==> o1.outs[i] == all[i] == o.outs[i];
  }

  /** The decoder is in step with the token-level decoder of the segment. */
  ghost predicate InStep(job: Job, d: Dec, o: SegOut, j: nat, bytes: seq<nat>)
    requires job.scan.Ok() && Mcus(job.scan, job.mcus) && j < |job.Segs()|
  {
    && DecOk(job.scan, d) && !d.rd.dry && d.next == j % 8 && d.eobrun == o.eobrun && d.last == o.last
    && Holds(job.data, job.tabs, d.rd, o.rest, job.Padding(j), bytes, job.Mark(j), job.Until(j))
  }

  /** One MCU of a segment that is followed by the given padding and by marker m, which ends at e. */
  lemma SegmentStep(scan: Scan, tabs: seq<Tab>, data: seq<nat>, lim: nat, d: Dec, o: SegOut, b: seq<Block>,
                    pad: seq<bool>, bytes: seq<nat>, m: nat, e: nat)
    returns (d1: Dec, bytes1: seq<nat>)
    requires DecOk(scan, d) && TabsOk(scan, tabs) && Bytes(data) && e <= lim <= |data| && |b| == |scan.members|
    requires Agrees(d, o) && Holds(data, tabs, d.rd, o.rest, pad, bytes, m, e)
    requires |o.last| == scan.ncomps && (scan.mode !in {AcFirst, AcRefine} ==> o.eobrun == 0)
    requires DecNext(scan, o, b).Some?
    ensures var o1 := DecNext(scan, o, b).value;
      && |o1.outs| == |o.outs| + 1
      && DecodeBody(scan, data, lim, tabs, d, b) == Complete(d1, o1.outs[|o.outs|])
      && DecOk(scan, d1) && Agrees(d1, o1) && Holds(data, tabs, d1.rd, o1.rest, pad, bytes1, m, e)
      && d1.next == d.next && d1.togo == CountDown(d).togo
  {
    hide RunTok, RunRd, StOk, Init, Seal, Flatten, Holds, AllEmittable, TabsOk, Bytes;
    InitOk(scan, o.eobrun, o.last, b);
    var st := Init(scan, o.eobrun, o.last, b);
    bytes1 := BitsDecode(scan, data, lim, tabs, st, d.rd, o.rest, pad, bytes, m, e);
    var run := RunRd(scan, data, lim, tabs, st, d.rd);
    RunRdOk(scan, data, lim, tabs, st, d.rd);
    ReadsHolds(data, tabs, run, RunTok(scan, st, o.rest).st, RunTok(scan, st, o.rest).rest, pad, bytes1, m, e,
      d.rd.dry);
    FinShape(scan, run.st);
    d1 := CountDown(d.(rd := run.rd, eobrun := run.st.eobrun, last := run.st.last));
  }

  /** No data has been missing, and run and predictions are those of the token-level decoder. */
  ghost predicate Agrees(d: Dec, o: SegOut) {
    !d.rd.dry && d.eobrun == o.eobrun && d.last == o.last
  }

  lemma BodyStep(job: Job, d: Dec, o: SegOut, b: seq<Block>, j: nat, bytes: seq<nat>)
    returns (d1: Dec, bytes1: seq<nat>)
    requires job.Ok() && j < |job.Segs()| && InStep(job, d, o, j, bytes) && |b| == |job.scan.members|
    requires |o.last| == job.scan.ncomps && (job.scan.mode !in {AcFirst, AcRefine} ==> o.eobrun == 0)
    requires DecNext(job.scan, o, b).Some?
    ensures var o1 := DecNext(job.scan, o, b).value;
      && |o1.outs| == |o.outs| + 1
      && DecodeBody(job.scan, job.data, job.lim, job.tabs, d, b) == Complete(d1, o1.outs[|o.outs|])
      && InStep(job, d1, o1, j, bytes1) && d1.togo == CountDown(d).togo
  {
    hide DecodeBody, DecNext, ClosedBytes, ScanBytes, Seal, Flatten, Holds, AllFit, Paired, Segments, DecOk,
         AllEmittable, TabsOk, MarkerAfter, Job.Ok, Job.Until, Job.From, Job.Padding, Job.Bits, Job.Mark, Job.Segs;
    ScanOk(job);
    SegmentBounds(job, j);
    d1, bytes1 := SegmentStep(job.scan, job.tabs, job.data, job.lim, d, o, b, job.Padding(j), bytes, job.Mark(j),
      job.Until(j));
  }

  lemma FinShape(scan: Scan, st: St)
    requires StOk(scan, st) && st.pc == Fin
    ensures |st.last| == scan.ncomps && (scan.mode !in {AcFirst, AcRefine} ==> st.eobrun == 0)
  {}

  lemma ReadsHolds(data: seq<nat>, tabs: seq<Tab>, run: RdRun, st: St, rest: seq<Token>, pad: seq<bool>,
                   bytes: seq<nat>, m: nat, e: nat, dry: bool)
    requires Reads(data, tabs, run, st, rest, pad, bytes, m, e, dry)
    ensures run.Done? && run.st == st && run.rd.dry == dry && Holds(data, tabs, run.rd, rest, pad, bytes, m, e)
  {}

  // ---- Crossing a restart marker ----

  /** Nothing but padding is left: every byte of the segment has been read. */
  lemma AllRead(data: seq<nat>, tabs: seq<Tab>, rd: Rd, pad: seq<bool>, bytes: seq<nat>, m: nat, e: nat)
    requires Holds(data, tabs, rd, [], pad, bytes, m, e) && |pad| < 8
    ensures 0 < m < 0xFF && e <= |data|
    ensures rd.marker == 0 ==> rd.pos + 2 == e && data[rd.pos] == 0xFF && data[rd.pos + 1] == m
    ensures rd.marker != 0 ==> rd.marker == m && rd.pos == e
  {
    if bytes != [] {
      assert false;
    }
    if rd.marker == 0 { NextAhead(data, rd, bytes, m, e); }
  }

  /** The expected restart marker comes next. */
  lemma MarkerRead(data: seq<nat>, lim: nat, rd: Rd, m: nat, e: nat, next: nat)
    requires e <= lim <= |data| && 0 < m < 0xFF && m == RST0 + next
    requires rd.marker == 0 ==> rd.pos + 2 == e && data[rd.pos] == 0xFF && data[rd.pos + 1] == m
    requires rd.marker != 0 ==> rd.marker == m && rd.pos == e
    ensures ReadRestart(data, lim, rd.pos, rd.marker, next) == Sync(true, e, 0)
  {}

  /** The decoder after the restart marker that ends segment j. */
  lemma RestartDec(scan: Scan, data: seq<nat>, lim: nat, d: Dec, j: nat, e: nat) returns (d1: Dec)
    requires lim <= |data| && scan.Ok() && scan.ri > 0 && d.togo == 0 && !d.rd.dry && d.next == j % 8
    requires ReadRestart(data, lim, d.rd.pos, d.rd.marker, d.next) == Sync(true, e, 0)
    ensures BeginDecode(scan, data, lim, d) == (true, d1) && d1.rd == Fresh(e) && d1.togo == scan.ri
    ensures DecOk(scan, d1) && d1.next == (j + 1) % 8 && d1.eobrun == 0 && d1.last == NoPredictions(scan)
  {
    hide ReadRestart;
    d1 := BeginDecode(scan, data, lim, d).1;
  }

  /** The marker that follows segment j is the restart marker that the decoder expects. */
  lemma SegmentMarker(job: Job, d: Dec, o: SegOut, j: nat, bytes: seq<nat>)
    requires job.Ok() && j + 1 < |job.Segs()| && InStep(job, d, o, j, bytes) && o.rest == [] && job.lim <= |job.data|
    ensures ReadRestart(job.data, job.lim, d.rd.pos, d.rd.marker, d.next) == Sync(true, job.Until(j), 0)
  {
    hide ReadRestart, Job.Ok, Job.Until, Job.From, Job.Bits, Job.Mark, Job.Segs, TabsOk, Mcus, Holds;
    ScanOk(job);
    SegmentBounds(job, j);
    AllRead(job.data, job.tabs, d.rd, job.Padding(j), bytes, job.Mark(j), job.Until(j));
    MarkerRead(job.data, job.lim, d.rd, job.Mark(j), job.Until(j), j % 8);
  }

  lemma RestartStep(job: Job, d: Dec, o: SegOut, j: nat, bytes: seq<nat>) returns (d1: Dec, bytes1: seq<nat>)
    requires job.Ok() && j + 1 < |job.Segs()| && InStep(job, d, o, j, bytes) && o.rest == []
    requires job.scan.ri > 0 && d.togo == 0
    ensures BeginDecode(job.scan, job.data, job.lim, d) == (true, d1) && d1.togo == job.scan.ri
    ensures InStep(job, d1, SegOut(0, NoPredictions(job.scan), [], job.Segs()[j + 1]), j + 1, bytes1)
  {
    hide Holds, ReadRestart, TabsOk, Mcus, BeginDecode;
    hide Job.Ok, Job.Until, Job.From, Job.Padding, Job.Bits, Job.Mark, Job.Segs;
    ScanOk(job);
    SegmentMarker(job, d, o, j, bytes);
    d1 := RestartDec(job.scan, job.data, job.lim, d, j, job.Until(j));
    SegmentBounds(job, j);
    bytes1 := SegmentHolds(job, j + 1);
  }

  // ---- The scan ----

  /** The position of the decoder after i MCUs: which interval, and how far into it. */
  ghost predicate Located(job: Job, i: nat, d: Dec, o: SegOut, bytes: seq<nat>)
    requires job.Ok() && i <= |job.bss|
  {
    var sp := SplitAt(job.scan.ri, job.bss[..i]);
    && |sp.closed| < |job.Segs()| && Shaped(job.scan, sp.current)
    && DecSeg(job.scan, sp.current, job.Segs()[|sp.closed|]) == Some(o)
    && InStep(job, d, o, |sp.closed|, bytes)
    && (job.scan.ri > 0 ==> d.togo == job.scan.ri - |sp.current|)
  }

  ghost predicate AllTargets(job: Job, outs: seq<seq<Block>>)
    requires job.Ok()
  {
    |outs| <= |job.mcus| && forall k :: 0 <= k < |outs| ==>
      |job.mcus[k]| == |job.bss[k]| && outs[k] == McuTargets(job.scan, job.mcus[k], job.bss[k])
  }

  lemma JobShape(job: Job)
    requires job.Ok()
    ensures |job.mcus| == |job.bss| && forall i :: 0 <= i < |job.bss| ==>
      |job.bss[i]| == |job.mcus[i]| == |job.scan.members|
    ensures |Intervals(job.scan.ri, job.bss)| == |Intervals(job.scan.ri, job.mcus)| == |job.Segs()|
  {
    hide ClosedBytes, ScanBytes, Flatten, AllFit, AllEmittable, TabsOk, Segments;
    forall i | 0 <= i < |job.bss| ensures |job.bss[i]| == |job.mcus[i]| == |job.scan.members| {
      assert AllReady(job.scan, job.mcus[i], job.bss[i]);
    }
    SameShape(job.scan.ri, job.mcus, job.bss);
    SegmentsAre(job.scan, job.mcus);
  }

  lemma AtStart(job: Job) returns (o: SegOut, bytes: seq<nat>)
    requires job.Ok()
    ensures Located(job, 0, StartPass(job.scan, job.pos), o, bytes)
  {
    hide ClosedBytes, ScanBytes, Seal, Flatten, AllFit, Paired, AllEmittable, TabsOk, Segments, Holds, MarkerAfter;
    bytes := SegmentHolds(job, 0);
    assert ClosedBytes(job.tabs, job.Segs()[..0]) == [] by { NoSegments(job.tabs, job.Segs()[..0]); }
    o := SegOut(0, NoPredictions(job.scan), [], job.Segs()[0]);
    assert job.bss[..0] == [];
  }

  lemma {:induction false} NoSegments(tabs: seq<Tab>, segs: seq<seq<Token>>)
    requires segs == []
    ensures ClosedBytes(tabs, segs) == []
  {}

  /** A complete interval leaves no tokens unread, so its restart marker comes next. */
  lemma CloseInterval(job: Job, d: Dec, o: SegOut, j: nat, bytes: seq<nat>) returns (d1: Dec, bytes1: seq<nat>)
    requires job.Ok() && j + 1 < |job.Segs()| && |Intervals(job.scan.ri, job.bss)| == |job.Segs()|
    requires Shaped(job.scan, Intervals(job.scan.ri, job.bss)[j])
    requires DecSeg(job.scan, Intervals(job.scan.ri, job.bss)[j], job.Segs()[j]) == Some(o)
    requires InStep(job, d, o, j, bytes) && job.scan.ri > 0 && d.togo == 0
    ensures BeginDecode(job.scan, job.data, job.lim, d) == (true, d1) && d1.togo == job.scan.ri
    ensures InStep(job, d1, SegOut(0, NoPredictions(job.scan), [], job.Segs()[j + 1]), j + 1, bytes1)
  {
    hide ClosedBytes, ScanBytes, Flatten, AllFit, Paired, AllEmittable, TabsOk, Segments, InStep, BeginDecode, DecSeg,
         Job.Ok, Decoded, Intervals, Job.Until, Job.From, Job.Padding, Job.Bits, Job.Mark, Job.Segs;
    ScanOk(job);
    ChunkDecodes(job, j);
    var x, y := Intervals(job.scan.ri, job.mcus)[j], Intervals(job.scan.ri, job.bss)[j];
    DecodedRest(job.scan, DecSeg(job.scan, y, job.Segs()[j]), x, y, SegRun(job.scan, x).last);
    d1, bytes1 := RestartStep(job, d, o, j, bytes);
  }

  /** The decoder is about to decode MCU i, restart processing done. */
  ghost predicate AtMcu(job: Job, i: nat, d: Dec, o: SegOut, bytes: seq<nat>)
    requires job.Ok() && i < |job.bss|
  {
    var sp := SplitAt(job.scan.ri, job.bss[..i + 1]);
    var j, k := |sp.closed|, |sp.current| - 1;
    && j < |job.Segs()| && k >= 0 && InStep(job, d, o, j, bytes)
    && Shaped(job.scan, sp.current[..k]) && DecSeg(job.scan, sp.current[..k], job.Segs()[j]) == Some(o)
    && (job.scan.ri > 0 ==> d.togo == job.scan.ri - k && d.togo > 0)
  }

  /** The next MCU: either inside the interval, or first in the next one. */
  lemma NextInterval(job: Job, i: nat, d: Dec, o: SegOut, bytes: seq<nat>)
    returns (d1: Dec, o1: SegOut, bytes1: seq<nat>)
    requires job.Ok() && i < |job.bss| && Located(job, i, d, o, bytes)
    ensures BeginDecode(job.scan, job.data, job.lim, d) == (true, d1) && AtMcu(job, i, d1, o1, bytes1)
  {
    hide Located, AtMcu, BeginDecode, Job.Ok, SplitAt;
    if job.scan.ri > 0 && |SplitAt(job.scan.ri, job.bss[..i]).current| == job.scan.ri {
      d1, o1, bytes1 := NewInterval(job, i, d, o, bytes);
    } else {
      d1, o1, bytes1 := d, o, bytes;
      SameInterval(job, i, d, o, bytes);
    }
  }

  lemma SameInterval(job: Job, i: nat, d: Dec, o: SegOut, bytes: seq<nat>)
    requires job.Ok() && i < |job.bss| && Located(job, i, d, o, bytes)
    requires job.scan.ri > 0 ==> |SplitAt(job.scan.ri, job.bss[..i]).current| != job.scan.ri
    ensures BeginDecode(job.scan, job.data, job.lim, d) == (true, d) && AtMcu(job, i, d, o, bytes)
  {
    hide InStep, DecSeg, ProcessRestart, Job.Ok, Decoded, Job.Until, Job.From, Job.Padding, Job.Bits, Job.Mark,
         Job.Segs, TabsOk, Bytes, DecOk;
    ScanOk(job);
    assert job.bss[..i + 1][..i] == job.bss[..i];
    var sp, sp1 := SplitAt(job.scan.ri, job.bss[..i]), SplitAt(job.scan.ri, job.bss[..i + 1]);
    assert sp1.current[..|sp1.current| - 1] == sp.current;
  }

  lemma NewInterval(job: Job, i: nat, d: Dec, o: SegOut, bytes: seq<nat>)
    returns (d1: Dec, o1: SegOut, bytes1: seq<nat>)
    requires job.Ok() && i < |job.bss| && Located(job, i, d, o, bytes)
    requires job.scan.ri > 0 && |SplitAt(job.scan.ri, job.bss[..i]).current| == job.scan.ri
    ensures BeginDecode(job.scan, job.data, job.lim, d) == (true, d1) && AtMcu(job, i, d1, o1, bytes1)
  {
    hide InStep, BeginDecode, Job.Ok, Decoded, DecNext, Mcus, Job.Until, Job.From, Job.Padding, Job.Bits, Job.Mark,
         Job.Segs;
    ScanOk(job);
    JobShape(job);
    var ri := job.scan.ri;
    IntervalPrefix(ri, job.bss, i);
    IntervalPrefix(ri, job.bss, i + 1);
    assert job.bss[..i + 1][..i] == job.bss[..i];
    var sp, sp1 := SplitAt(ri, job.bss[..i]), SplitAt(ri, job.bss[..i + 1]);
    var j := |sp1.closed|;
    IntervalSize(ri, job.bss, j - 1);
    assert sp.current == Intervals(ri, job.bss)[j - 1];
    d1, bytes1 := CloseInterval(job, d, o, j - 1, bytes);
    o1 := SegOut(0, NoPredictions(job.scan), [], job.Segs()[j]);
    assert sp1.current[..|sp1.current| - 1] == [];
  }

  lemma DecodedRest(scan: Scan, o: Option<SegOut>, x: seq<seq<Block>>, y: seq<seq<Block>>, last: seq<int>)
    requires Decoded(scan, o, x, y, 0, last, [])
    ensures o.Some? && o.value.rest == [] && |o.value.outs| == |x| == |y|
    ensures forall k :: 0 <= k < |x| ==> |x[k]| == |y[k]| && o.value.outs[k] == McuTargets(scan, x[k], y[k])
  {}

  /** MCU i is MCU k of interval j, on both sides. */
  lemma McuAt(job: Job, i: nat) returns (j: nat, k: nat)
    requires job.Ok() && i < |job.bss| == |job.mcus|
    ensures var sp1 := SplitAt(job.scan.ri, job.bss[..i + 1]);
      var x, y := Intervals(job.scan.ri, job.mcus), Intervals(job.scan.ri, job.bss);
      && j == |sp1.closed| < |x| == |y| && k == |sp1.current| - 1 && k < |x[j]| && k < |y[j]|
      && x[j][k] == job.mcus[i] && y[j][k] == job.bss[i] && y[j][..k + 1] == sp1.current
  {
    hide ClosedBytes, ScanBytes, Flatten, AllFit, Paired, AllEmittable, TabsOk, Segments, Intervals, Job.Ok;
    ScanOk(job);
    JobShape(job);
    var ri := job.scan.ri;
    ElementAt(ri, job.bss, i);
    ElementAt(ri, job.mcus, i);
    SameShape(ri, job.bss[..i + 1], job.mcus[..i + 1]);
    IntervalPrefix(ri, job.bss, i + 1);
    var sp1 := SplitAt(ri, job.bss[..i + 1]);
    j, k := |sp1.closed|, |sp1.current| - 1;
  }

  /** The outcome of MCU k of interval j, on tokens. */
  lemma TokenOutcome(job: Job, j: nat, k: nat) returns (o: SegOut, o1: SegOut)
    requires job.Ok() && j < |job.Segs()|
    requires j < |Intervals(job.scan.ri, job.mcus)| == |Intervals(job.scan.ri, job.bss)|
    requires k < |Intervals(job.scan.ri, job.mcus)[j]| && k < |Intervals(job.scan.ri, job.bss)[j]|
    ensures var x, y := Intervals(job.scan.ri, job.mcus)[j], Intervals(job.scan.ri, job.bss)[j];
      && Shaped(job.scan, y[..k]) && Shaped(job.scan, y[..k + 1]) && |x[k]| == |y[k]| == |job.scan.members|
      && DecSeg(job.scan, y[..k], job.Segs()[j]) == Some(o) && DecSeg(job.scan, y[..k + 1], job.Segs()[j]) == Some(o1)
      && |o.last| == job.scan.ncomps && (job.scan.mode !in {AcFirst, AcRefine} ==> o.eobrun == 0)
      && DecNext(job.scan, o, y[k]) == Some(o1) && |o1.outs| == |o.outs| + 1
      && o1.outs[|o.outs|] == McuTargets(job.scan, x[k], y[k])
  {
    hide ClosedBytes, ScanBytes, Flatten, AllFit, Paired, AllEmittable, TabsOk, Segments, Intervals, DecSeg, DecNext,
         McuTargets, Decoded, Job.Ok;
    ScanOk(job);
    ChunkDecodes(job, j);
    var x, y := Intervals(job.scan.ri, job.mcus)[j], Intervals(job.scan.ri, job.bss)[j];
    DecodedRest(job.scan, DecSeg(job.scan, y, job.Segs()[j]), x, y, SegRun(job.scan, x).last);
    o, o1 := DecSegStep(job.scan, y, job.Segs()[j], k);
  }

  /** One more MCU of the scan. */
  lemma McuStep(job: Job, i: nat, d: Dec, o: SegOut, bytes: seq<nat>) returns (d2: Dec, o2: SegOut, bytes2: seq<nat>)
    requires job.Ok() && i < |job.bss| == |job.mcus| && Located(job, i, d, o, bytes)
    requires |job.bss[i]| == |job.mcus[i]| == |job.scan.members|
    ensures DecOk(job.scan, d)
    ensures DecodeMcu(job.scan, job.data, job.lim, job.tabs, d, job.bss[i])
         == Complete(d2, McuTargets(job.scan, job.mcus[i], job.bss[i]))
    ensures Located(job, i + 1, d2, o2, bytes2)
  {
    hide ClosedBytes, ScanBytes, Flatten, AllFit, Paired, AllEmittable, TabsOk, Segments, DecodeBody, DecNext, DecSeg,
         McuTargets, Holds, BeginDecode,
      Job.Ok, Intervals, SplitAt, Job.Until, Job.From, Job.Padding, Job.Bits, Job.Mark, Job.Segs;
    ScanOk(job);
    JobShape(job);
    var d1, o1, bytes1 := NextInterval(job, i, d, o, bytes);
    var j, k := McuAt(job, i);
    var y := Intervals(job.scan.ri, job.bss)[j];
    assert y[..k] == y[..k + 1][..k];
    var oa, ob := TokenOutcome(job, j, k);
    o2 := ob;
    d2, bytes2 := BodyStep(job, d1, o1, y[k], j, bytes1);
  }

  /** After i MCUs the first i blocks have come back and the decoder stands before the next MCU. */
  lemma {:induction false} ScanPrefix(job: Job, i: nat) returns (so: ScanOut, o: SegOut, bytes: seq<nat>)
    requires job.Ok() && i <= |job.bss|
    ensures DecOk(job.scan, StartPass(job.scan, job.pos)) && Shaped(job.scan, job.bss[..i])
    ensures DecodeAll(job.scan, job.data, job.lim, job.tabs, StartPass(job.scan, job.pos), job.bss[..i]) == Some(so)
    ensures Located(job, i, so.dec, o, bytes) && |so.outs| == i && AllTargets(job, so.outs)
    decreases i
  {
    hide ClosedBytes, ScanBytes, Flatten, AllFit, Paired, AllEmittable, TabsOk, Segments, Located, DecodeMcu,
         McuTargets, Job.Ok;
    JobShape(job);
    ScanOk(job);
    if i == 0 {
      o, bytes := AtStart(job);
      so := ScanOut(StartPass(job.scan, job.pos), []);
    } else {
      var so0, o0, b0 := ScanPrefix(job, i - 1);
      var d2, o2, b2 := McuStep(job, i - 1, so0.dec, o0, b0);
      o, bytes := o2, b2;
      so := ScanOut(d2, so0.outs + [McuTargets(job.scan, job.mcus[i - 1], job.bss[i - 1])]);
      assert job.bss[..i][..i - 1] == job.bss[..i - 1];
    }
  }

  lemma ScanOk(job: Job)
    requires job.Ok()
    ensures job.scan.Ok() && DecOk(job.scan, StartPass(job.scan, job.pos)) && TabsOk(job.scan, job.tabs)
    ensures job.lim <= |job.data| && Bytes(job.data) && Mcus(job.scan, job.mcus)
  {
    hide ClosedBytes, ScanBytes, Flatten, AllFit, Paired, AllEmittable, TabsOk, Segments;
  }

  /** The input position when a scan is over: just before or just behind the marker that ends it. */
  ghost predicate AtMarker(data: seq<nat>, rd: Rd, m: nat, e: nat) {
    if rd.marker == 0 then rd.pos + 2 == e <= |data| && data[rd.pos] == 0xFF && data[rd.pos + 1] == m
    else rd.marker == m && rd.pos == e
  }

  /** Sequential scans and each kind of progressive scan: whatever the tables (with codes for the
      symbols used), the restart interval and the MCUs, decoding the bytes of the scan gives every
      block its coefficients down to bit Al, with no warning, and stops at the following marker. */
  lemma ScanDecodes(job: Job)
    requires job.Ok()
    ensures DecOk(job.scan, StartPass(job.scan, job.pos)) && Shaped(job.scan, job.bss)
    ensures var r := DecodeAll(job.scan, job.data, job.lim, job.tabs, StartPass(job.scan, job.pos), job.bss);
      && r.Some? && |r.value.outs| == |job.mcus| == |job.bss| && AllTargets(job, r.value.outs)
      && !r.value.dec.rd.dry
      && AtMarker(job.data, r.value.dec.rd, job.m, job.pos + |ScanBytes(job.tabs, job.Segs())| + 2)
  {
    hide ClosedBytes, ScanBytes, Flatten, AllFit, Paired, AllEmittable, TabsOk, Segments, DecodeAll, DecSeg,
         AllTargets, Located, AtMarker, Job.Ok, Intervals, SplitAt;
    ScanOk(job);
    JobShape(job);
    var n := |job.bss|;
    assert job.bss[..n] == job.bss;
    var so, o, bytes := ScanPrefix(job, n);
    ScanEnds(job, so.dec, o, bytes);
  }

  lemma ScanEnds(job: Job, d: Dec, o: SegOut, bytes: seq<nat>)
    requires job.Ok() && Located(job, |job.bss|, d, o, bytes)
    ensures !d.rd.dry && AtMarker(job.data, d.rd, job.m, job.pos + |ScanBytes(job.tabs, job.Segs())| + 2)
  {
    hide ClosedBytes, ScanBytes, Flatten, AllFit, Paired, AllEmittable, TabsOk, Segments, DecSeg, Holds, MarkerAfter,
         McuTargets, Decoded, SplitAt, Job.Ok, Job.Until, Job.From, Job.Padding, Job.Bits, Job.Mark, Job.Segs;
    ScanOk(job);
    JobShape(job);
    assert job.bss[..|job.bss|] == job.bss;
    var j := |job.Segs()| - 1;
    ChunkDecodes(job, j);
    var x, y := Intervals(job.scan.ri, job.mcus)[j], Intervals(job.scan.ri, job.bss)[j];
    DecodedRest(job.scan, DecSeg(job.scan, y, job.Segs()[j]), x, y, SegRun(job.scan, x).last);
    SegmentBounds(job, j);
    AllRead(job.data, job.tabs, d.rd, job.Padding(j), bytes, job.Mark(j), job.Until(j));
  }

  /** The restart markers of a scan are numbered from 0xD0 on, and 0xD0 follows 0xD7. */
  lemma RestartNumbers(tabs: seq<Tab>, segs: seq<seq<Token>>) returns (last: nat)
    requires segs != []
    ensures var bytes := ClosedBytes(tabs, segs);
      |bytes| >= 2 && bytes[|bytes| - 2] == 0xFF && bytes[|bytes| - 1] == last && 0xD0 <= last <= 0xD7
    ensures |segs| == 1 ==> last == 0xD0
    ensures |segs| > 1 ==>
      var before := ClosedBytes(tabs, segs[..|segs| - 1]);
      |before| >= 2 && last == if before[|before| - 1] == 0xD7 then 0xD0 else before[|before| - 1] + 1
  {
    hide Seal, Flatten;
    last := RST0 + (|segs| - 1) % 8;
  }
}
