/** Whole images: the MCUs of a coefficient controller on one side, the arrays that consume_data fills
    on the other, and between them the entropy-coded scans. */
module ImageRoundTrip {
  import opened HuffmanTables
  import opened Coefficients
  import opened BitReader
  import opened Coding
  import opened Decoding
  import opened TokenRoundTrip
  import opened McuDecoding
  import opened ScanRoundTrip
  import opened Suspension
  import opened SimpleProgression
  import opened Frames
  import opened McuGeometry
  import opened McuLayout
  import opened DummyBlocks
  import opened McuFilling
  import opened CoefConsumer
  import opened ScriptRoundTrip
  import ScanScripts

  /** component_index as indices into the component list. */
  function CompsIn(s: ScanScripts.ScanInfo): (scan: seq<nat>)
    ensures |scan| == |s.component_index|
  {
    seq(|s.component_index|, k requires 0 <= k < |s.component_index| =>
      if s.component_index[k] >= 0 then s.component_index[k] else 0)
  }

  /** A scan of the image: its MCUs are those that every coefficient controller sends for it, and it was
      encoded from them without error. */
  ghost predicate ImagePass(p: Pass, img: Image, cs: Frame) {
    && ScanReady(img, CompsIn(p.info)) && FrameFor(img, cs) && ParamsOk(p.info)
    && ScanScripts.ComponentsOk(p.info, |img.comps|)
    && p.layout == Order(img, CompsIn(p.info)) && p.members == GeometryOf(img, CompsIn(p.info)).membership
    && Fits(p.layout, Filled(img, cs)) && JobOf(p, Filled(img, cs), Filled(img, cs)).Coded()
  }

  /** The MCUs that are encoded are those that the controllers send. */
  lemma JobMcus(p: Pass, img: Image, cs: Frame)
    requires ImagePass(p, img, cs)
    ensures JobOf(p, Filled(img, cs), Filled(img, cs)).mcus == McuFilling.AllMcus(img, cs, CompsIn(p.info))
  {
    hide ScanReady, Job.Coded, ParamsOk, ScanScripts.ComponentsOk, FrameFor, ScanLayout, Filled, Fits;
  }

  // ---- A scan of the image, to ScriptRoundTrip ----

  lemma PassCovers(p: Pass, img: Image, cs: Frame)
    requires ImagePass(p, img, cs)
    ensures Coverage(p, Shown(img), Filled(img, cs))
  {
    hide Image.Across, Image.Down, Image.BlocksDown, Image.BlocksAcross, ScanLayout, Filled, Fits, Job.Coded,
         ParamsOk, Membership, Visits, Shown;
    var scan := CompsIn(p.info);
    forall q | In(q, Filled(img, cs))
      ensures Visits(p.layout, q) ==> q.comp in p.info.component_index && (p.info.Ss != 0 ==> q in Shown(img))
      ensures q in Shown(img) && q.comp in p.info.component_index ==> Visits(p.layout, q)
    {
      TilesCover(img, scan, Filled(img, cs), q);
      SameComps(p.info, q.comp, |img.comps|);
      if p.info.Ss != 0 { AcAlone(p.info); }
    }
  }

  lemma AcAlone(s: ScanScripts.ScanInfo)
    requires ParamsOk(s) && s.Ss != 0
    ensures |s.component_index| == 1
  {}

  lemma SameComps(s: ScanScripts.ScanInfo, c: nat, n: nat)
    requires ScanScripts.ComponentsOk(s, n)
    ensures c in CompsIn(s) <==> c in s.component_index
  {
    if c in s.component_index {
      var k :| 0 <= k < |s.component_index| && s.component_index[k] == c;
      assert CompsIn(s)[k] == c;
    }
  }

  lemma PassIs(p: Pass, img: Image, cs: Frame)
    requires ImagePass(p, img, cs)
    ensures PassOk(p, Shown(img), Filled(img, cs))
  {
    hide Filled, Job.Coded, ParamsOk, Coverage, NoBlockTwice, Fits, Order, GeometryOf;
    OrderFacts(img, CompsIn(p.info), cs);
    PassCovers(p, img, cs);
  }

  // ---- The main theorems ----

  /** Transcoding with any script that validate_script accepts: for any image size, any number of components and
      sampling factors, any arrays, tables and restart intervals, decoding the scans into zeroed arrays restores
      every coefficient of the image down to the last bit sent of it. Scans may be interleaved or not, DC scans of
      a component now one and now the other. If the script is complete, the image is restored. */
  lemma {:induction false} ScriptTranscode(ps: seq<Pass>, img: Image, cs: Frame)
    requires img.Ok() && FrameFor(img, cs) && ScanScripts.ScriptAccepted(Infos(ps), |img.comps|)
    requires forall i :: 0 <= i < |ps| ==> ImagePass(ps[i], img, cs)
    ensures DecodePasses(ps, Zeros(cs)).Some?
    ensures var f := DecodePasses(ps, Zeros(cs)).value;
      var levels := ScanScripts.LevelsAfter(Infos(ps), ScanScripts.Unsent(|img.comps|));
      && FrameFor(img, f)
      && (forall q, k :: q in Shown(img) && In(q, cs) && In(q, f) && 0 <= k < 64 ==>
            At(f, q)[k] == Remaining(At(cs, q)[k], k, levels[q.comp][k]))
      && (levels == AllSent(|img.comps|) ==> forall q :: q in Shown(img) && In(q, cs) && In(q, f) ==>
         At(f, q) == At(cs, q))
  {
    hide ImagePass, PassOk, DecodePasses, Filled, Shown, Image.Across, Image.Down, ScanScripts.ScriptAccepted,
         ScanScripts.LevelsAfter, Remaining;
    forall i | 0 <= i < |ps| ensures PassOk(ps[i], Shown(img), Filled(img, cs)) {
      PassIs(ps[i], img, cs);
    }
    SameZeros(img, cs);
    ScriptDecoded(ps, Shown(img), Filled(img, cs));
    forall q | q in Shown(img) && In(q, cs) && In(q, DecodePasses(ps, Zeros(cs)).value)
      ensures In(q, Filled(img, cs)) && At(Filled(img, cs), q) == At(cs, q)
    {
      FilledReal(img, cs, q);
    }
  }

  /** Progressive transcoding is lossless with the default script, and so is any sequential script. */
  lemma {:induction false} ProgressiveTranscode(ps: seq<Pass>, ycc: bool, img: Image, cs: Frame)
    requires img.Ok() && FrameFor(img, cs) && forall i :: 0 <= i < |ps| ==> ImagePass(ps[i], img, cs)
    requires Infos(ps) == ProgressionScript(|img.comps|, ycc)
      || ScanScripts.SequentialScript(Infos(ps), |img.comps|)
    ensures DecodePasses(ps, Zeros(cs)).Some?
    ensures var f := DecodePasses(ps, Zeros(cs)).value;
      FrameFor(img, f) && forall q :: q in Shown(img) && In(q, cs) && In(q, f) ==> At(f, q) == At(cs, q)
  {
    hide ImagePass, ProgressionScript, DecodePasses, Shown, ScanScripts.ScriptAccepted, ScanScripts.LevelsAfter,
         ScanScripts.SequentialScript;
    if ScanScripts.SequentialScript(Infos(ps), |img.comps|) {
      SequentialComplete(Infos(ps), |img.comps|);
    } else {
      SimpleProgressionIsComplete(|img.comps|, ycc);
    }
    ScriptTranscode(ps, img, cs);
  }

  lemma SameZeros(img: Image, cs: Frame)
    requires img.Ok() && FrameFor(img, cs)
    ensures Zeros(Filled(img, cs)) == Zeros(cs)
  {
    hide Filled, Image.Ok, Image.Across, Image.Down;
    var f, g := Zeros(Filled(img, cs)), Zeros(cs);
    forall c | 0 <= c < |cs| ensures f[c] == g[c] {}
  }

  /** The arrays after consume_data has reported the end of a scan are those of the decoded pass. */
  lemma ConsumedPass(p: Pass, img: Image, cs: Frame, f: Frame, so: ScanOut)
    requires ImagePass(p, img, cs) && FrameFor(img, f) && Startable(p, f) && p.lim == |p.data|
      && DecOk(ScanOf(p), StartPass(ScanOf(p), p.pos))
    requires Fits(p.layout, f) && Sized(ScanOf(p), Collect(p.layout, f))
    requires DecodeWhole(ScanOf(p), p.data, p.tabs, StartPass(ScanOf(p), p.pos), Collect(p.layout, f)) == Some(so)
      && !so.dec.rd.dry
    ensures DecodePass(p, f) == Some(Scatter(Order(img, CompsIn(p.info)), so.outs, f))
  {
    hide Job.Coded, Filled, FrameFor, Sized, DecodeWhole, DecodeAll, Scatter, TabsOk, Bytes, DecOk, Fits,
         ParamsOk;
    WholeIsAll(ScanOf(p), p.data, p.tabs, StartPass(ScanOf(p), p.pos), Collect(p.layout, f));
  }

  lemma SequentialTarget(scan: Scan, c: Block, b: Block)
    requires scan.Ss == 0 && scan.Se == 63 && scan.Al == 0
    ensures Target(scan, c, b) == c
  {
    hide Level;
    forall k | 0 <= k < 64 ensures Target(scan, c, b)[k] == c[k] { LevelZero(c[k], k); }
  }

  lemma SequentialOuts(job: Job, outs: seq<seq<Block>>, i: nat, j: nat)
    requires job.Ok() && AllTargets(job, outs) && |outs| == |job.mcus| && i < |outs| && j < |job.mcus[i]|
    requires job.scan.Ss == 0 && job.scan.Se == 63 && job.scan.Al == 0
    ensures |outs[i]| == |job.mcus[i]| && outs[i][j] == job.mcus[i][j]
  {
    hide Target;
    JobShape(job);
    hide Job.Ok;
    SequentialTarget(job.scan, job.mcus[i][j], job.bss[i][j]);
  }

  /** A sequential scan restores every block of its components and leaves the other components alone:
      for any image size, sampling factors, tables and restart interval, if the blocks that it visits
      are still zero. */
  lemma SequentialTranscode(job: Job, img: Image, scan: seq<nat>, cs: Frame, start: Frame)
    returns (so: ScanOut, f: Frame)
    requires ScanReady(img, scan) && FrameFor(img, cs) && FrameFor(img, start) && job.Ok()
    requires job.scan.mode == Sequential && job.scan.Ss == 0 && job.scan.Se == 63 && job.scan.Al == 0
    requires Fits(Order(img, scan), start) && job.mcus == McuFilling.AllMcus(img, cs, scan)
      && job.bss == Collect(Order(img, scan), start)
    ensures DecOk(job.scan, StartPass(job.scan, job.pos)) && TabsOk(job.scan, job.tabs) && Bytes(job.data)
      && job.lim <= |job.data|
    ensures forall i :: 0 <= i < |job.bss| ==> |job.bss[i]| == |job.scan.members|
    ensures DecodeAll(job.scan, job.data, job.lim, job.tabs, StartPass(job.scan, job.pos), job.bss) == Some(so)
      && !so.dec.rd.dry
    ensures f == Scatter(Order(img, scan), so.outs, start) && FrameFor(img, f)
    ensures forall q :: q in Shown(img) && In(q, cs) && In(q, f) && In(q, start) ==>
      At(f, q) == if q.comp in scan then At(cs, q) else At(start, q)
  {
    hide Job.Ok, DecodeAll, AllTargets, AtMarker, Scatter, TabsOk, DecOk, Fits, NoBlockTwice, FrameFor, Order, Filled,
         Visits, ScanReady, McuFilling.AllMcus, Shown;
    ScanDecodes(job);
    ScanOk(job);
    JobShape(job);
    so := DecodeAll(job.scan, job.data, job.lim, job.tabs, StartPass(job.scan, job.pos), job.bss).value;
    f := Scatter(Order(img, scan), so.outs, start);
    SequentialAll(job, img, scan, cs, start, so.outs);
  }

  lemma SequentialAll(job: Job, img: Image, scan: seq<nat>, cs: Frame, start: Frame, outs: seq<seq<Block>>)
    requires ScanReady(img, scan) && FrameFor(img, cs) && FrameFor(img, start) && job.Ok()
    requires job.scan.Ss == 0 && job.scan.Se == 63 && job.scan.Al == 0
    requires Fits(Order(img, scan), start) && job.mcus == McuFilling.AllMcus(img, cs, scan)
      && job.bss == Collect(Order(img, scan), start)
    requires AllTargets(job, outs) && |outs| == |job.mcus|
    ensures var f := Scatter(Order(img, scan), outs, start);
      FrameFor(img, f) && forall q :: q in Shown(img) && In(q, cs) && In(q, f) && In(q, start) ==>
        At(f, q) == if q.comp in scan then At(cs, q) else At(start, q)
  {
    hide Job.Ok, AllTargets, Scatter, Fits, NoBlockTwice, FrameFor, Order, Filled, Visits, McuFilling.AllMcus, Shown;
    var f := Scatter(Order(img, scan), outs, start);
    ScatterFrame(img, f, start);
    forall q | q in Shown(img) && In(q, start) && In(q, cs) && In(q, f)
      ensures At(f, q) == if q.comp in scan then At(cs, q) else At(start, q)
    {
      SequentialAt(job, img, scan, cs, start, outs, q);
    }
  }

  lemma ScatterFrame(img: Image, f: Frame, g: Frame)
    requires img.Ok() && FrameFor(img, g) && SameSizes(f, g)
    ensures FrameFor(img, f)
  {}

  lemma SequentialAt(job: Job, img: Image, scan: seq<nat>, cs: Frame, start: Frame, outs: seq<seq<Block>>, q: Pos)
    requires ScanReady(img, scan) && FrameFor(img, cs) && FrameFor(img, start) && job.Ok() && In(q, start) && In(q, cs)
    requires job.scan.Ss == 0 && job.scan.Se == 63 && job.scan.Al == 0
    requires Fits(Order(img, scan), start) && job.mcus == McuFilling.AllMcus(img, cs, scan)
      && job.bss == Collect(Order(img, scan), start)
    requires AllTargets(job, outs) && |outs| == |job.mcus|
    ensures In(q, Scatter(Order(img, scan), outs, start))
    ensures q in Shown(img) && q.comp in scan ==> At(Scatter(Order(img, scan), outs, start), q) == At(cs, q)
    ensures q.comp !in scan ==> At(Scatter(Order(img, scan), outs, start), q) == At(start, q)
  {
    hide Job.Ok, AllTargets, Scatter, Fits, NoBlockTwice, FrameFor, Filled, Visits, ScanLayout, Shown, Image.Across,
         Image.Down, Membership;
    OrderFacts(img, scan, start);
    OrderFacts(img, scan, Filled(img, cs));
    TilesCover(img, scan, start, q);
    forall i | 0 <= i < |outs| ensures |outs[i]| == |Order(img, scan)[i]| { OutSize(job, outs, i); }
    ScatterAt(Order(img, scan), outs, start, q);
    if Visits(Order(img, scan), q) {
      var i, j := FindVisit(Order(img, scan), q);
      SequentialOuts(job, outs, i, j);
      FitsAt(Order(img, scan), Filled(img, cs), i, j);
      if q in Shown(img) { FilledReal(img, cs, q); }
    }
  }

  lemma OutSize(job: Job, outs: seq<seq<Block>>, i: nat)
    requires job.Ok() && AllTargets(job, outs) && i < |outs|
    ensures |outs[i]| == |job.mcus[i]|
  {
    hide Job.Ok;
  }
}
