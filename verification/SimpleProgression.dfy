/** jpeg_simple_progression of jcparam.c: the default progressive script fills exactly the space
    computed for it, is accepted by the validator, and sends every bit of every coefficient. */
module SimpleProgression {
  import opened ScanScripts

  // ---- The script ----

  function OneScan(ci: int, Ss: int, Se: int, Ah: int, Al: int): ScanInfo {
    ScanInfo([ci], Ss, Se, Ah, Al)
  }

  function EachComponentScans(n: nat, Ss: int, Se: int, Ah: int, Al: int): (s: seq<ScanInfo>)
    ensures |s| == n
  {
    seq(n, ci => OneScan(ci, Ss, Se, Ah, Al))
  }

  function DcScans(n: nat, Ah: int, Al: int): (s: seq<ScanInfo>)
    ensures |s| == if n <= MAX_COMPS_IN_SCAN then 1 else n
  {
    if n <= MAX_COMPS_IN_SCAN then [ScanInfo(seq(n, ci => ci), 0, 0, Ah, Al)] else EachComponentScans(n, 0, 0, Ah, Al)
  }

  function YccScript(): seq<ScanInfo> {
    DcScans(3, 0, 1) + [OneScan(0, 1, 5, 0, 2)] + [OneScan(2, 1, 63, 0, 1)] + [OneScan(1, 1, 63, 0, 1)]
    + [OneScan(0, 6, 63, 0, 2)] + [OneScan(0, 1, 63, 2, 1)] + DcScans(3, 1, 0)
    + [OneScan(2, 1, 63, 1, 0)] + [OneScan(1, 1, 63, 1, 0)] + [OneScan(0, 1, 63, 1, 0)]
  }

  function AllPurposeScript(n: nat): seq<ScanInfo> {
    DcScans(n, 0, 1) + EachComponentScans(n, 1, 5, 0, 2) + EachComponentScans(n, 6, 63, 0, 2)
    + EachComponentScans(n, 1, 63, 2, 1) + DcScans(n, 1, 0) + EachComponentScans(n, 1, 63, 1, 0)
  }

  function ProgressionScript(n: nat, ycc: bool): seq<ScanInfo> {
    if n == 3 && ycc then YccScript() else AllPurposeScript(n)
  }

  // ---- Filling the script space ----

  method FillAScan(space: array<ScanInfo>, scanptr: nat, ci: int, Ss: int, Se: int, Ah: int, Al: int)
    returns (next: nat)
    requires scanptr < space.Length
    modifies space
    ensures next == scanptr + 1 && space[..next] == old(space[..scanptr]) + [OneScan(ci, Ss, Se, Ah, Al)]
  {
    space[scanptr] := ScanInfo([ci], Ss, Se, Ah, Al);
    next := scanptr + 1;
  }

  method FillScans(space: array<ScanInfo>, scanptr: nat, ncomps: nat, Ss: int, Se: int, Ah: int, Al: int)
    returns (next: nat)
    requires scanptr + ncomps <= space.Length
    modifies space
    ensures next == scanptr + ncomps && space[..next] == old(space[..scanptr])
      + EachComponentScans(ncomps, Ss, Se, Ah, Al)
  {
    next := scanptr;
    for ci := 0 to ncomps
      invariant next == scanptr + ci
      invariant space[..next] == old(space[..scanptr]) + EachComponentScans(ncomps, Ss, Se, Ah, Al)[..ci]
    {
      space[next] := ScanInfo([ci], Ss, Se, Ah, Al);
      next := next + 1;
    }
  }

  method FillDcScans(space: array<ScanInfo>, scanptr: nat, ncomps: nat, Ah: int, Al: int) returns (next: nat)
    requires scanptr + |DcScans(ncomps, Ah, Al)| <= space.Length
    modifies space
    ensures next == scanptr + |DcScans(ncomps, Ah, Al)| && space[..next] == old(space[..scanptr])
      + DcScans(ncomps, Ah, Al)
  {
    if ncomps <= MAX_COMPS_IN_SCAN {
      space[scanptr] := ScanInfo(seq(ncomps, ci => ci), 0, 0, Ah, Al);
      next := scanptr + 1;
    } else {
      next := FillScans(space, scanptr, ncomps, 0, 0, Ah, Al);
    }
  }

  /** The space is used again if it is large enough; nscans entries are computed, allocated and written. */
  method MakeSimpleProgression(ncomps: nat, ycc: bool, script_space: array<ScanInfo>)
    returns (space: array<ScanInfo>, num_scans: nat)
    modifies script_space
    ensures if script_space.Length >= num_scans then space == script_space
            else fresh(space) && space.Length == if num_scans > 10 then num_scans else 10
    ensures num_scans <= space.Length && space[..num_scans] == ProgressionScript(ncomps, ycc)
  {
    var nscans: nat;
    if ncomps == 3 && ycc {
      nscans := 10;
    } else {
      if ncomps > MAX_COMPS_IN_SCAN {
        nscans := 6 * ncomps;
      } else {
        nscans := 2 + 4 * ncomps;
      }
    }
    space := script_space;
    if script_space.Length < nscans {
      space := new ScanInfo[if nscans > 10 then nscans else 10](_ => ScanInfo([], 0, 0, 0, 0));
    }
    num_scans := nscans;
    assert space[..0] == [];
    var scanptr;
    if ncomps == 3 && ycc {
      scanptr := FillYcc(space);
    } else {
      scanptr := FillAllPurpose(space, ncomps);
    }
    assert scanptr == num_scans;
  }

  /** The custom script: first the DC scans and the high bits of the AC coefficients. */
  method FillYccFirst(space: array<ScanInfo>) returns (scanptr: nat)
    requires space.Length >= 10
    modifies space
    ensures scanptr == 6
    ensures space[..scanptr] == DcScans(3, 0, 1) + [OneScan(0, 1, 5, 0, 2)] + [OneScan(2, 1, 63, 0, 1)]
      + [OneScan(1, 1, 63, 0, 1)]
                                + [OneScan(0, 6, 63, 0, 2)] + [OneScan(0, 1, 63, 2, 1)]
  {
    hide DcScans, EachComponentScans, OneScan;
    assert space[..0] == [];
    scanptr := FillDcScans(space, 0, 3, 0, 1);
    scanptr := FillAScan(space, scanptr, 0, 1, 5, 0, 2);
    scanptr := FillAScan(space, scanptr, 2, 1, 63, 0, 1);
    scanptr := FillAScan(space, scanptr, 1, 1, 63, 0, 1);
    scanptr := FillAScan(space, scanptr, 0, 6, 63, 0, 2);
    scanptr := FillAScan(space, scanptr, 0, 1, 63, 2, 1);
  }

  method FillYcc(space: array<ScanInfo>) returns (scanptr: nat)
    requires space.Length >= 10
    modifies space
    ensures scanptr == 10 && space[..scanptr] == YccScript()
  {
    hide DcScans, EachComponentScans, OneScan;
    scanptr := FillYccFirst(space);
    scanptr := FillDcScans(space, scanptr, 3, 1, 0);
    scanptr := FillAScan(space, scanptr, 2, 1, 63, 1, 0);
    scanptr := FillAScan(space, scanptr, 1, 1, 63, 1, 0);
    scanptr := FillAScan(space, scanptr, 0, 1, 63, 1, 0);
  }

  method FillAllPurpose(space: array<ScanInfo>, ncomps: nat) returns (scanptr: nat)
    requires space.Length >= if ncomps > MAX_COMPS_IN_SCAN then 6 * ncomps else 2 + 4 * ncomps
    modifies space
    ensures scanptr == if ncomps > MAX_COMPS_IN_SCAN then 6 * ncomps else 2 + 4 * ncomps
    ensures space[..scanptr] == AllPurposeScript(ncomps)
  {
    hide DcScans, EachComponentScans, OneScan;
    assert space[..0] == [];
    scanptr := FillDcScans(space, 0, ncomps, 0, 1);
    scanptr := FillScans(space, scanptr, ncomps, 1, 5, 0, 2);
    scanptr := FillScans(space, scanptr, ncomps, 6, 63, 0, 2);
    scanptr := FillScans(space, scanptr, ncomps, 1, 63, 2, 1);
    scanptr := FillDcScans(space, scanptr, ncomps, 1, 0);
    scanptr := FillScans(space, scanptr, ncomps, 1, 63, 1, 0);
  }

  // ---- Its progress, band by band ----

  /** The progress of one component: its DC coefficient, coefficients 1 to 5, coefficients 6 to 63. */
  datatype Bands = Bands(dc: int, low: int, high: int)

  function Row(t: Bands): (r: seq<int>)
    ensures |r| == 64
  {
    seq(64, k => if k == 0 then t.dc else if k <= 5 then t.low else t.high)
  }

  function Table(ts: seq<Bands>): (levels: Levels)
    ensures |levels| == |ts|
  {
    seq(|ts|, c requires 0 <= c < |ts| => Row(ts[c]))
  }

  /** The four bands that the scripts use. */
  predicate Banded(s: ScanInfo) {
    (s.Ss == 0 && s.Se == 0) || (s.Ss == 1 && s.Se == 5) || (s.Ss == 6 && s.Se == 63) || (s.Ss == 1 && s.Se == 63)
  }

  function MarkBands(t: Bands, s: ScanInfo): Bands {
    Bands(if s.Ss == 0 then s.Al else t.dc, if s.Ss == 1 then s.Al else t.low, if s.Se == 63 then s.Al else t.high)
  }

  predicate BandsOk(t: Bands, s: ScanInfo) {
    if s.Ss == 0 then NextBit(t.dc, s)
    else t.dc >= 0 && (s.Ss == 1 ==> NextBit(t.low, s)) && (s.Se == 63 ==> NextBit(t.high, s))
  }

  lemma RowMarked(t: Bands, s: ScanInfo)
    requires Banded(s)
    ensures MarkRow(Row(t), s) == Row(MarkBands(t, s))
    ensures BandsOk(t, s) ==> RowOk(Row(t), s)
  {}

  /** The script so far is in order and has made the progress ts. */
  ghost predicate Reaches(script: seq<ScanInfo>, ts: seq<Bands>) {
    Progressive(script, Unsent(|ts|)) && LevelsAfter(script, Unsent(|ts|)) == Table(ts)
  }

  lemma StartReached(n: nat, ts: seq<Bands>)
    requires ts == seq(n, _ => Bands(-1, -1, -1))
    ensures Reaches([], ts)
  {
    forall c | 0 <= c < n ensures Row(ts[c]) == Unsent(n)[c] {}
  }

  function MarkThose(ts: seq<Bands>, s: ScanInfo): (r: seq<Bands>)
    ensures |r| == |ts|
  {
    seq(|ts|, c requires 0 <= c < |ts| => if c in s.component_index then MarkBands(ts[c], s) else ts[c])
  }

  lemma AddScan(script: seq<ScanInfo>, ts: seq<Bands>, s: ScanInfo)
    requires Reaches(script, ts) && Banded(s) && ComponentsOk(s, |ts|) && RangesOk(s)
    requires forall c :: 0 <= c < |ts| && c in s.component_index ==> BandsOk(ts[c], s)
    ensures Reaches(script + [s], MarkThose(ts, s))
  {
    hide ComponentsOk, RangesOk, MarkRow, Row, BandsOk, MarkBands, RowOk;
    assert (script + [s])[..|script|] == script;
    forall c | 0 <= c < |ts|
      ensures MarkRow(Row(ts[c]), s) == Row(MarkBands(ts[c], s)) && (BandsOk(ts[c], s) ==> RowOk(Row(ts[c]), s))
    {
      RowMarked(ts[c], s);
    }
    assert Mark(Table(ts), s) == Table(MarkThose(ts, s));
  }

  /** The first i scans of a group, one for each component, from equal progress. */
  lemma {:induction false} AddEach(script: seq<ScanInfo>, n: nat, t: Bands, Ss: int, Se: int, Ah: int, Al: int, i: nat)
    requires i <= n && Reaches(script, seq(n, _ => t))
    requires var s := OneScan(0, Ss, Se, Ah, Al); Banded(s) && RangesOk(s) && BandsOk(t, s)
    ensures var t1 := MarkBands(t, OneScan(0, Ss, Se, Ah, Al));
      Reaches(script + EachComponentScans(n, Ss, Se, Ah, Al)[..i], seq(n, c => if c < i then t1 else t))
  {
    hide Reaches, MarkBands, BandsOk;
    var each := EachComponentScans(n, Ss, Se, Ah, Al);
    var t1 := MarkBands(t, OneScan(0, Ss, Se, Ah, Al));
    if i == 0 {
      assert script + each[..0] == script;
      assert seq(n, c => if c < 0 then t1 else t) == seq(n, _ => t);
    } else {
      AddEach(script, n, t, Ss, Se, Ah, Al, i - 1);
      var ts := seq(n, c => if c < i - 1 then t1 else t);
      var s := OneScan(i - 1, Ss, Se, Ah, Al);
      SameBands(t, s, OneScan(0, Ss, Se, Ah, Al));
      AddScan(script + each[..i - 1], ts, s);
      assert script + each[..i - 1] + [s] == script + each[..i];
      assert MarkThose(ts, s) == seq(n, c => if c < i then t1 else t);
    }
  }

  lemma SameBands(t: Bands, s: ScanInfo, s1: ScanInfo)
    requires s1 == s.(component_index := s1.component_index)
    ensures MarkBands(t, s) == MarkBands(t, s1) && (BandsOk(t, s) <==> BandsOk(t, s1))
  {}

  lemma EachReached(script: seq<ScanInfo>, n: nat, t: Bands, Ss: int, Se: int, Ah: int, Al: int)
    requires Reaches(script, seq(n, _ => t))
    requires var s := OneScan(0, Ss, Se, Ah, Al); Banded(s) && RangesOk(s) && BandsOk(t, s)
    ensures Reaches(script + EachComponentScans(n, Ss, Se, Ah, Al),
      seq(n, _ => MarkBands(t, OneScan(0, Ss, Se, Ah, Al))))
  {
    hide Reaches, MarkBands, BandsOk;
    AddEach(script, n, t, Ss, Se, Ah, Al, n);
    var t1 := MarkBands(t, OneScan(0, Ss, Se, Ah, Al));
    assert EachComponentScans(n, Ss, Se, Ah, Al)[..n] == EachComponentScans(n, Ss, Se, Ah, Al);
    assert seq(n, c => if c < n then t1 else t) == seq(n, _ => t1);
  }

  lemma DcReached(script: seq<ScanInfo>, n: nat, t: Bands, Ah: int, Al: int)
    requires n >= 1 && Reaches(script, seq(n, _ => t))
    requires var s := OneScan(0, 0, 0, Ah, Al); RangesOk(s) && BandsOk(t, s)
    ensures Reaches(script + DcScans(n, Ah, Al), seq(n, _ => Bands(Al, t.low, t.high)))
  {
    hide Reaches, BandsOk;
    if n <= MAX_COMPS_IN_SCAN {
      var s := ScanInfo(seq(n, ci => ci), 0, 0, Ah, Al);
      SameBands(t, s, OneScan(0, 0, 0, Ah, Al));
      forall c | 0 <= c < n ensures c in s.component_index { assert s.component_index[c] == c; }
      AddScan(script, seq(n, _ => t), s);
      assert MarkThose(seq(n, _ => t), s) == seq(n, _ => Bands(Al, t.low, t.high));
    } else {
      EachReached(script, n, t, 0, 0, Ah, Al);
    }
  }

  lemma AllPurposeReaches(n: nat)
    requires n >= 1
    ensures Reaches(AllPurposeScript(n), seq(n, _ => Bands(0, 0, 0)))
  {
    hide Reaches;
    StartReached(n, seq(n, _ => Bands(-1, -1, -1)));
    DcReached([], n, Bands(-1, -1, -1), 0, 1);
    var s1 := [] + DcScans(n, 0, 1);
    assert s1 == DcScans(n, 0, 1);
    EachReached(s1, n, Bands(1, -1, -1), 1, 5, 0, 2);
    var s2 := s1 + EachComponentScans(n, 1, 5, 0, 2);
    EachReached(s2, n, Bands(1, 2, -1), 6, 63, 0, 2);
    var s3 := s2 + EachComponentScans(n, 6, 63, 0, 2);
    EachReached(s3, n, Bands(1, 2, 2), 1, 63, 2, 1);
    var s4 := s3 + EachComponentScans(n, 1, 63, 2, 1);
    DcReached(s4, n, Bands(1, 1, 1), 1, 0);
    var s5 := s4 + DcScans(n, 1, 0);
    EachReached(s5, n, Bands(0, 1, 1), 1, 63, 1, 0);
  }

  /** One scan of one of three components. */
  lemma AddOne(script: seq<ScanInfo>, a: Bands, b: Bands, c: Bands, ci: nat, Ss: int, Se: int, Ah: int, Al: int)
    requires ci < 3 && Reaches(script, [a, b, c])
    requires var s := OneScan(ci, Ss, Se, Ah, Al); Banded(s) && RangesOk(s) && BandsOk([a, b, c][ci], s)
    ensures var s := OneScan(ci, Ss, Se, Ah, Al);
      Reaches(script + [s], [if ci == 0 then MarkBands(a, s) else a, if ci == 1 then MarkBands(b, s)
        else b, if ci == 2 then MarkBands(c, s) else c])
  {
    hide Reaches, BandsOk, MarkBands;
    var s := OneScan(ci, Ss, Se, Ah, Al);
    AddScan(script, [a, b, c], s);
    assert MarkThose([a, b, c], s) ==
      [if ci == 0 then MarkBands(a, s) else a, if ci == 1 then MarkBands(b, s) else b, if ci == 2 then MarkBands(c, s)
        else c];
  }

  lemma DcOfThree(script: seq<ScanInfo>, a: Bands, b: Bands, c: Bands, Ah: int, Al: int)
    requires Reaches(script, [a, b, c]) && RangesOk(OneScan(0, 0, 0, Ah, Al))
    requires var s := OneScan(0, 0, 0, Ah, Al); BandsOk(a, s) && BandsOk(b, s) && BandsOk(c, s)
    ensures Reaches(script + DcScans(3, Ah, Al), [a.(dc := Al), b.(dc := Al), c.(dc := Al)])
  {
    hide Reaches;
    var s := ScanInfo(seq(3, ci => ci), 0, 0, Ah, Al);
    forall c | 0 <= c < 3 ensures c in s.component_index { assert s.component_index[c] == c; }
    AddScan(script, [a, b, c], s);
    assert MarkThose([a, b, c], s) == [a.(dc := Al), b.(dc := Al), c.(dc := Al)];
  }

  lemma YccReaches()
    ensures Reaches(YccScript(), seq(3, _ => Bands(0, 0, 0)))
  {
    hide Reaches;
    var u := Bands(-1, -1, -1);
    StartReached(3, [u, u, u]);
    DcOfThree([], u, u, u, 0, 1);
    var d := Bands(1, -1, -1);
    var s0 := [] + DcScans(3, 0, 1);
    assert s0 == DcScans(3, 0, 1);
    AddOne(s0, d, d, d, 0, 1, 5, 0, 2);
    var s1 := s0 + [OneScan(0, 1, 5, 0, 2)];
    AddOne(s1, Bands(1, 2, -1), d, d, 2, 1, 63, 0, 1);
    var s2 := s1 + [OneScan(2, 1, 63, 0, 1)];
    AddOne(s2, Bands(1, 2, -1), d, Bands(1, 1, 1), 1, 1, 63, 0, 1);
    var s3 := s2 + [OneScan(1, 1, 63, 0, 1)];
    AddOne(s3, Bands(1, 2, -1), Bands(1, 1, 1), Bands(1, 1, 1), 0, 6, 63, 0, 2);
    var s4 := s3 + [OneScan(0, 6, 63, 0, 2)];
    AddOne(s4, Bands(1, 2, 2), Bands(1, 1, 1), Bands(1, 1, 1), 0, 1, 63, 2, 1);
    var s5 := s4 + [OneScan(0, 1, 63, 2, 1)];
    DcOfThree(s5, Bands(1, 1, 1), Bands(1, 1, 1), Bands(1, 1, 1), 1, 0);
    var s6 := s5 + DcScans(3, 1, 0);
    var e := Bands(0, 1, 1);
    AddOne(s6, e, e, e, 2, 1, 63, 1, 0);
    var s7 := s6 + [OneScan(2, 1, 63, 1, 0)];
    AddOne(s7, e, e, Bands(0, 0, 0), 1, 1, 63, 1, 0);
    var s8 := s7 + [OneScan(1, 1, 63, 1, 0)];
    AddOne(s8, e, Bands(0, 0, 0), Bands(0, 0, 0), 0, 1, 63, 1, 0);
    assert seq(3, _ => Bands(0, 0, 0)) == [Bands(0, 0, 0), Bands(0, 0, 0), Bands(0, 0, 0)];
  }

  /** For any number of components the script is accepted, and it leaves every coefficient of every
      component at bit position 0. */
  lemma SimpleProgressionIsComplete(n: nat, ycc: bool)
    requires n >= 1
    ensures ScriptAccepted(ProgressionScript(n, ycc), n)
    ensures Progressive(ProgressionScript(n, ycc), Unsent(n))
    ensures LevelsAfter(ProgressionScript(n, ycc), Unsent(n)) == seq(n, _ => seq(64, _ => 0))
  {
    hide Progressive, LevelsAfter;
    var script, ts := ProgressionScript(n, ycc), seq(n, _ => Bands(0, 0, 0));
    if n == 3 && ycc { YccReaches(); } else { AllPurposeReaches(n); }
    assert Reaches(script, ts);
    FirstIsDc(n, ycc);
    forall c | 0 <= c < n ensures Table(ts)[c] == seq(64, _ => 0) {}
    assert Table(ts) == seq(n, _ => seq(64, _ => 0));
  }

  lemma FirstIsDc(n: nat, ycc: bool)
    requires n >= 1
    ensures ProgressionScript(n, ycc) != [] && ProgressionScript(n, ycc)[0].Se == 0
  {
    var script := ProgressionScript(n, ycc);
    assert DcScans(n, 0, 1) <= script;
    assert DcScans(n, 0, 1)[0].Se == 0;
  }

  // ---- The order of the scans ----

  /** The scan sends coefficient k of component c down to bit Al. */
  predicate Sends(s: ScanInfo, c: int, k: int, Al: int) {
    c in s.component_index && s.Ss <= k <= s.Se && s.Al == Al
  }

  /** When that happens in the custom script: some luma early, chroma at once, then the other luma coefficients,
      and luma's last bit at the very end; -1 if it never happens. */
  function YccTurn(c: nat, k: nat, Al: int): int {
    if c > 2 || k > 63 || Al < 0 || Al > 2 then -1
    else if k == 0 then (if Al == 1 then 0 else if Al == 0 then 6 else -1)
    else if c == 0 then (if Al == 2 then (if k <= 5 then 1 else 4) else if Al == 1 then 5 else 9)
    else if Al == 1 then 4 - c else if Al == 0 then 9 - c else -1
  }

  /** Every bit of every coefficient is sent once, in that turn. */
  lemma YccOrder(i: nat, c: nat, k: nat, Al: int)
    requires i < |ProgressionScript(3, true)|
    ensures |ProgressionScript(3, true)| == 10
    ensures Sends(ProgressionScript(3, true)[i], c, k, Al) <==> YccTurn(c, k, Al) == i
  {
    hide DcScans;
    DcTogether(3, 0, 1, c);
    DcTogether(3, 1, 0, c);
  }

  lemma DcTogether(n: nat, Ah: int, Al: int, c: nat)
    requires n <= MAX_COMPS_IN_SCAN
    ensures var s := DcScans(n, Ah, Al);
      |s| == 1 && s[0].Ss == s[0].Se == 0 && s[0].Al == Al && (c in s[0].component_index <==> c < n)
  {
    var s := DcScans(n, Ah, Al)[0];
    if c < n { assert s.component_index[c] == c; }
  }

  /** The pass of the other script that sends coefficient k down to bit Al: DC, five AC coefficients, the other
      ones, their next bit, the last bit of DC and that of AC. */
  function Pass(k: nat, Al: int): int {
    if k == 0 then (if Al == 1 then 0 else if Al == 0 then 4 else -1)
    else if Al == 2 then (if k <= 5 then 1 else 2) else if Al == 1 then 3 else if Al == 0 then 5 else -1
  }

  /** Within a pass the components follow each other, except that one scan sends the DC coefficients of up to
      four of them. */
  function Turn(n: nat, c: nat, k: nat, Al: int): int {
    var p, dc, d := Pass(k, Al), if n > MAX_COMPS_IN_SCAN then n else 1, if n > MAX_COMPS_IN_SCAN then c else 0;
    if c >= n || k > 63 || p < 0 then -1
    else if p == 0 then d
    else if p == 1 then dc + c
    else if p == 2 then dc + n + c
    else if p == 3 then dc + 2 * n + c
    else if p == 4 then dc + 3 * n + d
    else 2 * dc + 3 * n + c
  }

  lemma AllPurposeOrder(n: nat, i: nat, c: nat, k: nat, Al: int)
    requires i < |AllPurposeScript(n)|
    ensures Sends(AllPurposeScript(n)[i], c, k, Al) <==> Turn(n, c, k, Al) == i
  {
    hide DcScans, EachComponentScans;
    var d := |DcScans(n, 0, 1)|;
    var e1, e2, e3, e4 := EachComponentScans(n, 1, 5, 0, 2), EachComponentScans(n, 6, 63, 0, 2),
                          EachComponentScans(n, 1, 63, 2, 1), EachComponentScans(n, 1, 63, 1, 0);
    var s := AllPurposeScript(n);
    if n <= MAX_COMPS_IN_SCAN { DcTogether(n, 0, 1, c); DcTogether(n, 1, 0, c); }
    if i < d {
      if n > MAX_COMPS_IN_SCAN { DcEach(n, 0, 1); EachSends(n, 0, 0, 0, 1, i, c, k, Al); }
      assert s[i] == DcScans(n, 0, 1)[i];
    } else if i < d + n {
      assert s[i] == e1[i - d];
      EachSends(n, 1, 5, 0, 2, i - d, c, k, Al);
    } else if i < d + 2 * n {
      assert s[i] == e2[i - d - n];
      EachSends(n, 6, 63, 0, 2, i - d - n, c, k, Al);
    } else if i < d + 3 * n {
      assert s[i] == e3[i - d - 2 * n];
      EachSends(n, 1, 63, 2, 1, i - d - 2 * n, c, k, Al);
    } else if i < 2 * d + 3 * n {
      if n > MAX_COMPS_IN_SCAN { DcEach(n, 1, 0); EachSends(n, 0, 0, 1, 0, i - d - 3 * n, c, k, Al); }
      assert s[i] == DcScans(n, 1, 0)[i - d - 3 * n];
    } else {
      assert s[i] == e4[i - 2 * d - 3 * n];
      EachSends(n, 1, 63, 1, 0, i - 2 * d - 3 * n, c, k, Al);
    }
  }

  lemma DcEach(n: nat, Ah: int, Al: int)
    requires n > MAX_COMPS_IN_SCAN
    ensures DcScans(n, Ah, Al) == EachComponentScans(n, 0, 0, Ah, Al)
  {}

  lemma EachSends(n: nat, Ss: int, Se: int, Ah: int, scanAl: int, j: nat, c: nat, k: nat, Al: int)
    requires j < n
    ensures Sends(EachComponentScans(n, Ss, Se, Ah, scanAl)[j], c, k, Al) <==> c == j && Ss <= k <= Se && Al == scanAl
  {}
}
