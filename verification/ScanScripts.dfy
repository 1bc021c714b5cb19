/** Scan scripts: validate_script of jcmaster.c, the progression check of start_pass_phuff_decoder
    (jdphuff.c) and jpeg_simple_progression of jcparam.c (section G.1.1.1 of ITU-T T.81). */
module ScanScripts {
  const MAX_COMPS_IN_SCAN: nat := 4
  const MAX_AH_AL: int := 10

  /** jpeg_scan_info; comps_in_scan is the length of component_index, as later entries are never read. */
  datatype ScanInfo = ScanInfo(component_index: seq<int>, Ss: int, Se: int, Ah: int, Al: int)

  /** The point transform up to which each coefficient of each component has been sent, -1 if not at all. */
  type Levels = seq<seq<int>>

  ghost predicate Shape(levels: Levels, n: nat) {
    |levels| == n && forall c :: 0 <= c < n ==> |levels[c]| == 64
  }

  // ---- What validate_script accepts ----

  ghost predicate ComponentsOk(s: ScanInfo, n: nat) {
    && 1 <= |s.component_index| <= MAX_COMPS_IN_SCAN
    && (forall i :: 0 <= i < |s.component_index| ==> 0 <= s.component_index[i] < n)
    && (forall i, j :: 0 <= i < j < |s.component_index| ==> s.component_index[i] < s.component_index[j])
  }

  ghost predicate RangesOk(s: ScanInfo) {
    && 0 <= s.Ss <= s.Se < 64 && 0 <= s.Ah <= MAX_AH_AL && 0 <= s.Al <= MAX_AH_AL
    && (if s.Ss == 0 then s.Se == 0 else |s.component_index| == 1)
  }

  /** Successive approximation of one coefficient: a first scan, or one more bit. */
  predicate NextBit(last: int, s: ScanInfo) {
    if last < 0 then s.Ah == 0 else s.Ah == last && s.Al == s.Ah - 1
  }

  ghost predicate RowOk(row: seq<int>, s: ScanInfo)
    requires |row| == 64
  {
    && (s.Ss != 0 ==> row[0] >= 0)
    && forall k :: 0 <= s.Ss <= k <= s.Se < 64 ==> NextBit(row[k], s)
  }

  ghost predicate Continues(levels: Levels, s: ScanInfo)
    requires Shape(levels, |levels|)
  {
    forall c :: 0 <= c < |levels| && c in s.component_index ==> RowOk(levels[c], s)
  }

  function MarkRow(row: seq<int>, s: ScanInfo): (r: seq<int>)
    ensures |r| == |row|
  {
    seq(|row|, k requires 0 <= k < |row| => if s.Ss <= k <= s.Se then s.Al else row[k])
  }

  /** The progress made by one scan. */
  ghost function Mark(levels: Levels, s: ScanInfo): (r: Levels)
    ensures |r| == |levels|
    ensures Shape(levels, |levels|) ==> Shape(r, |r|)
  {
    seq(|levels|, c requires 0 <= c < |levels| => if c in s.component_index then MarkRow(levels[c], s) else levels[c])
  }

  function Unsent(n: nat): (levels: Levels)
    ensures |levels| == n && forall c :: 0 <= c < n ==> levels[c] == seq(64, _ => -1)
  {
    seq(n, _ => seq(64, _ => -1))
  }

  /** The progress after a sequence of scans. */
  ghost function LevelsAfter(script: seq<ScanInfo>, start: Levels): (levels: Levels)
    ensures |levels| == |start|
    ensures Shape(start, |start|) ==> Shape(levels, |levels|)
  {
    if script == [] then start else Mark(LevelsAfter(script[..|script| - 1], start), script[|script| - 1])
  }

  /** Each scan is well-formed and continues where the earlier ones left off. */
  ghost predicate Progressive(script: seq<ScanInfo>, start: Levels)
    requires Shape(start, |start|)
  {
    script != [] ==>
      && Progressive(script[..|script| - 1], start)
      && ComponentsOk(script[|script| - 1], |start|) && RangesOk(script[|script| - 1])
      && Continues(LevelsAfter(script[..|script| - 1], start), script[|script| - 1])
  }

  ghost predicate ProgressiveScript(script: seq<ScanInfo>, n: nat) {
    && script != [] && Progressive(script, Unsent(n))
    && forall c :: 0 <= c < n ==> LevelsAfter(script, Unsent(n))[c][0] >= 0
  }

  predicate FullBand(s: ScanInfo) {
    s.Ss == 0 && s.Se == 63 && s.Ah == 0 && s.Al == 0
  }

  ghost predicate Sent(script: seq<ScanInfo>, c: int) {
    exists i :: 0 <= i < |script| && c in script[i].component_index
  }

  /** Sequential: every component in exactly one scan. */
  ghost predicate SequentialScript(script: seq<ScanInfo>, n: nat) {
    && script != []
    && (forall i :: 0 <= i < |script| ==> ComponentsOk(script[i], n) && FullBand(script[i]))
    && (forall j, c :: 0 <= j < |script| && c in script[j].component_index ==> !Sent(script[..j], c))
    && (forall c :: 0 <= c < n ==> Sent(script, c))
  }

  ghost predicate ScriptAccepted(script: seq<ScanInfo>, n: nat) {
    script != [] &&
    if script[0].Ss != 0 || script[0].Se != 63 then ProgressiveScript(script, n) else SequentialScript(script, n)
  }

  // ---- What the decoder checks at the start of a progressive scan ----

  /** No error: these are all the tests that end in JERR_BAD_PROGRESSION. */
  predicate DecoderParamsOk(s: ScanInfo) {
    && (if s.Ss == 0 then s.Se == 0 else s.Ss <= s.Se && s.Se < 64 && |s.component_index| == 1)
    && (s.Ah != 0 ==> s.Al == s.Ah - 1)
    && s.Al <= 13
  }

  /** No JWRN_BOGUS_PROGRESSION warning for a component. */
  ghost predicate NoWarning(row: seq<int>, s: ScanInfo)
    requires |row| == 64
  {
    && (s.Ss != 0 ==> row[0] >= 0)
    && forall k :: 0 <= s.Ss <= k <= s.Se < 64 ==> s.Ah == if row[k] < 0 then 0 else row[k]
  }

  ghost predicate DecoderSatisfied(levels: Levels, s: ScanInfo)
    requires Shape(levels, |levels|)
  {
    DecoderParamsOk(s) && forall c :: 0 <= c < |levels| && c in s.component_index ==> NoWarning(levels[c], s)
  }

  /** No coefficient of the band has been sent completely. */
  ghost predicate Incomplete(levels: Levels, s: ScanInfo)
    requires Shape(levels, |levels|)
  {
    forall c, k :: 0 <= c < |levels| && c in s.component_index && 0 <= s.Ss <= k <= s.Se < 64 ==> levels[c][k] != 0
  }

  /** Of the scans within its ranges, the encoder's check accepts exactly those that the decoder takes
      without error or warning and that send nothing a second time. */
  lemma ChecksAgree(levels: Levels, s: ScanInfo)
    requires Shape(levels, |levels|) && ComponentsOk(s, |levels|) && RangesOk(s)
    ensures Continues(levels, s) <==> DecoderSatisfied(levels, s) && Incomplete(levels, s)
  {
    var c := s.component_index[0];
    assert c in s.component_index;
    if Continues(levels, s) {
      assert RowOk(levels[c], s) && NextBit(levels[c][s.Ss], s);
      forall c, k | 0 <= c < |levels| && c in s.component_index && 0 <= s.Ss <= k <= s.Se < 64
        ensures levels[c][k] != 0 && s.Ah == if levels[c][k] < 0 then 0 else levels[c][k]
      {
        assert NextBit(levels[c][k], s);
      }
    }
  }

  /** Every accepted progressive script decodes with no error and no warning in any scan. */
  lemma {:induction false} ScriptDecodes(script: seq<ScanInfo>, start: Levels, i: nat)
    requires Shape(start, |start|) && Progressive(script, start) && i < |script|
    ensures DecoderSatisfied(LevelsAfter(script[..i], start), script[i])
    decreases |script|
  {
    var n := |script| - 1;
    if i < n {
      ScriptDecodes(script[..n], start, i);
      assert script[..n][..i] == script[..i];
    } else {
      ChecksAgree(LevelsAfter(script[..n], start), script[n]);
    }
  }

  // ---- The checks as they are coded ----

  /** The rows of a two-dimensional array. */
  ghost function Rows(a: array2<int>): (levels: Levels)
    requires a.Length1 == 64
    reads a
    ensures Shape(levels, a.Length0)
  {
    seq(a.Length0, c requires 0 <= c < a.Length0 reads a => seq(64, k requires 0 <= k < 64 reads a => a[c, k]))
  }

  /** One component of a scan, as the encoder checks it. */
  method CheckRow(last_bitpos: array2<int>, c: nat, s: ScanInfo) returns (ok: bool)
    requires last_bitpos.Length1 == 64 && c < last_bitpos.Length0 && 0 <= s.Ss <= s.Se < 64
    modifies last_bitpos
    ensures ok <==> RowOk(old(Rows(last_bitpos))[c], s)
    ensures ok ==> Rows(last_bitpos) == old(Rows(last_bitpos))[c := MarkRow(old(Rows(last_bitpos))[c], s)]
  {
    ghost var before := Rows(last_bitpos);
    if s.Ss != 0 && last_bitpos[c, 0] < 0 {
      return false;
    }
    var coefi := s.Ss;
    while coefi <= s.Se
      invariant s.Ss <= coefi <= s.Se + 1
      invariant forall k :: s.Ss <= k < coefi ==> NextBit(before[c][k], s)
      invariant forall d, k :: 0 <= d < last_bitpos.Length0 && 0 <= k < 64 ==>
        last_bitpos[d, k] == if d == c && s.Ss <= k < coefi then s.Al else before[d][k]
    {
      if last_bitpos[c, coefi] < 0 {
        if s.Ah != 0 {
          assert !NextBit(before[c][coefi], s);
          return false;
        }
      } else {
        if s.Ah != last_bitpos[c, coefi] || s.Al != s.Ah - 1 {
          assert !NextBit(before[c][coefi], s);
          return false;
        }
      }
      last_bitpos[c, coefi] := s.Al;
      coefi := coefi + 1;
    }
    ok := true;
    assert Rows(last_bitpos)[c] == MarkRow(before[c], s);
    assert forall d :: 0 <= d < last_bitpos.Length0 && d != c ==> Rows(last_bitpos)[d] == before[d];
  }

  /** One component of a scan, as the decoder checks it: inconsistencies only count as warnings. */
  method WarnRow(coef_bits: array2<int>, c: nat, s: ScanInfo) returns (warnings: nat)
    requires coef_bits.Length1 == 64 && c < coef_bits.Length0 && 0 <= s.Ss <= s.Se < 64
    modifies coef_bits
    ensures warnings == 0 <==> NoWarning(old(Rows(coef_bits))[c], s)
    ensures Rows(coef_bits) == old(Rows(coef_bits))[c := MarkRow(old(Rows(coef_bits))[c], s)]
  {
    ghost var before := Rows(coef_bits);
    warnings := 0;
    if s.Ss != 0 && coef_bits[c, 0] < 0 {
      warnings := 1;
    }
    var coefi := s.Ss;
    while coefi <= s.Se
      invariant s.Ss <= coefi <= s.Se + 1
      invariant warnings == 0 <==> (
        && (s.Ss != 0 ==> before[c][0] >= 0)
        && forall k :: s.Ss <= k < coefi ==> s.Ah == if before[c][k] < 0 then 0 else before[c][k])
      invariant forall d, k :: 0 <= d < coef_bits.Length0 && 0 <= k < 64 ==>
        coef_bits[d, k] == if d == c && s.Ss <= k < coefi then s.Al else before[d][k]
    {
      var expected := if coef_bits[c, coefi] < 0 then 0 else coef_bits[c, coefi];
      assert expected == if before[c][coefi] < 0 then 0 else before[c][coefi];
      if s.Ah != expected {
        warnings := warnings + 1;
      }
      coef_bits[c, coefi] := s.Al;
      coefi := coefi + 1;
    }
    assert Rows(coef_bits)[c] == MarkRow(before[c], s);
    assert forall d :: 0 <= d < coef_bits.Length0 && d != c ==> Rows(coef_bits)[d] == before[d];
  }

  /** Some components of the scan marked. */
  ghost function MarkSome(levels: Levels, comps: seq<int>, s: ScanInfo): (r: Levels)
    ensures |r| == |levels|
    ensures Shape(levels, |levels|) ==> Shape(r, |r|)
  {
    seq(|levels|, c requires 0 <= c < |levels| => if c in comps then MarkRow(levels[c], s) else levels[c])
  }

  lemma MarkOneMore(levels: Levels, s: ScanInfo, i: nat)
    requires i < |s.component_index| && 0 <= s.component_index[i] < |levels|
    requires forall j :: 0 <= j < i ==> s.component_index[j] != s.component_index[i]
    ensures var c := s.component_index[i];
      && MarkSome(levels, s.component_index[..i], s)[c] == levels[c]
      && MarkSome(levels, s.component_index[..i + 1], s) == MarkSome(levels, s.component_index[..i],
         s)[c := MarkRow(levels[c], s)]
  {
    hide MarkRow;
    var comps := s.component_index;
    assert comps[..i + 1] == comps[..i] + [comps[i]];
  }

  lemma MarkAll(levels: Levels, s: ScanInfo)
    ensures MarkSome(levels, s.component_index[..0], s) == levels
    ensures MarkSome(levels, s.component_index[..|s.component_index|], s) == Mark(levels, s)
  {
    hide MarkRow;
    assert s.component_index[..|s.component_index|] == s.component_index;
  }

  method CheckComponents(s: ScanInfo, num_components: nat) returns (ok: bool)
    ensures ok <==> ComponentsOk(s, num_components)
  {
    var ncomps := |s.component_index|;
    if ncomps <= 0 || ncomps > MAX_COMPS_IN_SCAN {
      return false;
    }
    for ci := 0 to ncomps
      invariant forall i :: 0 <= i < ci ==> 0 <= s.component_index[i] < num_components
      invariant forall i, j :: 0 <= i < j < ci ==> s.component_index[i] < s.component_index[j]
    {
      var thisi := s.component_index[ci];
      if thisi < 0 || thisi >= num_components {
        return false;
      }
      if ci > 0 && thisi <= s.component_index[ci - 1] {
        return false;
      }
    }
    ok := true;
  }

  /** One scan of a progressive script. */
  method CheckProgression(last_bitpos: array2<int>, s: ScanInfo) returns (ok: bool)
    requires last_bitpos.Length1 == 64 && ComponentsOk(s, last_bitpos.Length0)
    modifies last_bitpos
    ensures ok <==> RangesOk(s) && Continues(old(Rows(last_bitpos)), s)
    ensures ok ==> Rows(last_bitpos) == Mark(old(Rows(last_bitpos)), s)
  {
    hide MarkRow, RowOk, Rows, MarkSome, Mark;
    ghost var before := Rows(last_bitpos);
    if s.Ss < 0 || s.Ss >= 64 || s.Se < s.Ss || s.Se >= 64 || s.Ah < 0 || s.Ah > MAX_AH_AL || s.Al < 0
      || s.Al > MAX_AH_AL {
      return false;
    }
    if s.Ss == 0 {
      if s.Se != 0 {
        return false;
      }
    } else {
      if |s.component_index| != 1 {
        return false;
      }
    }
    MarkAll(before, s);
    var ci := 0;
    while ci < |s.component_index|
      invariant ci <= |s.component_index| && Rows(last_bitpos) == MarkSome(before, s.component_index[..ci], s)
      invariant forall i :: 0 <= i < ci ==> RowOk(before[s.component_index[i]], s)
    {
      MarkOneMore(before, s, ci);
      ok := CheckRow(last_bitpos, s.component_index[ci], s);
      if !ok {
        assert s.component_index[ci] in s.component_index;
        return;
      }
      ci := ci + 1;
    }
    ok := true;
    forall c | 0 <= c < |before| && c in s.component_index ensures RowOk(before[c], s) {
      var i :| 0 <= i < |s.component_index| && s.component_index[i] == c;
    }
  }

  /** start_pass_phuff_decoder, the scan parameters: error or not, number of warnings, and the new
      progression status. The components come from the SOS marker, all different. */
  method StartPassCheck(coef_bits: array2<int>, s: ScanInfo) returns (ok: bool, warnings: nat)
    requires coef_bits.Length1 == 64 && 0 <= s.Ss <= 255 && 0 <= s.Se <= 255 && 0 <= s.Ah <= 15 && 0 <= s.Al <= 15
    requires forall i :: 0 <= i < |s.component_index| ==> 0 <= s.component_index[i] < coef_bits.Length0
    requires forall i, j :: 0 <= i < j < |s.component_index| ==> s.component_index[i] != s.component_index[j]
    modifies coef_bits
    ensures ok <==> DecoderParamsOk(s)
    ensures ok ==> (warnings == 0 <==> DecoderSatisfied(old(Rows(coef_bits)), s))
    ensures Rows(coef_bits) == if ok then Mark(old(Rows(coef_bits)), s) else old(Rows(coef_bits))
  {
    hide MarkRow, NoWarning, Rows, MarkSome, Mark;
    ghost var before := Rows(coef_bits);
    var bad := false;
    warnings := 0;
    if s.Ss == 0 {
      if s.Se != 0 {
        bad := true;
      }
    } else {
      if s.Ss > s.Se || s.Se >= 64 {
        bad := true;
      }
      if |s.component_index| != 1 {
        bad := true;
      }
    }
    if s.Ah != 0 {
      if s.Al != s.Ah - 1 {
        bad := true;
      }
    }
    if s.Al > 13 {
      bad := true;
    }
    if bad {
      return false, 0;
    }
    ok := true;
    MarkAll(before, s);
    var ci := 0;
    while ci < |s.component_index|
      invariant ci <= |s.component_index| && Rows(coef_bits) == MarkSome(before, s.component_index[..ci], s)
      invariant warnings == 0 <==> forall i :: 0 <= i < ci ==> NoWarning(before[s.component_index[i]], s)
    {
      MarkOneMore(before, s, ci);
      var w := WarnRow(coef_bits, s.component_index[ci], s);
      warnings := warnings + w;
      ci := ci + 1;
    }
    EachComponent(before, s);
  }

  lemma EachComponent(levels: Levels, s: ScanInfo)
    requires Shape(levels, |levels|) && DecoderParamsOk(s)
    requires forall i :: 0 <= i < |s.component_index| ==> 0 <= s.component_index[i] < |levels|
    ensures DecoderSatisfied(levels, s) <==> forall i :: 0 <= i < |s.component_index| ==>
      NoWarning(levels[s.component_index[i]], s)
  {
    hide NoWarning;
    forall i | 0 <= i < |s.component_index| ensures s.component_index[i] in s.component_index {}
  }

  lemma {:induction false} ProgressivePrefix(script: seq<ScanInfo>, start: Levels, i: nat)
    requires Shape(start, |start|) && i <= |script| && Progressive(script, start)
    ensures Progressive(script[..i], start)
    decreases |script|
  {
    hide Continues, RangesOk, ComponentsOk;
    if i == |script| {
      assert script[..i] == script;
    } else {
      ProgressivePrefix(script[..|script| - 1], start, i);
      assert script[..|script| - 1][..i] == script[..i];
    }
  }

  /** One more scan of a progressive script. */
  lemma {:induction false} ProgressiveNext(script: seq<ScanInfo>, start: Levels, i: nat)
    requires Shape(start, |start|) && i < |script| && Progressive(script[..i], start)
    ensures var good := ComponentsOk(script[i], |start|) && RangesOk(script[i])
      && Continues(LevelsAfter(script[..i], start), script[i]);
      && (good <==> Progressive(script[..i + 1], start))
      && LevelsAfter(script[..i + 1], start) == Mark(LevelsAfter(script[..i], start), script[i])
      && (!good ==> !Progressive(script, start))
  {
    hide Continues, RangesOk, ComponentsOk, Mark;
    assert script[..i + 1][..i] == script[..i];
    if Progressive(script, start) { ProgressivePrefix(script, start, i + 1); }
  }

  /** The progressive branch of validate_script. */
  method ValidateProgressive(script: seq<ScanInfo>, num_components: nat) returns (ok: bool)
    requires script != []
    ensures ok <==> ProgressiveScript(script, num_components)
  {
    hide Continues, RangesOk, ComponentsOk, Mark, Progressive, LevelsAfter, Rows;
    var last_bitpos := new int[num_components, 64]((_, _) => -1);
    ghost var start := Unsent(num_components);
    AllUnsent(last_bitpos, num_components);
    NothingYet(script, start);
    var scanno := 0;
    while scanno < |script|
      invariant scanno <= |script| && Progressive(script[..scanno], start)
      invariant Rows(last_bitpos) == LevelsAfter(script[..scanno], start)
    {
      ProgressiveNext(script, start, scanno);
      ok := CheckComponents(script[scanno], num_components);
      if !ok {
        return;
      }
      ok := CheckProgression(last_bitpos, script[scanno]);
      if !ok {
        return;
      }
      scanno := scanno + 1;
    }
    assert script[..scanno] == script;
    for ci := 0 to num_components
      invariant Rows(last_bitpos) == LevelsAfter(script, start)
      invariant forall c :: 0 <= c < ci ==> LevelsAfter(script, start)[c][0] >= 0
    {
      DcEntry(last_bitpos, ci);
      if last_bitpos[ci, 0] < 0 {
        return false;
      }
    }
    ok := true;
  }

  lemma AllUnsent(a: array2<int>, n: nat)
    requires a.Length0 == n && a.Length1 == 64 && forall c, k :: 0 <= c < n && 0 <= k < 64 ==> a[c, k] == -1
    ensures Rows(a) == Unsent(n)
  {
    forall c | 0 <= c < n ensures Rows(a)[c] == Unsent(n)[c] {}
  }

  lemma DcEntry(a: array2<int>, c: nat)
    requires a.Length1 == 64 && c < a.Length0
    ensures Rows(a)[c][0] == a[c, 0]
  {}

  lemma {:induction false} NothingYet(script: seq<ScanInfo>, start: Levels)
    requires Shape(start, |start|)
    ensures Progressive(script[..0], start) && LevelsAfter(script[..0], start) == start
  {}

  /** The sequential branch of validate_script. */
  method ValidateSequential(script: seq<ScanInfo>, num_components: nat) returns (ok: bool)
    requires script != []
    ensures ok <==> SequentialScript(script, num_components)
  {
    hide ComponentsOk, Sent;
    var component_sent := new bool[num_components](_ => false);
    var scanno := 0;
    NothingSent(script);
    while scanno < |script|
      invariant scanno <= |script|
      invariant forall i :: 0 <= i < scanno ==> ComponentsOk(script[i], num_components) && FullBand(script[i])
      invariant forall j, c :: 0 <= j < scanno && c in script[j].component_index ==> !Sent(script[..j], c)
      invariant forall c :: 0 <= c < num_components ==> (component_sent[c] <==> Sent(script[..scanno], c))
    {
      var s := script[scanno];
      ok := CheckComponents(s, num_components);
      if !ok {
        return;
      }
      if !FullBand(s) {
        return false;
      }
      ComponentFacts(s, num_components);
      SentNext(script, scanno);
      for ci := 0 to |s.component_index|
        invariant forall i :: 0 <= i < ci ==> !Sent(script[..scanno], s.component_index[i])
        invariant forall c :: 0 <= c < num_components ==>
          (component_sent[c] <==> Sent(script[..scanno], c) || c in s.component_index[..ci])
      {
        var thisi := s.component_index[ci];
        assert thisi !in s.component_index[..ci];
        if component_sent[thisi] {
          assert thisi in script[scanno].component_index;
          return false;
        }
        component_sent[thisi] := true;
        assert s.component_index[..ci + 1] == s.component_index[..ci] + [thisi];
      }
      assert s.component_index[..|s.component_index|] == s.component_index;
      scanno := scanno + 1;
    }
    assert script[..scanno] == script;
    for ci := 0 to num_components
      invariant forall c :: 0 <= c < ci ==> component_sent[c]
    {
      if !component_sent[ci] {
        return false;
      }
    }
    ok := true;
  }

  lemma NothingSent(script: seq<ScanInfo>)
    ensures forall c :: !Sent(script[..0], c)
  {}

  lemma SentNext(script: seq<ScanInfo>, i: nat)
    requires i < |script|
    ensures forall c :: Sent(script[..i + 1], c) <==> Sent(script[..i], c) || c in script[i].component_index
  {
    var a, b := script[..i], script[..i + 1];
    assert b[i] == script[i] && forall j :: 0 <= j < i ==> a[j] == b[j];
    forall c | Sent(a, c) || c in b[i].component_index ensures Sent(b, c) {
      if Sent(a, c) {
        var j :| 0 <= j < |a| && c in a[j].component_index;
        assert c in b[j].component_index;
      }
    }
    forall c | Sent(b, c) && c !in b[i].component_index ensures Sent(a, c) {
      var j :| 0 <= j < |b| && c in b[j].component_index;
      assert c in a[j].component_index;
    }
  }

  lemma ComponentFacts(s: ScanInfo, n: nat)
    requires ComponentsOk(s, n)
    ensures forall i :: 0 <= i < |s.component_index| ==> 0 <= s.component_index[i] < n
    ensures forall i, j :: 0 <= i < j < |s.component_index| ==> s.component_index[i] != s.component_index[j]
  {}

  /** validate_script */
  method ValidateScript(script: seq<ScanInfo>, num_components: nat) returns (ok: bool, progressive_mode: bool)
    ensures ok <==> ScriptAccepted(script, num_components)
    ensures ok ==> (progressive_mode <==> !FullBand(script[0]))
  {
    if |script| <= 0 {
      return false, false;
    }
    hide ProgressiveScript, SequentialScript;
    progressive_mode := script[0].Ss != 0 || script[0].Se != 63;
    if progressive_mode {
      ok := ValidateProgressive(script, num_components);
    } else {
      ok := ValidateSequential(script, num_components);
      FirstFull(script, num_components);
    }
  }

  lemma FirstFull(script: seq<ScanInfo>, n: nat)
    requires script != []
    ensures SequentialScript(script, n) ==> FullBand(script[0])
  {}

  /** The limits in numbers: point transforms up to 10, or 13 for the decoder; up to four components in a scan. */
  lemma ScriptLimits(Al: int, n: nat)
    requires n >= 1
    ensures ScriptAccepted([ScanInfo([0], 0, 0, 0, Al)], 1) <==> 0 <= Al <= 10
    ensures ScriptAccepted([ScanInfo(seq(n, c => c), 0, 63, 0, 0)], n) <==> n <= 4
    ensures DecoderParamsOk(ScanInfo([0], 0, 0, 0, Al)) <==> Al <= 13
  {
    DcScript(Al);
    OneScanScript(n);
  }

  lemma DcScript(Al: int)
    ensures ScriptAccepted([ScanInfo([0], 0, 0, 0, Al)], 1) <==> 0 <= Al <= 10
  {
    var s := ScanInfo([0], 0, 0, 0, Al);
    assert [s][..0] == [] && [s][0] == s;
    assert LevelsAfter([], Unsent(1)) == Unsent(1) && Progressive([], Unsent(1));
    if 0 <= Al <= 10 {
      assert Continues(Unsent(1), s);
      assert LevelsAfter([s], Unsent(1)) == Mark(Unsent(1), s);
    }
  }

  lemma OneScanScript(n: nat)
    requires n >= 1
    ensures ScriptAccepted([ScanInfo(seq(n, c => c), 0, 63, 0, 0)], n) <==> n <= 4
  {
    var s := ScanInfo(seq(n, c => c), 0, 63, 0, 0);
    forall c | 0 <= c < n ensures Sent([s], c) { assert s.component_index[c] == c && c in [s][0].component_index; }
    assert [s][..0] == [];
  }
}
