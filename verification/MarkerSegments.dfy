/** The marker segments of Huffman-coded files (sections B.2.2 to B.2.4 of ITU-T T.81): what the marker writer
    of jcmarker.c emits for each, and how the marker reader of jdmarker.c understands it. */
module MarkerSegments {
  import opened HuffmanTables
  import opened NaturalOrder
  import ScanScripts

  const NUM_TBLS: nat := 4
  const M_SOF0: nat := 0xC0
  const M_SOF1: nat := 0xC1
  const M_SOF2: nat := 0xC2
  const M_DHT: nat := 0xC4
  const M_EOI: nat := 0xD9
  const M_SOS: nat := 0xDA
  const M_DQT: nat := 0xDB
  const M_DRI: nat := 0xDD

  /** A quantisation table, in natural order. */
  ghost predicate QuantOk(q: seq<nat>) {
    |q| == 64 && forall i :: 0 <= i < 64 ==> q[i] < 65536
  }

  /** What a reader knows of a Huffman table: the counts of lengths 1 to 16 and the symbols listed. */
  datatype Listed = Listed(bits: seq<nat>, symbols: seq<nat>)

  datatype FrameComp = FrameComp(id: nat, h: nat, v: nat, tq: nat)

  datatype Frame = Frame(code: nat, precision: nat, height: nat, width: nat, comps: seq<FrameComp>)

  /** A component of a scan: its place in the frame, and its table selectors. */
  datatype ScanComp = ScanComp(ci: nat, td: nat, ta: nat)

  datatype ScanHeader = ScanHeader(comps: seq<ScanComp>, Ss: nat, Se: nat, Ah: nat, Al: nat)

  datatype Segment =
    | Dqt(n: nat, prec: nat, quant: seq<nat>)
    | Dht(ac: bool, slot: nat, table: Listed)
    | Dri(interval: nat)
    | Sof(frame: Frame)
    | Sos(ids: seq<nat>, header: ScanHeader)

  /** The decompressor fields that the marker reader sets. */
  datatype Fields = Fields(quant: seq<Option<seq<nat>>>, dc: seq<Option<Listed>>, ac: seq<Option<Listed>>,
                           restart_interval: nat, frame: Option<Frame>, scan: Option<ScanHeader>)
  {
    ghost predicate Ok() {
      |quant| == |dc| == |ac| == NUM_TBLS
    }
  }

  // ---- Writing ----

  function TwoBytes(x: nat): seq<nat> {
    [x / 256 % 256, x % 256]
  }

  /** The first n values of a quantisation table, in zigzag order. */
  function QuantBytes(prec: nat, q: seq<nat>, n: nat): seq<nat>
    requires |q| == 64 && n <= 64
  {
    if n == 0 then []
    else QuantBytes(prec, q, n - 1) + if prec > 0 then TwoBytes(q[NaturalOf(n - 1)]) else [q[NaturalOf(n - 1)] % 256]
  }

  function CompBytes(comps: seq<FrameComp>, n: nat): seq<nat>
    requires n <= |comps|
  {
    if n == 0 then []
    else
      var c := comps[n - 1];
      CompBytes(comps, n - 1) + [c.id, 16 * c.h + c.v, c.tq]
  }

  function SelectorBytes(ids: seq<nat>, comps: seq<ScanComp>, n: nat): seq<nat>
    requires n <= |ids| == |comps|
  {
    if n == 0 then []
    else SelectorBytes(ids, comps, n - 1) + [ids[n - 1], 16 * comps[n - 1].td + comps[n - 1].ta]
  }

  predicate Shaped(seg: Segment) {
    && (seg.Dqt? ==> |seg.quant| == 64 && seg.n < NUM_TBLS)
    && (seg.Sos? ==> |seg.ids| == |seg.header.comps|)
    && (seg.Dht? ==> seg.slot < NUM_TBLS)
  }

  function Code(seg: Segment): nat {
    match seg
    case Dqt(_, _, _) => M_DQT
    case Dht(_, _, _) => M_DHT
    case Dri(_) => M_DRI
    case Sof(frame) => frame.code
    case Sos(_, _) => M_SOS
  }

  /** The parameters of a segment, after its length. */
  function Payload(seg: Segment): seq<nat>
    requires Shaped(seg)
  {
    match seg
    case Dqt(n, prec, q) => [n + 16 * prec] + QuantBytes(prec, q, 64)
    case Dht(ac, slot, t) => [slot + if ac then 16 else 0] + t.bits + t.symbols
    case Dri(interval) => TwoBytes(interval)
    case Sof(f) => [f.precision] + TwoBytes(f.height) + TwoBytes(f.width) + [|f.comps|] + CompBytes(f.comps, |f.comps|)
    case Sos(ids, s) => [|s.comps|] + SelectorBytes(ids, s.comps, |ids|) + [s.Ss, s.Se, 16 * s.Ah + s.Al]
  }

  function Bytes(seg: Segment): seq<nat>
    requires Shaped(seg)
  {
    [0xFF, Code(seg)] + TwoBytes(|Payload(seg)| + 2) + Payload(seg)
  }

  // ---- Reading ----

  function Word(p: seq<nat>, i: nat): nat
    requires i + 1 < |p|
  {
    256 * p[i] + p[i + 1]
  }

  /** The n-th value of a table in a DQT segment. */
  function QuantAt(p: seq<nat>, prec: nat, n: nat): nat
    requires n < 64 && |p| >= (if prec > 0 then 128 else 64)
  {
    if prec > 0 then Word(p, 2 * n) else p[n]
  }

  /** The table, from zigzag to natural order. */
  function QuantFrom(p: seq<nat>, prec: nat): (q: seq<nat>)
    requires |p| >= (if prec > 0 then 128 else 64)
    ensures |q| == 64
  {
    seq(64, k requires 0 <= k < 64 => QuantAt(p, prec, ZigzagOf(k)))
  }

  /** get_dqt */
  function ParseDqt(p: seq<nat>, quant: seq<Option<seq<nat>>>): (r: Option<seq<Option<seq<nat>>>>)
    requires |quant| == NUM_TBLS
    ensures r.Some? ==> |r.value| == NUM_TBLS
  {
    if p == [] then Some(quant)
    else
      var prec, n := p[0] / 16, p[0] % 16;
      var size := if prec > 0 then 128 else 64;
      if n >= NUM_TBLS || |p| < 1 + size then None
      else ParseDqt(p[1 + size..], quant[n := Some(QuantFrom(p[1..], prec))])
  }

  function Sum(s: seq<nat>, n: nat): nat
    requires n <= |s|
  {
    if n == 0 then 0 else Sum(s, n - 1) + s[n - 1]
  }

  /** get_dht */
  function ParseDht(p: seq<nat>, dc: seq<Option<Listed>>, ac: seq<Option<Listed>>)
    : (r: Option<(seq<Option<Listed>>, seq<Option<Listed>>)>)
    requires |dc| == |ac| == NUM_TBLS
    ensures r.Some? ==> |r.value.0| == |r.value.1| == NUM_TBLS
  {
    if |p| <= 16 then (if p == [] then Some((dc, ac)) else None)
    else
      var count := Sum(p[1..17], 16);
      if count > 256 || count > |p| - 17 then None
      else
        var t := Listed(p[1..17], p[17..17 + count]);
        if p[0] / 16 % 2 == 1 then
          if p[0] - 16 >= NUM_TBLS then None else ParseDht(p[17 + count..], dc, ac[p[0] - 16 := Some(t)])
        else if p[0] >= NUM_TBLS then None
        else ParseDht(p[17 + count..], dc[p[0] := Some(t)], ac)
  }

  function CompAt(p: seq<nat>, i: nat): FrameComp
    requires 3 * i + 3 <= |p|
  {
    FrameComp(p[3 * i], p[3 * i + 1] / 16 % 16, p[3 * i + 1] % 16, p[3 * i + 2])
  }

  /** get_sof */
  function ParseSof(code: nat, p: seq<nat>): Option<Frame> {
    if |p| < 6 || Word(p, 1) == 0 || Word(p, 3) == 0 || p[5] == 0 || |p| - 6 != 3 * p[5] then None
    else Some(Frame(code, p[0], Word(p, 1), Word(p, 3), seq(p[5], i requires 0 <= i < p[5] => CompAt(p[6..], i))))
  }

  /** The first component with the given identifier. */
  function FindComp(comps: seq<FrameComp>, id: nat, from: nat): (ci: nat)
    requires from <= |comps|
    ensures from <= ci <= |comps| && (ci < |comps| ==> comps[ci].id == id)
    ensures forall i :: from <= i < ci ==> comps[i].id != id
    decreases |comps| - from
  {
    if from == |comps| || comps[from].id == id then from else FindComp(comps, id, from + 1)
  }

  function SelectorAt(comps: seq<FrameComp>, p: seq<nat>, i: nat): ScanComp
    requires 2 * i + 2 <= |p|
  {
    ScanComp(FindComp(comps, p[2 * i], 0), p[2 * i + 1] / 16 % 16, p[2 * i + 1] % 16)
  }

  function Selectors(comps: seq<FrameComp>, p: seq<nat>, n: nat): (sel: seq<ScanComp>)
    requires 2 * n <= |p|
    ensures |sel| == n
  {
    seq(n, i requires 0 <= i < n => SelectorAt(comps, p, i))
  }

  predicate AllKnown(comps: seq<FrameComp>, sel: seq<ScanComp>) {
    forall i :: 0 <= i < |sel| ==> sel[i].ci < |comps|
  }

  /** get_sos */
  function ParseSos(p: seq<nat>, comps: seq<FrameComp>): Option<ScanHeader> {
    if |p| < 1 || p[0] < 1 || p[0] > ScanScripts.MAX_COMPS_IN_SCAN || |p| != 2 * p[0] + 4 then None
    else
      var n := p[0];
      var sel := Selectors(comps, p[1..], n);
      if !AllKnown(comps, sel) then None
      else Some(ScanHeader(sel, p[2 * n + 1], p[2 * n + 2], p[2 * n + 3] / 16 % 16, p[2 * n + 3] % 16))
  }

  /** What the marker reader makes of a segment. */
  function Parse(code: nat, p: seq<nat>, s: Fields): (r: Option<Fields>)
    requires |s.quant| == |s.dc| == |s.ac| == NUM_TBLS
    ensures r.Some? ==> |r.value.quant| == |r.value.dc| == |r.value.ac| == NUM_TBLS
  {
    if code == M_DQT then
      match ParseDqt(p, s.quant)
      case Some(quant) => Some(s.(quant := quant))
      case None => None
    else if code == M_DHT then
      match ParseDht(p, s.dc, s.ac)
      case Some((dc, ac)) => Some(s.(dc := dc, ac := ac))
      case None => None
    else if code == M_DRI then
      if |p| == 2 then Some(s.(restart_interval := Word(p, 0))) else None
    else if M_SOF0 <= code <= M_SOF2 then
      if s.frame.Some? then None
      else
        match ParseSof(code, p)
        case Some(f) => Some(s.(frame := Some(f)))
        case None => None
    else if code == M_SOS && s.frame.Some? then
      match ParseSos(p, s.frame.value.comps)
      case Some(h) => Some(s.(scan := Some(h)))
      case None => None
    else None
  }

  // ---- Reading undoes writing ----

  ghost predicate FrameOk(f: Frame) {
    && M_SOF0 <= f.code <= M_SOF2 && f.precision < 256 && 0 < f.height < 65536 && 0 < f.width < 65536
    && 0 < |f.comps| <= 10
    && (forall i :: 0 <= i < |f.comps| ==>
          f.comps[i].id < 256 && f.comps[i].h < 16 && f.comps[i].v < 16 && f.comps[i].tq < NUM_TBLS)
    && (forall i, j :: 0 <= i < j < |f.comps| ==> f.comps[i].id != f.comps[j].id)
  }

  ghost predicate ListedOk(t: Listed) {
    && |t.bits| == 16 && Sum(t.bits, 16) == |t.symbols| <= 256
    && (forall i :: 0 <= i < 16 ==> t.bits[i] < 256) && (forall i :: 0 <= i < |t.symbols| ==> t.symbols[i] < 256)
  }

  /** The segment can be written, and read with the frame that s holds. */
  ghost predicate SegmentOk(seg: Segment, s: Fields) {
    match seg
    case Dqt(n, prec, q) => n < NUM_TBLS && prec <= 1 && QuantOk(q) && (prec == 0 ==> forall i :: 0 <= i < 64 ==>
      q[i] < 256)
    case Dht(ac, slot, t) => slot < NUM_TBLS && ListedOk(t)
    case Dri(interval) => interval < 65536
    case Sof(f) => FrameOk(f) && s.frame.None?
    case Sos(ids, h) =>
      && s.frame.Some? && FrameOk(s.frame.value) && 1 <= |h.comps| <= ScanScripts.MAX_COMPS_IN_SCAN
         && |ids| == |h.comps|
      && h.Ss < 256 && h.Se < 256 && h.Ah < 16 && h.Al < 16
      && (forall i :: 0 <= i < |h.comps| ==>
            && h.comps[i].ci < |s.frame.value.comps| && h.comps[i].td < 16 && h.comps[i].ta < 16
            && ids[i] == s.frame.value.comps[h.comps[i].ci].id)
  }

  /** What a segment means. */
  function Apply(seg: Segment, s: Fields): (r: Fields)
    requires |s.quant| == |s.dc| == |s.ac| == NUM_TBLS
    requires Shaped(seg)
    ensures |r.quant| == |r.dc| == |r.ac| == NUM_TBLS
  {
    match seg
    case Dqt(n, _, q) => s.(quant := s.quant[n := Some(q)])
    case Dht(ac, slot, t) => if ac then s.(ac := s.ac[slot := Some(t)]) else s.(dc := s.dc[slot := Some(t)])
    case Dri(interval) => s.(restart_interval := interval)
    case Sof(f) => s.(frame := Some(f))
    case Sos(_, h) => s.(scan := Some(h))
  }

  lemma TwoBytesRead(x: nat)
    requires x < 65536
    ensures Word(TwoBytes(x), 0) == x && TwoBytes(x)[0] < 256 && TwoBytes(x)[1] < 256
  {}

  lemma {:induction false} QuantLength(prec: nat, q: seq<nat>, n: nat)
    requires |q| == 64 && n <= 64
    ensures |QuantBytes(prec, q, n)| == if prec > 0 then 2 * n else n
  {
    if n > 0 { QuantLength(prec, q, n - 1); }
  }

  lemma {:induction false} QuantByteAt(prec: nat, q: seq<nat>, n: nat, i: nat)
    requires QuantOk(q) && i < n <= 64 && (prec == 0 ==> forall k :: 0 <= k < 64 ==> q[k] < 256)
    ensures var b := QuantBytes(prec, q, n);
      && |b| == (if prec > 0 then 2 * n else n)
      && q[NaturalOf(i)] == if prec > 0 then Word(b, 2 * i) else b[i]
  {
    hide NaturalOf;
    QuantLength(prec, q, n);
    QuantLength(prec, q, n - 1);
    if i < n - 1 { QuantByteAt(prec, q, n - 1, i); } else { TwoBytesRead(q[NaturalOf(i)]); }
  }

  /** The table is restored, through zigzag order and back. */
  lemma {:induction false} QuantRead(prec: nat, q: seq<nat>)
    requires QuantOk(q) && (prec == 0 ==> forall k :: 0 <= k < 64 ==> q[k] < 256)
    ensures |QuantBytes(prec, q, 64)| == (if prec > 0 then 128 else 64)
    ensures QuantFrom(QuantBytes(prec, q, 64), prec) == q
  {
    hide NaturalOf, ZigzagOf, QuantBytes;
    QuantLength(prec, q, 64);
    var r := QuantFrom(QuantBytes(prec, q, 64), prec);
    forall k | 0 <= k < 64 ensures r[k] == q[k] {
      QuantByteAt(prec, q, 64, ZigzagOf(k));
      NaturalZigzag(k);
    }
  }

  lemma {:induction false} CompLength(comps: seq<FrameComp>, n: nat)
    requires n <= |comps|
    ensures |CompBytes(comps, n)| == 3 * n
  {
    if n > 0 { CompLength(comps, n - 1); }
  }

  lemma {:induction false} CompRead(comps: seq<FrameComp>, n: nat, i: nat)
    requires i < n <= |comps| && comps[i].h < 16 && comps[i].v < 16
    ensures |CompBytes(comps, n)| == 3 * n && CompAt(CompBytes(comps, n), i) == comps[i]
  {
    CompLength(comps, n);
    CompLength(comps, n - 1);
    if i < n - 1 { CompRead(comps, n - 1, i); }
  }

  lemma {:induction false} SelectorLength(ids: seq<nat>, comps: seq<ScanComp>, n: nat)
    requires n <= |ids| == |comps|
    ensures |SelectorBytes(ids, comps, n)| == 2 * n
  {
    if n > 0 { SelectorLength(ids, comps, n - 1); }
  }

  lemma {:induction false} SelectorRead(ids: seq<nat>, comps: seq<ScanComp>, n: nat, i: nat)
    requires i < n <= |ids| == |comps| && comps[i].td < 16 && comps[i].ta < 16
    ensures var b := SelectorBytes(ids, comps, n);
      && |b| == 2 * n && b[2 * i] == ids[i]
      && b[2 * i + 1] / 16 % 16 == comps[i].td && b[2 * i + 1] % 16 == comps[i].ta
  {
    SelectorLength(ids, comps, n);
    SelectorLength(ids, comps, n - 1);
    if i < n - 1 { SelectorRead(ids, comps, n - 1, i); }
  }

  lemma {:induction false} DqtRead(n: nat, prec: nat, q: seq<nat>, quant: seq<Option<seq<nat>>>)
    requires |quant| == NUM_TBLS && n < NUM_TBLS && prec <= 1 && QuantOk(q)
    requires prec == 0 ==> forall i :: 0 <= i < 64 ==> q[i] < 256
    ensures ParseDqt(Payload(Dqt(n, prec, q)), quant) == Some(quant[n := Some(q)])
  {
    hide QuantBytes, QuantFrom;
    QuantRead(prec, q);
    var p := Payload(Dqt(n, prec, q));
    var size := if prec > 0 then 128 else 64;
    assert p[1..] == QuantBytes(prec, q, 64) && p[1 + size..] == [];
    assert p[0] / 16 == prec && p[0] % 16 == n;
  }

  lemma {:induction false} DhtRead(ac: bool, slot: nat, t: Listed, dcs: seq<Option<Listed>>, acs: seq<Option<Listed>>)
    requires |dcs| == |acs| == NUM_TBLS && slot < NUM_TBLS && ListedOk(t)
    ensures ParseDht(Payload(Dht(ac, slot, t)), dcs, acs) ==
      Some(if ac then (dcs, acs[slot := Some(t)]) else (dcs[slot := Some(t)], acs))
  {
    hide Sum;
    var p := Payload(Dht(ac, slot, t));
    var count := |t.symbols|;
    assert p[1..17] == t.bits && p[17..17 + count] == t.symbols && p[17 + count..] == [];
  }

  /** The values that the fields of a frame header can take. */
  ghost predicate FrameFits(f: Frame) {
    && f.precision < 256 && 0 < f.height < 65536 && 0 < f.width < 65536 && 0 < |f.comps| < 256
    && forall i :: 0 <= i < |f.comps| ==>
         f.comps[i].id < 256 && f.comps[i].h < 16 && f.comps[i].v < 16 && f.comps[i].tq < 256
  }

  lemma SofRead(f: Frame)
    requires FrameFits(f)
    ensures ParseSof(f.code, Payload(Sof(f))) == Some(f)
  {
    hide CompBytes, CompAt;
    var n := |f.comps|;
    CompLength(f.comps, n);
    var p := Payload(Sof(f));
    assert p[6..] == CompBytes(f.comps, n);
    TwoBytesRead(f.height);
    TwoBytesRead(f.width);
    assert Word(p, 1) == f.height && Word(p, 3) == f.width;
    var comps := seq(n, i requires 0 <= i < n => CompAt(p[6..], i));
    forall i | 0 <= i < n ensures comps[i] == f.comps[i] { CompRead(f.comps, n, i); }
    assert comps == f.comps;
  }

  /** The values that the fields of a scan header can take, for components of the frame. */
  ghost predicate ScanFits(ids: seq<nat>, h: ScanHeader, comps: seq<FrameComp>) {
    && 1 <= |ids| == |h.comps| <= 4 && h.Ss < 256 && h.Se < 256 && h.Ah < 16 && h.Al < 16
    && forall i :: 0 <= i < |ids| ==>
         && ids[i] < 256 && h.comps[i].td < 16 && h.comps[i].ta < 16
         && h.comps[i].ci < |comps| && comps[h.comps[i].ci].id == ids[i]
         && forall k :: 0 <= k < h.comps[i].ci ==> comps[k].id != ids[i]
  }

  lemma SosRead(ids: seq<nat>, h: ScanHeader, comps: seq<FrameComp>)
    requires ScanFits(ids, h, comps)
    ensures ParseSos(Payload(Sos(ids, h)), comps) == Some(h)
  {
    hide SelectorBytes, FindComp;
    var n := |ids|;
    SelectorLength(ids, h.comps, n);
    var p := Payload(Sos(ids, h));
    assert p[1..2 * n + 1] == SelectorBytes(ids, h.comps, n);
    var sel := Selectors(comps, p[1..], n);
    forall i | 0 <= i < n ensures sel[i] == h.comps[i] {
      SelectorRead(ids, h.comps, n, i);
      assert p[1..][2 * i] == p[1..2 * n + 1][2 * i] && p[1..][2 * i + 1] == p[1..2 * n + 1][2 * i + 1];
    }
    assert sel == h.comps;
  }

  /** Identifiers are distinct, so each one means its component. */
  lemma ScanMeant(ids: seq<nat>, h: ScanHeader, s: Fields)
    requires SegmentOk(Sos(ids, h), s)
    ensures ScanFits(ids, h, s.frame.value.comps)
  {}

  /** Reading a segment that was written has the segment's meaning. */
  lemma SegmentRead(seg: Segment, s: Fields)
    requires s.Ok() && SegmentOk(seg, s)
    ensures Parse(Code(seg), Payload(seg), s) == Some(Apply(seg, s)) && |Payload(seg)| + 2 < 65536
  {
    hide ParseDqt, ParseDht, ParseSof, ParseSos, QuantBytes, CompBytes, SelectorBytes;
    match seg {
      case Dqt(n, prec, q) =>
        DqtRead(n, prec, q, s.quant);
        QuantLength(prec, q, 64);
      case Dht(ac, slot, t) =>
        DhtRead(ac, slot, t, s.dc, s.ac);
      case Dri(interval) =>
        TwoBytesRead(interval);
      case Sof(f) =>
        SofRead(f);
        CompLength(f.comps, |f.comps|);
      case Sos(ids, h) =>
        ScanMeant(ids, h, s);
        SosRead(ids, h, s.frame.value.comps);
        SelectorLength(ids, h.comps, |ids|);
    }
  }

  // ---- What is written are bytes ----

  ghost predicate InBytes(b: seq<nat>) {
    forall i :: 0 <= i < |b| ==> b[i] < 256
  }

  lemma {:induction false} QuantInBytes(prec: nat, q: seq<nat>, n: nat)
    requires |q| == 64 && n <= 64
    ensures InBytes(QuantBytes(prec, q, n))
  {
    hide NaturalOf;
    if n > 0 { QuantInBytes(prec, q, n - 1); }
  }

  lemma {:induction false} CompInBytes(f: Frame, n: nat)
    requires FrameOk(f) && n <= |f.comps|
    ensures InBytes(CompBytes(f.comps, n))
  {
    if n > 0 { CompInBytes(f, n - 1); }
  }

  lemma {:induction false} SelectorInBytes(ids: seq<nat>, comps: seq<ScanComp>, n: nat)
    requires n <= |ids| == |comps|
    requires forall i :: 0 <= i < |ids| ==> ids[i] < 256 && comps[i].td < 16 && comps[i].ta < 16
    ensures InBytes(SelectorBytes(ids, comps, n))
  {
    if n > 0 { SelectorInBytes(ids, comps, n - 1); }
  }

  lemma PayloadInBytes(seg: Segment, s: Fields)
    requires SegmentOk(seg, s)
    ensures Shaped(seg) && InBytes(Payload(seg))
  {
    hide QuantBytes, CompBytes, SelectorBytes, Sum;
    match seg {
      case Dqt(n, prec, q) =>
        QuantInBytes(prec, q, 64);
      case Dht(_, _, _) =>
      case Dri(_) =>
      case Sof(f) =>
        CompInBytes(f, |f.comps|);
      case Sos(ids, h) =>
        SelectorInBytes(ids, h.comps, |ids|);
    }
  }

  lemma SegmentInBytes(seg: Segment, s: Fields)
    requires SegmentOk(seg, s)
    ensures Shaped(seg) && InBytes(Bytes(seg))
  {
    hide Payload;
    PayloadInBytes(seg, s);
  }

  // ---- Sequences of segments ----

  ghost predicate AllShaped(segs: seq<Segment>) {
    forall i :: 0 <= i < |segs| ==> Shaped(segs[i])
  }

  ghost function AllBytes(segs: seq<Segment>): seq<nat>
    requires AllShaped(segs)
  {
    if segs == [] then []
    else
      assert Shaped(segs[|segs| - 1]);
      AllBytes(segs[..|segs| - 1]) + Bytes(segs[|segs| - 1])
  }

  /** What a reader holds after a sequence of segments. */
  ghost function ApplyAll(segs: seq<Segment>, s: Fields): (r: Fields)
    requires s.Ok() && AllShaped(segs)
    ensures r.Ok()
  {
    if segs == [] then s
    else
      assert Shaped(segs[|segs| - 1]);
      Apply(segs[|segs| - 1], ApplyAll(segs[..|segs| - 1], s))
  }

  /** Each segment can be read when its turn comes. */
  ghost predicate AllOk(segs: seq<Segment>, s: Fields)
    requires s.Ok()
  {
    AllShaped(segs) && forall i :: 0 <= i < |segs| ==> SegmentOk(segs[i], ApplyAll(segs[..i], s))
  }

  lemma {:induction false} OneMore(segs: seq<Segment>, seg: Segment, s: Fields)
    requires s.Ok() && AllOk(segs, s) && SegmentOk(seg, ApplyAll(segs, s))
    ensures AllOk(segs + [seg], s) && AllBytes(segs + [seg]) == AllBytes(segs) + Bytes(seg)
    ensures ApplyAll(segs + [seg], s) == Apply(seg, ApplyAll(segs, s))
  {
    hide SegmentOk, Apply, Bytes;
    var more := segs + [seg];
    assert more[..|segs|] == segs;
    assert Shaped(seg) by { OkShaped(seg, ApplyAll(segs, s)); }
    forall i | 0 <= i < |more| ensures SegmentOk(more[i], ApplyAll(more[..i], s)) {
      assert more[..i] == segs[..i];
    }
  }

  lemma OkShaped(seg: Segment, s: Fields)
    requires SegmentOk(seg, s)
    ensures Shaped(seg)
  {}

  /** Segment k lies behind those before it. */
  lemma {:induction false} SegmentAt(segs: seq<Segment>, k: nat, s: Fields)
    requires s.Ok() && AllShaped(segs) && k < |segs|
    ensures Shaped(segs[k]) && AllShaped(segs[..k]) && AllShaped(segs[..k + 1])
    ensures AllBytes(segs[..k + 1]) == AllBytes(segs[..k]) + Bytes(segs[k])
    ensures AllBytes(segs[..k + 1]) <= AllBytes(segs)
    ensures ApplyAll(segs[..k + 1], s) == Apply(segs[k], ApplyAll(segs[..k], s))
  {
    hide Bytes, Apply;
    assert segs[..k + 1][..k] == segs[..k];
    BytesPrefix(segs, k + 1);
  }

  lemma {:induction false} BytesPrefix(segs: seq<Segment>, k: nat)
    requires AllShaped(segs) && k <= |segs|
    ensures AllShaped(segs[..k]) && AllBytes(segs[..k]) <= AllBytes(segs)
    decreases |segs|
  {
    hide Bytes;
    if k == |segs| {
      assert segs[..k] == segs;
    } else {
      var n := |segs| - 1;
      BytesPrefix(segs[..n], k);
      assert segs[..n][..k] == segs[..k];
      assert Shaped(segs[n]);
    }
  }

  lemma {:induction false} AllInBytes(segs: seq<Segment>, s: Fields)
    requires s.Ok() && AllOk(segs, s)
    ensures InBytes(AllBytes(segs))
  {
    hide Bytes, SegmentOk, Apply;
    if segs != [] {
      var n := |segs| - 1;
      forall i | 0 <= i < n ensures SegmentOk(segs[..n][i], ApplyAll(segs[..n][..i], s)) {
        assert segs[..n][..i] == segs[..i];
      }
      AllInBytes(segs[..n], s);
      SegmentInBytes(segs[n], ApplyAll(segs[..n], s));
    }
  }
}
