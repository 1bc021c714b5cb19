/** Which parameters the marker reader of jdmarker.c accepts: exactly the well-formed ones, with any number of tables in
    a segment, each with the meaning that its bytes spell. */
module SegmentGrammar {
  import opened HuffmanTables
  import opened NaturalOrder
  import opened MarkerSegments

  // ---- Huffman tables ----

  /** One definition of a DHT segment. */
  datatype HuffDef = HuffDef(ac: bool, slot: nat, table: Listed)
  {
    ghost predicate Ok() {
      slot < 4 && ListedOk(table)
    }

    function Spelt(): seq<nat> {
      [slot + if ac then 16 else 0] + table.bits + table.symbols
    }
  }

  function HuffSpelt(defs: seq<HuffDef>): seq<nat> {
    if defs == [] then [] else defs[0].Spelt() + HuffSpelt(defs[1..])
  }

  ghost predicate HuffDefsOk(defs: seq<HuffDef>) {
    forall i :: 0 <= i < |defs| ==> defs[i].Ok()
  }

  /** The tables after the definitions, a later one replacing an earlier one of the same slot. */
  ghost function HuffHeld(defs: seq<HuffDef>, dc: seq<Option<Listed>>, ac: seq<Option<Listed>>)
    : (r: (seq<Option<Listed>>, seq<Option<Listed>>))
    requires HuffDefsOk(defs) && |dc| == |ac| == 4
  {
    if defs == [] then (dc, ac)
    else
      var d := defs[0];
      assert d.Ok();
      if d.ac then HuffHeld(defs[1..], dc, ac[d.slot := Some(d.table)])
      else HuffHeld(defs[1..], dc[d.slot := Some(d.table)], ac)
  }

  /** One definition at the front. */
  lemma {:induction false} HuffFront(d: HuffDef, rest: seq<nat>, dc: seq<Option<Listed>>, ac: seq<Option<Listed>>)
    requires d.Ok() && |dc| == |ac| == 4
    ensures ParseDht(d.Spelt() + rest, dc, ac) ==
      if d.ac then ParseDht(rest, dc, ac[d.slot := Some(d.table)])
      else ParseDht(rest, dc[d.slot := Some(d.table)], ac)
  {
    hide Sum, ParseDht;
    var p, n := d.Spelt() + rest, |d.table.symbols|;
    assert p[1..17] == d.table.bits && p[17..17 + n] == d.table.symbols && p[17 + n..] == rest;
    HuffStep(p, d, dc, ac);
  }

  lemma HuffStep(p: seq<nat>, d: HuffDef, dc: seq<Option<Listed>>, ac: seq<Option<Listed>>)
    requires d.Ok() && |dc| == |ac| == 4 && |p| >= 17 + |d.table.symbols| && p[0] == d.slot + if d.ac then 16 else 0
    requires p[1..17] == d.table.bits && p[17..17 + |d.table.symbols|] == d.table.symbols
    ensures var rest := p[17 + |d.table.symbols|..];
      ParseDht(p, dc, ac) ==
      if d.ac then ParseDht(rest, dc, ac[d.slot := Some(d.table)])
      else ParseDht(rest, dc[d.slot := Some(d.table)], ac)
  {
    hide Sum;
  }

  lemma {:induction false} HuffWritten(defs: seq<HuffDef>, dc: seq<Option<Listed>>, ac: seq<Option<Listed>>)
    requires HuffDefsOk(defs) && |dc| == |ac| == 4
    ensures ParseDht(HuffSpelt(defs), dc, ac) == Some(HuffHeld(defs, dc, ac))
  {
    hide ListedOk;
    if defs != [] {
      var d := defs[0];
      assert d.Ok();
      HuffFront(d, HuffSpelt(defs[1..]), dc, ac);
      if d.ac { HuffWritten(defs[1..], dc, ac[d.slot := Some(d.table)]); }
      else { HuffWritten(defs[1..], dc[d.slot := Some(d.table)], ac); }
    }
  }

  lemma {:induction false} HuffRead(p: seq<nat>, dc: seq<Option<Listed>>, ac: seq<Option<Listed>>)
    returns (defs: seq<HuffDef>)
    requires InBytes(p) && |dc| == |ac| == 4 && ParseDht(p, dc, ac).Some?
    ensures HuffDefsOk(defs) && HuffSpelt(defs) == p
    decreases |p|
  {
    hide Sum;
    if p == [] {
      defs := [];
    } else {
      var count := Sum(p[1..17], 16);
      var t := Listed(p[1..17], p[17..17 + count]);
      var d := HuffDef(p[0] / 16 % 2 == 1, if p[0] / 16 % 2 == 1 then p[0] - 16 else p[0], t);
      assert p == d.Spelt() + p[17 + count..];
      HuffFront(d, p[17 + count..], dc, ac);
      var more;
      if d.ac { more := HuffRead(p[17 + count..], dc, ac[d.slot := Some(t)]); }
      else { more := HuffRead(p[17 + count..], dc[d.slot := Some(t)], ac); }
      defs := [d] + more;
      assert defs[1..] == more;
    }
  }

  /** get_dht accepts the parameters exactly if they spell a sequence of definitions, and then holds what these
      define. */
  lemma {:induction false} DhtExactly(p: seq<nat>, dc: seq<Option<Listed>>, ac: seq<Option<Listed>>)
    requires InBytes(p) && |dc| == |ac| == 4
    ensures ParseDht(p, dc, ac).Some? <==> exists defs :: HuffDefsOk(defs) && HuffSpelt(defs) == p
    ensures forall defs :: HuffDefsOk(defs) && HuffSpelt(defs) == p ==>
      ParseDht(p, dc, ac) == Some(HuffHeld(defs, dc, ac))
  {
    hide ParseDht, HuffDefsOk;
    forall defs | HuffDefsOk(defs) && HuffSpelt(defs) == p
      ensures ParseDht(p, dc, ac) == Some(HuffHeld(defs, dc, ac))
    {
      HuffWritten(defs, dc, ac);
    }
    if ParseDht(p, dc, ac).Some? {
      var defs := HuffRead(p, dc, ac);
    }
  }

  // ---- Quantisation tables ----

  /** One definition of a DQT segment; any precision but 0 means two bytes for each value. */
  datatype QuantDef = QuantDef(n: nat, prec: nat, q: seq<nat>)
  {
    ghost predicate Ok() {
      n < 4 && prec < 16 && QuantOk(q) && (prec == 0 ==> forall i :: 0 <= i < 64 ==> q[i] < 256)
    }

    function Spelt(): seq<nat>
      requires |q| == 64
    {
      [n + 16 * prec] + QuantBytes(prec, q, 64)
    }
  }

  ghost predicate QuantDefsOk(defs: seq<QuantDef>) {
    forall i :: 0 <= i < |defs| ==> defs[i].Ok()
  }

  ghost function QuantSpelt(defs: seq<QuantDef>): seq<nat>
    requires QuantDefsOk(defs)
  {
    if defs == [] then []
    else
      assert defs[0].Ok();
      defs[0].Spelt() + QuantSpelt(defs[1..])
  }

  ghost function QuantHeld(defs: seq<QuantDef>, quant: seq<Option<seq<nat>>>): seq<Option<seq<nat>>>
    requires QuantDefsOk(defs) && |quant| == 4
  {
    if defs == [] then quant
    else
      assert defs[0].Ok();
      QuantHeld(defs[1..], quant[defs[0].n := Some(defs[0].q)])
  }

  lemma {:induction false} QuantFront(d: QuantDef, rest: seq<nat>, quant: seq<Option<seq<nat>>>)
    requires d.Ok() && |quant| == 4
    ensures ParseDqt(d.Spelt() + rest, quant) == ParseDqt(rest, quant[d.n := Some(d.q)])
  {
    hide QuantBytes, QuantAt;
    QuantRead(d.prec, d.q);
    var p, size := d.Spelt() + rest, if d.prec > 0 then 128 else 64;
    assert p[1..] == QuantBytes(d.prec, d.q, 64) + rest && p[1 + size..] == rest;
    assert p[0] / 16 == d.prec && p[0] % 16 == d.n;
    SameQuant(QuantBytes(d.prec, d.q, 64), rest, d.prec);
  }

  lemma SameQuant(b: seq<nat>, rest: seq<nat>, prec: nat)
    requires |b| == if prec > 0 then 128 else 64
    ensures QuantFrom(b + rest, prec) == QuantFrom(b, prec)
  {
    hide ZigzagOf;
  }

  lemma {:induction false} QuantWritten(defs: seq<QuantDef>, quant: seq<Option<seq<nat>>>)
    requires QuantDefsOk(defs) && |quant| == 4
    ensures ParseDqt(QuantSpelt(defs), quant) == Some(QuantHeld(defs, quant))
  {
    hide QuantOk, QuantBytes;
    if defs != [] {
      assert defs[0].Ok();
      QuantLong(defs[0]);
      QuantFront(defs[0], QuantSpelt(defs[1..]), quant);
      QuantWritten(defs[1..], quant[defs[0].n := Some(defs[0].q)]);
    }
  }

  lemma QuantLong(d: QuantDef)
    requires d.Ok()
    ensures |d.q| == 64 && d.n < 4
  {}

  /** The values of a table are those of its bytes, and the bytes those of the values. */
  lemma {:induction false} QuantBytesBack(p: seq<nat>, prec: nat, n: nat)
    requires InBytes(p) && |p| == (if prec > 0 then 128 else 64) && n <= 64
    ensures QuantBytes(prec, QuantFrom(p, prec), n) == p[..if prec > 0 then 2 * n else n]
  {
    hide NaturalOf, ZigzagOf;
    if n > 0 {
      QuantBytesBack(p, prec, n - 1);
      OrdersInverse(n - 1);
      var v := QuantFrom(p, prec)[NaturalOf(n - 1)];
      assert v == QuantAt(p, prec, n - 1);
      if prec > 0 {
        assert TwoBytes(v) == [p[2 * n - 2], p[2 * n - 1]];
        assert p[..2 * n] == p[..2 * n - 2] + [p[2 * n - 2], p[2 * n - 1]];
      } else {
        assert p[..n] == p[..n - 1] + [p[n - 1]];
      }
    }
  }

  lemma {:induction false} QuantDefRead(p: seq<nat>) returns (d: QuantDef)
    requires InBytes(p) && p != [] && p[0] % 16 < 4 && |p| >= if p[0] / 16 > 0 then 129 else 65
    ensures d.Ok() && d.Spelt() + p[if p[0] / 16 > 0 then 129 else 65..] == p
  {
    hide QuantBytes;
    var prec := p[0] / 16;
    var size := if prec > 0 then 128 else 64;
    var b := p[1..1 + size];
    d := QuantDef(p[0] % 16, prec, QuantFrom(b, prec));
    QuantBytesBack(b, prec, 64);
    assert b[..size] == b;
    assert p == [p[0]] + b + p[1 + size..];
    forall k | 0 <= k < 64 ensures d.q[k] < 65536 && (prec == 0 ==> d.q[k] < 256) {
      assert d.q[k] == QuantAt(b, prec, ZigzagOf(k));
    }
  }

  lemma {:induction false} QuantReadBack(p: seq<nat>, quant: seq<Option<seq<nat>>>) returns (defs: seq<QuantDef>)
    requires InBytes(p) && |quant| == 4 && ParseDqt(p, quant).Some?
    ensures QuantDefsOk(defs) && QuantSpelt(defs) == p
    decreases |p|
  {
    hide QuantFrom, QuantOk, QuantBytes;
    if p == [] {
      defs := [];
    } else {
      var size := if p[0] / 16 > 0 then 128 else 64;
      var d := QuantDefRead(p);
      QuantLong(d);
      QuantFront(d, p[1 + size..], quant);
      var more := QuantReadBack(p[1 + size..], quant[d.n := Some(d.q)]);
      defs := [d] + more;
      assert defs[1..] == more;
    }
  }

  /** get_dqt accepts the parameters exactly if they spell a sequence of definitions, and then holds what these
      define. */
  lemma {:induction false} DqtExactly(p: seq<nat>, quant: seq<Option<seq<nat>>>)
    requires InBytes(p) && |quant| == 4
    ensures ParseDqt(p, quant).Some? <==> exists defs :: QuantDefsOk(defs) && QuantSpelt(defs) == p
    ensures forall defs :: QuantDefsOk(defs) && QuantSpelt(defs) == p ==>
      ParseDqt(p, quant) == Some(QuantHeld(defs, quant))
  {
    hide ParseDqt, QuantDefsOk;
    forall defs | QuantDefsOk(defs) && QuantSpelt(defs) == p
      ensures ParseDqt(p, quant) == Some(QuantHeld(defs, quant))
    {
      QuantWritten(defs, quant);
    }
    if ParseDqt(p, quant).Some? {
      var defs := QuantReadBack(p, quant);
    }
  }

  // ---- Frame and scan headers ----

  lemma {:induction false} CompsBack(b: seq<nat>, comps: seq<FrameComp>, n: nat)
    requires InBytes(b) && n <= |comps| && |b| == 3 * |comps|
    requires forall i :: 0 <= i < |comps| ==> comps[i] == CompAt(b, i)
    ensures CompBytes(comps, n) == b[..3 * n]
  {
    if n > 0 {
      CompsBack(b, comps, n - 1);
      assert b[..3 * n] == b[..3 * n - 3] + [b[3 * n - 3], b[3 * n - 2], b[3 * n - 1]];
    }
  }

  /** get_sof accepts the parameters exactly if they are those of a frame with samples and components. */
  lemma SofExactly(code: nat, p: seq<nat>)
    requires InBytes(p)
    ensures ParseSof(code, p).Some? ==> var f := ParseSof(code, p).value;
      f.code == code && FrameFits(f) && Payload(Sof(f)) == p
    ensures forall f :: FrameFits(f) && f.code == code && Payload(Sof(f)) == p ==> ParseSof(code, p) == Some(f)
  {
    hide CompBytes;
    forall f | FrameFits(f) && f.code == code && Payload(Sof(f)) == p ensures ParseSof(code, p) == Some(f) {
      SofRead(f);
    }
    if ParseSof(code, p).Some? {
      var f := ParseSof(code, p).value;
      CompsBack(p[6..], f.comps, |f.comps|);
      assert p[6..][..3 * |f.comps|] == p[6..];
      assert p == [p[0]] + [p[1], p[2]] + [p[3], p[4]] + [p[5]] + p[6..];
    }
  }

  lemma {:induction false} SelectorsBack(b: seq<nat>, ids: seq<nat>, comps: seq<ScanComp>, n: nat)
    requires InBytes(b) && n <= |comps| == |ids| && |b| >= 2 * |comps|
    requires forall i :: 0 <= i < |ids| ==>
      ids[i] == b[2 * i] && comps[i].td == b[2 * i + 1] / 16 % 16 && comps[i].ta == b[2 * i + 1] % 16
    ensures SelectorBytes(ids, comps, n) == b[..2 * n]
  {
    if n > 0 {
      SelectorsBack(b, ids, comps, n - 1);
      assert b[..2 * n] == b[..2 * n - 2] + [b[2 * n - 2], b[2 * n - 1]];
    }
  }

  /** get_sos accepts the parameters exactly if they are those of a scan of one to four components of the frame; of
      components with the same identifier the first is meant. */
  lemma SosExactly(p: seq<nat>, comps: seq<FrameComp>)
    requires InBytes(p)
    ensures ParseSos(p, comps).Some? ==> exists ids ::
      ScanFits(ids, ParseSos(p, comps).value, comps) && Payload(Sos(ids, ParseSos(p, comps).value)) == p
    ensures forall ids, h :: ScanFits(ids, h, comps) && Payload(Sos(ids, h)) == p ==> ParseSos(p, comps) == Some(h)
  {
    hide SelectorBytes, FindComp;
    forall ids, h | ScanFits(ids, h, comps) && Payload(Sos(ids, h)) == p ensures ParseSos(p, comps) == Some(h) {
      SosRead(ids, h, comps);
    }
    if ParseSos(p, comps).Some? {
      var h, n := ParseSos(p, comps).value, p[0];
      var ids := seq(n, i requires 0 <= i < n => p[1..][2 * i]);
      SelectorsBack(p[1..], ids, h.comps, n);
      assert p == [p[0]] + p[1..][..2 * n] + [p[2 * n + 1], p[2 * n + 2], p[2 * n + 3]];
      assert ScanFits(ids, h, comps) && Payload(Sos(ids, h)) == p;
    }
  }

  /** get_dri accepts exactly two bytes, which are the interval. */
  lemma DriExactly(p: seq<nat>, s: Fields)
    requires InBytes(p) && s.Ok()
    ensures Parse(0xDD, p, s).Some? <==> exists x: nat :: x < 65536 && p == [x / 256, x % 256]
    ensures forall x: nat :: x < 65536 && p == [x / 256, x % 256] ==>
      Parse(0xDD, p, s) == Some(s.(restart_interval := x))
  {
    if |p| == 2 {
      var x := Word(p, 0);
      assert p == [x / 256, x % 256];
    }
  }
}
