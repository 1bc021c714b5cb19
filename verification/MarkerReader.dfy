/** The marker reader of jdmarker.c for Huffman-coded files: get_dqt, get_dht, get_dri, get_sof, get_sos and the
    loop of read_markers, with the restart point of a suspending source. */
module MarkerReader {
  import opened HuffmanTables
  import opened NaturalOrder
  import opened MarkerSegments
  import ScanScripts
  import McuDecoding

  /** A marker routine is done, has to wait for more input, or reports an error. */
  datatype Got = Done | Wait | Failed

  datatype ReadResult = ReachedSOS | ReachedEOI | MustWait | Error | NotModelled(code: nat)

  /** The parameters of the segment at pos have arrived. */
  ghost predicate Arrived(data: seq<nat>, arrived: nat, pos: nat) {
    arrived <= |data| && pos + 2 <= arrived && 2 <= Word(data, pos) && pos + Word(data, pos) <= arrived
  }

  ghost function PayloadAt(data: seq<nat>, arrived: nat, pos: nat): seq<nat>
    requires Arrived(data, arrived, pos)
  {
    data[pos + 2..pos + Word(data, pos)]
  }

  /** The last segment, and no other, is a scan header. */
  ghost predicate ScanLast(segs: seq<Segment>) {
    forall i :: 0 <= i < |segs| ==> (segs[i].Sos? <==> i == |segs| - 1)
  }

  /** The segments lie at `start`, a scan header last, and have arrived; a reader with fields s0 can read them. */
  ghost predicate Expected(data: seq<nat>, arrived: nat, segs: seq<Segment>, s0: Fields, start: nat)
    requires arrived <= |data|
  {
    && s0.Ok() && AllOk(segs, s0) && segs != [] && ScanLast(segs)
    && start + |AllBytes(segs)| <= arrived && data[start..start + |AllBytes(segs)|] == AllBytes(segs)
  }

  /** next_marker finds the given marker, whose segment ends at `end` and leads from fields s to s'. */
  ghost predicate NextIs(data: seq<nat>, arrived: nat, pos: nat, code: nat, s: Fields, end: nat, s': Fields) {
    && arrived <= |data| && McuDecoding.NextMarker(data, arrived, pos) == McuDecoding.Found(pos + 2, code)
    && (code in {M_DQT, M_DHT, M_DRI, M_SOS} || M_SOF0 <= code <= M_SOF2)
    && Arrived(data, arrived, pos + 2) && pos + 2 + Word(data, pos + 2) == end
    && s.Ok() && Parse(code, PayloadAt(data, arrived, pos + 2), s) == Some(s')
  }

  class Reader {
    // the data source
    const data: seq<nat>
    var arrived: nat
    var next_input_byte: nat
    // decompressor fields
    var unread_marker: nat
    var quant: seq<Option<seq<nat>>>
    var dc: seq<Option<Listed>>
    var ac: seq<Option<Listed>>
    var restart_interval: nat
    var frame: Option<Frame>      // None until saw_SOF
    var scan: Option<ScanHeader>

    ghost predicate Valid()
      reads this
    {
      |quant| == |dc| == |ac| == NUM_TBLS && arrived <= |data|
    }

    ghost function State(): Fields
      reads this
    {
      Fields(quant, dc, ac, restart_interval, frame, scan)
    }

    constructor (data: seq<nat>, arrived: nat, pos: nat, s: Fields)
      requires arrived <= |data| && s.Ok()
      ensures Valid() && State() == s && next_input_byte == pos && unread_marker == 0
      ensures this.data == data && this.arrived == arrived
    {
      this.data, this.arrived, next_input_byte, unread_marker := data, arrived, pos, 0;
      quant, dc, ac, restart_interval, frame, scan := s.quant, s.dc, s.ac, s.restart_interval, s.frame, s.scan;
    }

    /** A routine for the marker `code` is done exactly when the whole segment has arrived and is well-formed,
        and then has its meaning; a routine that has to wait leaves the restart point alone. */
    ghost predicate Outcome(code: nat, r: Got, pos: nat, state: Fields, pos': nat, state': Fields)
      requires state.Ok() && arrived <= |data|
      reads this`arrived
    {
      && (r.Done? <==> Arrived(data, arrived, pos) && Parse(code, PayloadAt(data, arrived, pos), state).Some?)
      && (r.Done? ==>
         pos' == pos + Word(data, pos) && Some(state') == Parse(code, PayloadAt(data, arrived, pos), state))
      && (!r.Done? ==> pos' == pos)
    }

    /** get_dri */
    method GetDri() returns (r: Got)
      requires Valid()
      modifies this`next_input_byte, this`restart_interval
      ensures Valid() && Outcome(M_DRI, r, old(next_input_byte), old(State()), next_input_byte, State())
    {
      var pos := next_input_byte;
      if pos + 2 > arrived {
        return Wait;
      }
      if Word(data, pos) != 4 {
        return Failed;
      }
      if pos + 4 > arrived {
        return Wait;
      }
      restart_interval := Word(data, pos + 2);
      next_input_byte := pos + 4;
      r := Done;
    }

    /** The values of one quantisation table, stored in natural order. */
    method ReadQuant(p0: nat, prec: nat) returns (ok: bool, q: seq<nat>, p: nat)
      requires Valid()
      ensures var size := if prec > 0 then 128 else 64;
        && (ok <==> p0 + size <= arrived)
        && (ok ==> p == p0 + size && q == QuantFrom(data[p0..p0 + size], prec))
    {
      hide NaturalOf, ZigzagOf;
      var quantval := new nat[64](_ => 0);
      p, q := p0, [];
      for i := 0 to 64
        invariant p == (if prec > 0 then p0 + 2 * i else p0 + i)
        invariant p <= arrived || i == 0
        invariant forall k :: 0 <= k < 64 && ZigzagOf(k) < i ==>
          quantval[k] == if prec > 0 then Word(data, p0 + 2 * ZigzagOf(k)) else data[p0 + ZigzagOf(k)]
      {
        var tmp;
        if prec > 0 {
          if p + 2 > arrived {
            return false, q, p;
          }
          tmp := Word(data, p);
          p := p + 2;
        } else {
          if p >= arrived {
            return false, q, p;
          }
          tmp := data[p];
          p := p + 1;
        }
        OrdersInverse(i);
        forall k | 0 <= k < 64 && ZigzagOf(k) == i ensures k == NaturalOf(i) { NaturalZigzag(k); }
        quantval[NaturalOf(i)] := tmp;
      }
      ok, q := true, quantval[..];
      ghost var from := QuantFrom(data[p0..p], prec);
      assert forall k :: 0 <= k < 64 ==> q[k] == from[k];
    }

    /** get_dqt */
    method GetDqt() returns (r: Got)
      requires Valid()
      modifies this`next_input_byte, this`quant
      ensures Valid() && Outcome(M_DQT, r, old(next_input_byte), old(State()), next_input_byte, State())
    {
      hide QuantFrom, ParseDqt, QuantsLeft;
      var pos := next_input_byte;
      if pos + 2 > arrived {
        return Wait;
      }
      var length := Word(data, pos) - 2;
      var p := pos + 2;
      ghost var end, tables := p + length, quant;
      AllLeft(data, pos, end, tables);
      while length > 0
        invariant p + length == end && p <= arrived && Valid() && next_input_byte == pos
        invariant QuantsLeft(data, pos, end, tables, p, quant)
      {
        if p >= arrived {
          return Wait;
        }
        var n := data[p];
        var prec := n / 16;
        n := n % 16;
        TableLeft(data, pos, end, tables, p, quant);
        if n >= NUM_TBLS {
          return Failed;
        }
        var size := if prec > 0 then 128 else 64;
        var ok, q, next := ReadQuant(p + 1, prec);
        if !ok {
          return Wait;
        }
        quant := quant[n := Some(q)];
        p := next;
        length := length - (1 + size);
      }
      NothingLeft(data, pos, end, tables, p, quant);
      if length != 0 {
        return Failed;
      }
      next_input_byte := p;
      r := Done;
    }

    /** n bytes from p on. */
    method ReadBytes(p: nat, n: nat) returns (ok: bool, bytes: seq<nat>)
      requires Valid()
      ensures ok <==> n == 0 || p + n <= arrived
      ensures ok && n > 0 ==> bytes == data[p..p + n]
      ensures ok && n == 0 ==> bytes == []
    {
      bytes := [];
      for i := 0 to n
        invariant i > 0 ==> p + i <= arrived && bytes == data[p..p + i]
        invariant i == 0 ==> bytes == []
      {
        if p + i >= arrived {
          return false, bytes;
        }
        bytes := bytes + [data[p + i]];
      }
      ok := true;
    }

    /** get_dht */
    method GetDht() returns (r: Got)
      requires Valid()
      modifies this`next_input_byte, this`dc, this`ac
      ensures Valid() && Outcome(M_DHT, r, old(next_input_byte), old(State()), next_input_byte, State())
    {
      hide ParseDht, HuffsLeft, Sum;
      var pos := next_input_byte;
      if pos + 2 > arrived {
        return Wait;
      }
      var length := Word(data, pos) - 2;
      var p := pos + 2;
      ghost var end, dcs, acs := p + length, dc, ac;
      AllHuffsLeft(data, pos, end, dcs, acs);
      while length > 16
        invariant p + length == end && p <= arrived && Valid() && next_input_byte == pos
        invariant HuffsLeft(data, pos, end, dcs, acs, p, dc, ac)
      {
        if p >= arrived {
          return Wait;
        }
        var index := data[p];
        var ok, bits := ReadBytes(p + 1, 16);
        if !ok {
          return Wait;
        }
        var count := SumOf(bits);
        length := length - (1 + 16);
        if count > 256 || count > length || SlotOf(index) >= NUM_TBLS {
          BadHuff(data, pos, end, dcs, acs, p, dc, ac);
        }
        if count > 256 || count > length {
          return Failed;
        }
        var huffval;
        ok, huffval := ReadBytes(p + 17, count);
        if !ok {
          return Wait;
        }
        length := length - count;
        var t := Listed(bits, huffval);
        assert t == Listed(data[p + 1..p + 17], data[p + 17..p + 17 + count]);
        if SlotOf(index) < NUM_TBLS {
          NextHuff(data, pos, end, dcs, acs, p, dc, ac, count);
        }
        if index / 16 % 2 == 1 {
          index := index - 16;
          if index >= NUM_TBLS {
            return Failed;
          }
          ac := ac[index := Some(t)];
        } else {
          if index >= NUM_TBLS {
            return Failed;
          }
          dc := dc[index := Some(t)];
        }
        p := p + 17 + count;
      }
      NoHuffLeft(data, pos, end, dcs, acs, p, dc, ac);
      if length != 0 {
        return Failed;
      }
      next_input_byte := p;
      r := Done;
    }

    /** get_sof, for the codes of Huffman-coded frames */
    method GetSof(code: nat) returns (r: Got)
      requires Valid() && M_SOF0 <= code <= M_SOF2
      modifies this`next_input_byte, this`frame
      ensures Valid() && Outcome(code, r, old(next_input_byte), old(State()), next_input_byte, State())
    {
      hide CompAt;
      var pos := next_input_byte;
      if pos + 8 > arrived {
        if Arrived(data, arrived, pos) { SofShort(code, PayloadAt(data, arrived, pos)); }
        return Wait;
      }
      var length := Word(data, pos) - 8;
      var precision, height, width, n := data[pos + 2], Word(data, pos + 3), Word(data, pos + 5), data[pos + 7];
      if Arrived(data, arrived, pos) { SofParts(code, data, pos, pos + Word(data, pos)); }
      if frame.Some? {
        return Failed;
      }
      if height == 0 || width == 0 || n == 0 {
        return Failed;
      }
      if length != 3 * n {
        return Failed;
      }
      var ok, comps := ReadComps(pos + 8, n);
      if !ok {
        return Wait;
      }
      frame := Some(Frame(code, precision, height, width, comps));
      next_input_byte := pos + 8 + 3 * n;
      r := Done;
    }

    /** The components of a frame header. */
    method ReadComps(p0: nat, n: nat) returns (ok: bool, comps: seq<FrameComp>)
      requires Valid() && n > 0
      ensures ok <==> p0 + 3 * n <= arrived
      ensures ok ==> comps == seq(n, i requires 0 <= i < n => CompAt(data[p0..p0 + 3 * n], i))
    {
      hide CompAt;
      var p := p0;
      comps := [];
      for ci := 0 to n
        invariant p == p0 + 3 * ci && (ci > 0 ==> p <= arrived) && |comps| == ci
        invariant forall i :: 0 <= i < ci ==> comps[i] == CompAt(data[p0..p0 + 3 * i + 3], i)
      {
        if p + 3 > arrived {
          return false, comps;
        }
        var c := data[p + 1];
        CompHere(data, p0, ci);
        comps := comps + [FrameComp(data[p], c / 16 % 16, c % 16, data[p + 2])];
        p := p + 3;
      }
      CompsHere(data, p0, n, comps);
      ok := true;
    }

    /** The search for a component identifier. */
    method SearchComp(comps: seq<FrameComp>, cc: nat) returns (ci: nat)
      ensures ci == FindComp(comps, cc, 0)
    {
      ci := 0;
      while ci < |comps| && cc != comps[ci].id
        invariant ci <= |comps| && FindComp(comps, cc, 0) == FindComp(comps, cc, ci)
      {
        ci := ci + 1;
      }
    }

    /** The component selectors of a scan header. */
    method ReadSelectors(comps: seq<FrameComp>, p0: nat, n: nat) returns (r: Got, sel: seq<ScanComp>)
      requires Valid()
      requires n > 0
      ensures r.Done? ==>
        p0 + 2 * n <= arrived && sel == Selectors(comps, data[p0..p0 + 2 * n], n) && AllKnown(comps, sel)
      ensures r.Failed? && p0 + 2 * n <= arrived ==> !AllKnown(comps, Selectors(comps, data[p0..p0 + 2 * n], n))
      ensures r.Wait? ==> p0 + 2 * n > arrived
    {
      hide FindComp;
      var p := p0;
      sel := [];
      for i := 0 to n
        invariant p == p0 + 2 * i && (i > 0 ==> p <= arrived) && |sel| == i
        invariant forall k :: 0 <= k < i ==> sel[k] == SelectorHere(comps, data, p0, k) && sel[k].ci < |comps|
      {
        if p + 2 > arrived {
          return Wait, sel;
        }
        var cc, c := data[p], data[p + 1];
        var ci := SearchComp(comps, cc);
        if ci == |comps| {
          if p0 + 2 * n <= arrived {
            SameSelector(comps, data, p0, n, i);
            assert Selectors(comps, data[p0..p0 + 2 * n], n)[i].ci == |comps|;
          }
          return Failed, sel;
        }
        sel := sel + [ScanComp(ci, c / 16 % 16, c % 16)];
        p := p + 2;
      }
      r := Done;
      forall k | 0 <= k < n ensures sel[k] == Selectors(comps, data[p0..p0 + 2 * n], n)[k] {
        SameSelector(comps, data, p0, n, k);
      }
      assert sel == Selectors(comps, data[p0..p0 + 2 * n], n);
    }

    /** get_sos */
    method GetSos() returns (r: Got)
      requires Valid()
      modifies this`next_input_byte, this`scan
      ensures Valid() && Outcome(M_SOS, r, old(next_input_byte), old(State()), next_input_byte, State())
    {
      hide Selectors, AllKnown, ParseSos;
      if frame.None? {
        return Failed;
      }
      var pos, comps := next_input_byte, frame.value.comps;
      if pos + 3 > arrived {
        if Arrived(data, arrived, pos) { SosShort(PayloadAt(data, arrived, pos), comps); }
        return Wait;
      }
      var length, n := Word(data, pos), data[pos + 2];
      if Arrived(data, arrived, pos) { SosParts(comps, data, pos, pos + length, n); }
      if length != 2 * n + 6 || n < 1 || n > ScanScripts.MAX_COMPS_IN_SCAN {
        return Failed;
      }
      var sel;
      r, sel := ReadSelectors(comps, pos + 3, n);
      if !r.Done? {
        return;
      }
      var p := pos + 3 + 2 * n;
      if p + 3 > arrived {
        return Wait;
      }
      scan := Some(ScanHeader(sel, data[p], data[p + 1], data[p + 2] / 16 % 16, data[p + 2] % 16));
      next_input_byte := p + 3;
    }

    /** Where the next marker starts: the entropy decoder may have come upon it at the end of a scan. */
    ghost function Here(): int
      reads this
    {
      if unread_marker == 0 then next_input_byte else next_input_byte - 2
    }

    ghost predicate Announced(segs: seq<Segment>)
      requires Valid()
      reads this
    {
      && Here() >= 0 && Expected(data, arrived, segs, State(), Here())
      && (unread_marker != 0 ==> unread_marker == Code(segs[0]))
    }

    /** The EOI marker is next. */
    ghost predicate AtEnd()
      requires Valid()
      reads this
    {
      if unread_marker != 0 then unread_marker == M_EOI
      else next_input_byte + 2 <= arrived && data[next_input_byte] == 0xFF && data[next_input_byte + 1] == M_EOI
    }

    /** The routine for one marker. */
    method GetSegment(code: nat) returns (r: Got)
      requires Valid() && (code in {M_DQT, M_DHT, M_DRI, M_SOS} || M_SOF0 <= code <= M_SOF2)
      modifies this`next_input_byte, this`quant, this`dc, this`ac, this`restart_interval, this`frame, this`scan
      ensures Valid() && Outcome(code, r, old(next_input_byte), old(State()), next_input_byte, State())
      ensures r.Done? ==> old(next_input_byte) < next_input_byte <= arrived
    {
      hide Parse;
      if code == M_DQT { r := GetDqt(); }
      else if code == M_DHT { r := GetDht(); }
      else if code == M_DRI { r := GetDri(); }
      else if code == M_SOS { r := GetSos(); }
      else { r := GetSof(code); }
    }

    /** The first k of the announced segments have been read. */
    ghost predicate Halfway(segs: seq<Segment>, k: nat, s0: Fields, start: nat)
      requires Valid()
      reads this
    {
      && Expected(data, arrived, segs, s0, start) && k < |segs| && AllShaped(segs[..k])
      && (unread_marker != 0 ==> k == 0 && unread_marker == Code(segs[0])) && State() == ApplyAll(segs[..k], s0)
      && Here() == start + |AllBytes(segs[..k])|
    }

    lemma AtStart(segs: seq<Segment>)
      requires Valid() && Announced(segs)
      ensures Here() >= 0 && Halfway(segs, 0, State(), Here())
    {
      hide AllOk, AllBytes, ApplyAll;
      assert segs[..0] == [];
      NoSegments(State());
    }

    /** read_markers, from behind SOI or the data of a scan: segments that the marker writer wrote are read with
        their meaning, up to and including the scan header, and not a byte further; the end of the file is seen. */
    method ReadMarkers(ghost segs: seq<Segment>) returns (r: ReadResult)
      requires Valid()
      modifies this`next_input_byte, this`unread_marker
      modifies this`quant, this`dc, this`ac, this`restart_interval, this`frame, this`scan
      ensures Valid()
      ensures old(Announced(segs)) ==>
        && AllShaped(segs) && r == ReachedSOS && unread_marker == 0
        && State() == ApplyAll(segs, old(State())) && next_input_byte == old(Here()) + |AllBytes(segs)|
      ensures old(AtEnd()) ==> r == ReachedEOI && State() == old(State())
    {
      hide AllOk, AllBytes, ApplyAll, Parse, McuDecoding.NextMarker, SegmentOk, Announced, AllShaped, Expected,
           ScanLast, Halfway, Arrived, PayloadAt, Word;
      ghost var start, s0, k, announced, end := Here(), State(), 0, Announced(segs), AtEnd();
      if announced { AtStart(segs); }
      if end { EndFound(); }
      while true
        invariant Valid() && (announced ==> start >= 0 && Halfway(segs, k, s0, start))
        invariant end ==> State() == s0 && EndIsNext()
        decreases arrived - next_input_byte
      {
        if announced { NextSegment(segs, k, s0, start); }
        if unread_marker == 0 {
          match McuDecoding.NextMarker(data, arrived, next_input_byte) {
            case Waiting(p) =>
              next_input_byte := p;
              return MustWait;
            case Found(p, code) =>
              next_input_byte := p;
              unread_marker := code;
          }
        }
        var code := unread_marker;
        if code == M_EOI {
          unread_marker := 0;
          return ReachedEOI;
        }
        if code !in {M_DQT, M_DHT, M_DRI, M_SOS} && !(M_SOF0 <= code <= M_SOF2) {
          return NotModelled(code);
        }
        var got := GetSegment(code);
        if got.Wait? {
          return MustWait;
        }
        if got.Failed? {
          return Error;
        }
        unread_marker := 0;
        if code == M_SOS {
          if announced { assert segs[..k + 1] == segs; }
          return ReachedSOS;
        }
        if announced {
          Advance(segs, k, s0, start);
          k := k + 1;
        }
      }
    }

    lemma {:induction false} Advance(segs: seq<Segment>, k: nat, s0: Fields, start: nat)
      requires Valid() && Expected(data, arrived, segs, s0, start) && k + 1 < |segs| && AllShaped(segs[..k + 1])
      requires unread_marker == 0 && State() == ApplyAll(segs[..k + 1], s0)
      requires next_input_byte == start + |AllBytes(segs[..k + 1])|
      ensures Halfway(segs, k + 1, s0, start)
    {
      hide Expected, AllBytes, ApplyAll;
    }

    /** next_marker finds EOI, or has found it already. */
    ghost predicate EndIsNext()
      requires Valid()
      reads this
    {
      if unread_marker != 0 then unread_marker == M_EOI
      else McuDecoding.NextMarker(data, arrived, next_input_byte) == McuDecoding.Found(next_input_byte + 2, M_EOI)
    }

    lemma EndFound()
      requires Valid() && AtEnd()
      ensures EndIsNext()
    {}

    /** The next segment of those announced: its marker, its parameters, its meaning. */
    lemma {:induction false} NextSegment(segs: seq<Segment>, k: nat, s0: Fields, start: nat)
      requires Valid() && Halfway(segs, k, s0, start)
      ensures Expected(data, arrived, segs, s0, start) && Here() >= 0
      ensures unread_marker != 0 ==> unread_marker == Code(segs[k])
      ensures k < |segs| && AllShaped(segs) && AllShaped(segs[..k + 1])
      ensures Code(segs[k]) == M_SOS <==> k == |segs| - 1
      ensures NextIs(data, arrived, Here(), Code(segs[k]), State(), start + |AllBytes(segs[..k + 1])|,
                     ApplyAll(segs[..k + 1], s0))
    {
      hide AllBytes, ApplyAll, Parse, SegmentOk, Bytes, Payload, McuDecoding.NextMarker;
      SegmentAt(segs, k, s0);
      var seg, pos, b := segs[k], Here(), Bytes(segs[k]);
      assert SegmentOk(seg, State());
      SegmentRead(seg, State());
      CodeKnown(seg, State());
      InPlace(data, start, AllBytes(segs), AllBytes(segs[..k]), b);
      MarkerHere(data, arrived, pos, seg);
    }
  }

  lemma CodeKnown(seg: Segment, s: Fields)
    requires SegmentOk(seg, s)
    ensures Code(seg) in {M_DQT, M_DHT, M_DRI, M_SOS} || M_SOF0 <= Code(seg) <= M_SOF2
    ensures Code(seg) == M_SOS <==> seg.Sos?
  {}

  lemma {:induction false} NoSegments(s: Fields)
    requires s.Ok()
    ensures AllBytes([]) == [] && ApplyAll([], s) == s
  {}

  lemma InPlace(data: seq<nat>, start: nat, all: seq<nat>, before: seq<nat>, b: seq<nat>)
    requires start + |all| <= |data| && data[start..start + |all|] == all && before + b <= all
    ensures var p := start + |before|; p + |b| <= start + |all| && data[p..p + |b|] == b
  {
    var p := start + |before|;
    forall i | 0 <= i < |b| ensures data[p + i] == b[i] {
      assert data[p + i] == data[start..start + |all|][|before| + i] == (before + b)[|before| + i];
    }
  }

  /** A segment that lies at pos is found by next_marker, and its parameters are where its length says. */
  lemma {:induction false} MarkerHere(data: seq<nat>, arrived: nat, pos: nat, seg: Segment)
    requires Shaped(seg) && |Payload(seg)| + 2 < 65536 && 0 < Code(seg) < 0xFF
    requires arrived <= |data| && pos + |Bytes(seg)| <= arrived && data[pos..pos + |Bytes(seg)|] == Bytes(seg)
    ensures McuDecoding.NextMarker(data, arrived, pos) == McuDecoding.Found(pos + 2, Code(seg))
    ensures Arrived(data, arrived, pos + 2) && pos + 2 + Word(data, pos + 2) == pos + |Bytes(seg)|
    ensures PayloadAt(data, arrived, pos + 2) == Payload(seg)
  {
    hide Payload, Code;
    var b := Bytes(seg);
    var n := |Payload(seg)| + 2;
    assert |b| == n + 2;
    assert data[pos] == data[pos..pos + |b|][0] == b[0] && data[pos + 1] == data[pos..pos + |b|][1] == b[1];
    assert data[pos + 2] == data[pos..pos + |b|][2] == b[2] && data[pos + 3] == data[pos..pos + |b|][3] == b[3];
    assert Word(data, pos + 2) == n;
    SubSlice(data, pos, pos + |b|, 4, |b|);
    assert b[4..] == Payload(seg);
  }

  /** Component selector i, read where it lies. */
  function SelectorHere(comps: seq<FrameComp>, data: seq<nat>, p: nat, i: nat): ScanComp
    requires p + 2 * i + 2 <= |data|
  {
    var c := data[p + 2 * i + 1];
    ScanComp(FindComp(comps, data[p + 2 * i], 0), c / 16 % 16, c % 16)
  }

  lemma SameSelector(comps: seq<FrameComp>, data: seq<nat>, p: nat, n: nat, i: nat)
    requires i < n && p + 2 * n <= |data|
    ensures SelectorAt(comps, data[p..p + 2 * n], i) == SelectorHere(comps, data, p, i)
  {
    var s := data[p..p + 2 * n];
    assert s[2 * i] == data[p + 2 * i] && s[2 * i + 1] == data[p + 2 * i + 1];
  }

  lemma SosShort(p: seq<nat>, comps: seq<FrameComp>)
    requires p == []
    ensures ParseSos(p, comps).None?
  {}

  /** A whole scan header that has arrived. */
  lemma SosParts(comps: seq<FrameComp>, data: seq<nat>, pos: nat, end: nat, n: nat)
    requires pos + 2 <= end <= |data| && (end > pos + 2 ==> n == data[pos + 2])
    ensures var p := data[pos + 2..end];
      if end - pos != 2 * n + 6 || n < 1 || n > ScanScripts.MAX_COMPS_IN_SCAN then ParseSos(p, comps).None?
      else
        var q := pos + 3 + 2 * n;
        var sel := Selectors(comps, data[pos + 3..q], n);
        if !AllKnown(comps, sel) then ParseSos(p, comps).None?
        else
          ParseSos(p, comps) ==
            Some(ScanHeader(sel, data[q], data[q + 1], data[q + 2] / 16 % 16, data[q + 2] % 16))
  {
    hide AllKnown, Selectors;
    if end - pos == 2 * n + 6 && 1 <= n <= ScanScripts.MAX_COMPS_IN_SCAN {
      var p, q := data[pos + 2..end], pos + 3 + 2 * n;
      assert p[0] == n && p[2 * n + 1] == data[q] && p[2 * n + 2] == data[q + 1] && p[2 * n + 3] == data[q + 2];
      SubSlice(data, pos + 2, end, 1, end - pos - 2);
      SameSelectors(comps, data, pos + 3, end, n);
    } else if end > pos + 2 {
      assert data[pos + 2..end][0] == n;
    }
  }

  lemma SameSelectors(comps: seq<FrameComp>, data: seq<nat>, p: nat, end: nat, n: nat)
    requires p + 2 * n <= end <= |data|
    ensures Selectors(comps, data[p..end], n) == Selectors(comps, data[p..p + 2 * n], n)
  {
    hide FindComp;
    var a, b := data[p..end], data[p..p + 2 * n];
    forall i | 0 <= i < n ensures SelectorAt(comps, a, i) == SelectorAt(comps, b, i) {
      assert a[2 * i] == b[2 * i] && a[2 * i + 1] == b[2 * i + 1];
    }
  }

  lemma SofShort(code: nat, p: seq<nat>)
    requires |p| < 6
    ensures ParseSof(code, p).None?
  {}

  /** The fixed parameters of a frame header. */
  lemma SofParts(code: nat, data: seq<nat>, pos: nat, end: nat)
    requires pos + 8 <= |data| && pos + 2 <= end <= |data|
    ensures var p, height, width, n := data[pos + 2..end], Word(data, pos + 3), Word(data, pos + 5), data[pos + 7];
      if end - pos - 8 != 3 * n || height == 0 || width == 0 || n == 0 then ParseSof(code, p).None?
      else
        ParseSof(code, p) == Some(Frame(code, data[pos + 2], height, width,
          seq(n, i requires 0 <= i < n => CompAt(data[pos + 8..end], i))))
  {
    hide CompAt;
    var p := data[pos + 2..end];
    if end - pos - 8 >= 0 {
      SubSlice(data, pos + 2, end, 6, end - pos - 2);
      assert p[0] == data[pos + 2] && p[1] == data[pos + 3] && p[2] == data[pos + 4] && p[3] == data[pos + 5];
      assert p[4] == data[pos + 6] && p[5] == data[pos + 7];
    }
  }

  lemma CompHere(data: seq<nat>, p: nat, ci: nat)
    requires p + 3 * ci + 3 <= |data|
    ensures var c := data[p + 3 * ci + 1];
      CompAt(data[p..p + 3 * ci + 3], ci) == FrameComp(data[p + 3 * ci], c / 16 % 16, c % 16, data[p + 3 * ci + 2])
  {
    var s := data[p..p + 3 * ci + 3];
    assert s[3 * ci] == data[p + 3 * ci] && s[3 * ci + 1] == data[p + 3 * ci + 1];
    assert s[3 * ci + 2] == data[p + 3 * ci + 2];
  }

  lemma CompsHere(data: seq<nat>, p: nat, n: nat, comps: seq<FrameComp>)
    requires p + 3 * n <= |data| && |comps| == n
    requires forall i :: 0 <= i < n ==> comps[i] == CompAt(data[p..p + 3 * i + 3], i)
    ensures comps == seq(n, i requires 0 <= i < n => CompAt(data[p..p + 3 * n], i))
  {
    hide CompAt;
    forall i | 0 <= i < n ensures comps[i] == CompAt(data[p..p + 3 * n], i) {
      SameComp(data[p..p + 3 * i + 3], data[p..p + 3 * n], i);
    }
  }

  lemma SameComp(a: seq<nat>, b: seq<nat>, i: nat)
    requires |a| == 3 * i + 3 <= |b| && forall k :: 0 <= k < |a| ==> a[k] == b[k]
    ensures CompAt(a, i) == CompAt(b, i)
  {}

  method SumOf(s: seq<nat>) returns (count: nat)
    ensures count == Sum(s, |s|)
  {
    count := 0;
    for i := 0 to |s|
      invariant count == Sum(s, i)
    {
      count := count + s[i];
    }
  }

  ghost predicate HuffsLeft(data: seq<nat>, pos: nat, end: int, dcs: seq<Option<Listed>>, acs: seq<Option<Listed>>,
                            p: nat,
                            dc: seq<Option<Listed>>, ac: seq<Option<Listed>>)
  {
    && |dcs| == |acs| == |dc| == |ac| == NUM_TBLS && pos + 2 <= p
    && (pos + 2 <= end <= |data| ==>
       p <= end && ParseDht(data[pos + 2..end], dcs, acs) == ParseDht(data[p..end], dc, ac))
  }

  lemma AllHuffsLeft(data: seq<nat>, pos: nat, end: int, dcs: seq<Option<Listed>>, acs: seq<Option<Listed>>)
    requires |dcs| == |acs| == NUM_TBLS
    ensures HuffsLeft(data, pos, end, dcs, acs, pos + 2, dcs, acs)
  {
    hide ParseDht;
  }

  lemma {:induction false} NoHuffLeft(data: seq<nat>, pos: nat, end: int, dcs: seq<Option<Listed>>,
                                      acs: seq<Option<Listed>>, p: nat,
                   dc: seq<Option<Listed>>, ac: seq<Option<Listed>>)
    requires HuffsLeft(data, pos, end, dcs, acs, p, dc, ac) && end - p <= 16
    ensures |dcs| == |acs| == NUM_TBLS
    ensures pos + 2 <= end <= |data| ==>
      ParseDht(data[pos + 2..end], dcs, acs) == if p == end then Some((dc, ac)) else None
  {
    if pos + 2 <= end <= |data| && p == end { assert data[p..end] == []; }
  }

  /** The tables after one more table, and what is left of the payload. */
  lemma DhtStep(s: seq<nat>, dc: seq<Option<Listed>>, ac: seq<Option<Listed>>)
    requires |s| > 16 && |dc| == |ac| == NUM_TBLS
    ensures var index, count := s[0], Sum(s[1..17], 16);
      var is_ac := index / 16 % 2 == 1;
      var slot := if is_ac then index - 16 else index;
      if count > 256 || count > |s| - 17 || slot >= NUM_TBLS then ParseDht(s, dc, ac).None?
      else
        var t := Some(Listed(s[1..17], s[17..17 + count]));
        ParseDht(s, dc, ac) ==
          ParseDht(s[17 + count..], if is_ac then dc else dc[slot := t], if is_ac then ac[slot := t] else ac)
  {
    hide Sum;
  }

  lemma Cuts(data: seq<nat>, p: nat, end: nat, count: nat)
    requires p + 17 <= end <= |data|
    ensures data[p..end][0] == data[p] && data[p..end][1..17] == data[p + 1..p + 17]
    ensures p + 17 + count <= end ==>
      && data[p..end][17..17 + count] == data[p + 17..p + 17 + count]
      && data[p..end][17 + count..] == data[p + 17 + count..end]
  {
    SubSlice(data, p, end, 1, 17);
    if p + 17 + count <= end {
      SubSlice(data, p, end, 17, 17 + count);
      SubSlice(data, p, end, 17 + count, end - p);
    }
  }

  lemma SubSlice(data: seq<nat>, p: nat, end: nat, a: nat, b: nat)
    requires p <= end <= |data| && a <= b <= end - p
    ensures data[p..end][a..b] == data[p + a..p + b]
    ensures b == end - p ==> data[p..end][a..] == data[p + a..end]
  {
    var x, y := data[p..end][a..b], data[p + a..p + b];
    assert |x| == |y| && forall i :: 0 <= i < |x| ==> x[i] == y[i];
  }

  function SlotOf(index: nat): int {
    if index / 16 % 2 == 1 then index - 16 else index
  }

  /** A malformed table of a DHT segment. */
  lemma {:induction false} BadHuff(data: seq<nat>, pos: nat, end: int, dcs: seq<Option<Listed>>,
                                   acs: seq<Option<Listed>>, p: nat,
                dc: seq<Option<Listed>>, ac: seq<Option<Listed>>)
    requires HuffsLeft(data, pos, end, dcs, acs, p, dc, ac) && end - p > 16 && p + 17 <= |data|
    requires var count := Sum(data[p + 1..p + 17], 16);
      count > 256 || count > end - p - 17 || SlotOf(data[p]) >= NUM_TBLS
    ensures |dcs| == |acs| == NUM_TBLS
    ensures pos + 2 <= end <= |data| ==> ParseDht(data[pos + 2..end], dcs, acs).None?
  {
    hide Sum, ParseDht;
    if pos + 2 <= end <= |data| {
      DhtStep(data[p..end], dc, ac);
      Cuts(data, p, end, 0);
    }
  }

  /** One table of a DHT segment. */
  lemma NextHuff(data: seq<nat>, pos: nat, end: int, dcs: seq<Option<Listed>>, acs: seq<Option<Listed>>, p: nat,
                 dc: seq<Option<Listed>>, ac: seq<Option<Listed>>, count: nat)
    requires HuffsLeft(data, pos, end, dcs, acs, p, dc, ac) && end - p > 16 && p + 17 + count <= |data|
    requires count == Sum(data[p + 1..p + 17], 16) <= 256 && count <= end - p - 17 && SlotOf(data[p]) < NUM_TBLS
    ensures |dc| == |ac| == NUM_TBLS
    ensures var t := Some(Listed(data[p + 1..p + 17], data[p + 17..p + 17 + count]));
      if data[p] / 16 % 2 == 1 then HuffsLeft(data, pos, end, dcs, acs, p + 17 + count, dc, ac[SlotOf(data[p]) := t])
      else HuffsLeft(data, pos, end, dcs, acs, p + 17 + count, dc[SlotOf(data[p]) := t], ac)
  {
    hide Sum, ParseDht;
    if pos + 2 <= end <= |data| {
      DhtStep(data[p..end], dc, ac);
      Cuts(data, p, end, count);
    }
  }

  /** Reading on at p with these tables gives what reading the whole segment gives; if the tables run past its
      end, the segment is malformed. */
  ghost predicate QuantsLeft(data: seq<nat>, pos: nat, end: int, tables: seq<Option<seq<nat>>>, p: nat,
                             quant: seq<Option<seq<nat>>>)
  {
    && |quant| == |tables| == NUM_TBLS && pos + 2 <= p
    && (pos + 2 <= end <= |data| ==>
          var whole := ParseDqt(data[pos + 2..end], tables);
          if p <= end then whole == ParseDqt(data[p..end], quant) else whole.None?)
  }

  lemma AllLeft(data: seq<nat>, pos: nat, end: int, tables: seq<Option<seq<nat>>>)
    requires |tables| == NUM_TBLS
    ensures QuantsLeft(data, pos, end, tables, pos + 2, tables)
  {
    hide ParseDqt;
  }

  lemma {:induction false} NothingLeft(data: seq<nat>, pos: nat, end: int, tables: seq<Option<seq<nat>>>, p: nat,
                    quant: seq<Option<seq<nat>>>)
    requires QuantsLeft(data, pos, end, tables, p, quant) && p >= end
    ensures |tables| == NUM_TBLS
    ensures pos + 2 <= end <= |data| ==>
      ParseDqt(data[pos + 2..end], tables) == if p == end then Some(quant) else None
  {
    if pos + 2 <= p == end <= |data| { assert data[p..end] == []; }
  }

  /** One table of a DQT segment. */
  lemma {:induction false} TableLeft(data: seq<nat>, pos: nat, end: int, tables: seq<Option<seq<nat>>>, p: nat,
                  quant: seq<Option<seq<nat>>>)
    requires QuantsLeft(data, pos, end, tables, p, quant) && p < end && p < |data|
    ensures |tables| == NUM_TBLS && |quant| == NUM_TBLS
    ensures var prec, n := data[p] / 16, data[p] % 16;
      var size := if prec > 0 then 128 else 64;
      && (pos + 2 <= end <= |data| && (n >= NUM_TBLS || p + 1 + size > end) ==>
            ParseDqt(data[pos + 2..end], tables).None?)
      && (n < NUM_TBLS && p + 1 + size <= |data| ==>
            var next := quant[n := Some(QuantFrom(data[p + 1..p + 1 + size], prec))];
            QuantsLeft(data, pos, end, tables, p + 1 + size, next))
  {
    hide QuantFrom;
    var prec, n := data[p] / 16, data[p] % 16;
    var size := if prec > 0 then 128 else 64;
    if n < NUM_TBLS {
      DqtStep(data, p + 1, end, prec, n, quant);
    } else if end <= |data| {
      assert data[p..end][0] == data[p];
    }
  }

  lemma {:induction false} DqtStep(data: seq<nat>, p: nat, end: int, prec: nat, n: nat, quant: seq<Option<seq<nat>>>)
    requires 1 <= p <= |data| && data[p - 1] / 16 == prec && data[p - 1] % 16 == n < NUM_TBLS && |quant| == NUM_TBLS
    ensures var size := if prec > 0 then 128 else 64;
      && (p + size <= end <= |data| ==>
            var next := quant[n := Some(QuantFrom(data[p..p + size], prec))];
            ParseDqt(data[p - 1..end], quant) == ParseDqt(data[p + size..end], next))
      && (p <= end <= |data| && p + size > end ==> ParseDqt(data[p - 1..end], quant).None?)
  {
    var size := if prec > 0 then 128 else 64;
    if p <= end <= |data| {
      var s := data[p - 1..end];
      assert s[0] == data[p - 1];
      if p + size <= end {
        assert s[1 + size..] == data[p + size..end];
        SameQuant(s[1..], data[p..p + size], prec);
      }
    }
  }

  lemma SameQuant(a: seq<nat>, b: seq<nat>, prec: nat)
    requires |b| == (if prec > 0 then 128 else 64) && |a| >= |b| && a[..|b|] == b
    ensures QuantFrom(a, prec) == QuantFrom(b, prec)
  {
    forall k | 0 <= k < 64 ensures QuantAt(a, prec, ZigzagOf(k)) == QuantAt(b, prec, ZigzagOf(k)) {
      var i := ZigzagOf(k);
      if prec > 0 {
        assert a[2 * i] == a[..|b|][2 * i] && a[2 * i + 1] == a[..|b|][2 * i + 1];
      } else {
        assert a[i] == a[..|b|][i];
      }
    }
  }
}
