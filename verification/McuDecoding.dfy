/** Decoding MCU after MCU: restart processing (process_restart of jdhuff.c and jdphuff.c,
    read_restart_marker and jpeg_resync_to_restart of jdmarker.c) and the state that the
    entropy decoders save between MCUs. */
module McuDecoding {
  import opened Coefficients
  import opened HuffmanTables
  import opened BitReader
  import opened Coding
  import opened Decoding

  const RST0: nat := 0xD0
  const SOF0: nat := 0xC0

  /** A marker was found and the input position is behind it, or the input ran out. Waiting
      keeps the position from which the search resumes. */
  datatype MarkerAt = Found(pos: nat, code: nat) | Waiting(pos: nat)

  /** next_marker */
  function NextMarker(data: seq<nat>, lim: nat, pos: nat): (r: MarkerAt)
    requires lim <= |data|
    ensures r.pos >= pos
    ensures r.Found? ==> pos < r.pos <= lim && r.code != 0 && r.code != 0xFF && r.code == data[r.pos - 1]
    decreases lim - pos
  {
    if pos >= lim then Waiting(pos)
    else if data[pos] != 0xFF then NextMarker(data, lim, pos + 1)
    else
      var q := SkipFF(data, lim, pos + 1);
      if q >= lim then Waiting(pos)
      else if data[q] == 0 then NextMarker(data, lim, q + 1)
      else Found(q + 1, data[q])
  }

  /** A marker: an FF byte followed by a byte that is neither a stuffed zero nor a fill byte. */
  predicate IsMarker(data: seq<nat>, lim: nat, q: nat)
    requires lim <= |data|
  {
    q + 1 < lim && data[q] == 0xFF && data[q + 1] != 0 && data[q + 1] != 0xFF
  }

  lemma {:induction false} SkipsOnlyFF(data: seq<nat>, lim: nat, q: nat)
    requires lim <= |data|
    ensures forall k :: q <= k < SkipFF(data, lim, q) && k < lim ==> data[k] == 0xFF
    ensures q < lim ==> SkipFF(data, lim, q) <= lim
    decreases lim - q
  {
    if q < lim && data[q] == 0xFF { SkipsOnlyFF(data, lim, q + 1); }
  }

  /** next_marker skips garbage, stuffed zeros and fill bytes, and nothing else: it finds the first
      marker, or there is none yet. */
  lemma {:induction false} NextMarkerIsFirst(data: seq<nat>, lim: nat, pos: nat)
    requires lim <= |data|
    ensures var r := NextMarker(data, lim, pos);
      match r
      case Found(p, code) =>
        && pos + 2 <= p && IsMarker(data, lim, p - 2) && code == data[p - 1]
        && forall q :: pos <= q < p - 2 ==> !IsMarker(data, lim, q)
      case Waiting(p) => forall q :: pos <= q ==> !IsMarker(data, lim, q)
    decreases lim - pos
  {
    hide SkipFF;
    if pos < lim {
      if data[pos] != 0xFF {
        NextMarkerIsFirst(data, lim, pos + 1);
      } else {
        SkipsOnlyFF(data, lim, pos + 1);
        var q := SkipFF(data, lim, pos + 1);
        if q < lim && data[q] == 0 { NextMarkerIsFirst(data, lim, q + 1); }
      }
    }
  }

  /** The three recovery actions of jpeg_resync_to_restart. */
  function ResyncAction(marker: nat, desired: nat): nat {
    if marker < SOF0 then 2
    else if marker < RST0 || marker > RST0 + 7 then 3
    else if marker == RST0 + (desired + 1) % 8 || marker == RST0 + (desired + 2) % 8 then 3
    else if marker == RST0 + (desired + 7) % 8 || marker == RST0 + (desired + 6) % 8 then 2
    else 1
  }

  /** The input position and unread_marker after looking for a restart marker; `ok` is false
      when the decoder has to suspend. */
  datatype Sync = Sync(ok: bool, pos: nat, marker: nat)

  /** jpeg_resync_to_restart */
  function Resync(data: seq<nat>, lim: nat, pos: nat, marker: nat, desired: nat): Sync
    requires lim <= |data|
    decreases lim - pos
  {
    var action := ResyncAction(marker, desired);
    if action == 1 then Sync(true, pos, 0)
    else if action == 3 then Sync(true, pos, marker)
    else
      match NextMarker(data, lim, pos)
      case Waiting(p) => Sync(false, p, marker)
      case Found(p, code) => Resync(data, lim, p, code, desired)
  }

  /** read_restart_marker */
  function ReadRestart(data: seq<nat>, lim: nat, pos: nat, marker: nat, next: nat): Sync
    requires lim <= |data|
  {
    if marker != 0 then Restarted(data, lim, pos, marker, next)
    else
      match NextMarker(data, lim, pos)
      case Waiting(p) => Sync(false, p, 0)
      case Found(p, code) => Restarted(data, lim, p, code, next)
  }

  function Restarted(data: seq<nat>, lim: nat, pos: nat, marker: nat, next: nat): Sync
    requires lim <= |data|
  {
    if marker == RST0 + next then Sync(true, pos, 0) else Resync(data, lim, pos, marker, next)
  }

  /** The decoder between MCUs: bit reservoir, input position and flags, end-of-band run,
      predictions, restart countdown, number of the next restart marker. */
  datatype Dec = Dec(rd: Rd, eobrun: nat, last: seq<int>, togo: nat, next: nat)

  /** An MCU is complete, or the decoder suspends; either way the saved state and the blocks. */
  datatype McuResult = Complete(dec: Dec, blocks: seq<Block>) | Suspended(dec: Dec, blocks: seq<Block>)

  /** start_pass */
  function StartPass(scan: Scan, pos: nat): Dec {
    Dec(Rd([], pos, 0, false), 0, NoPredictions(scan), scan.ri, 0)
  }

  ghost predicate DecOk(scan: Scan, d: Dec) {
    scan.Ok() && |d.last| == scan.ncomps && d.next < 8 && (scan.mode !in {AcFirst, AcRefine} ==> d.eobrun == 0)
  }

  /** process_restart; the reservoir is emptied even when the marker has not arrived. */
  function ProcessRestart(scan: Scan, data: seq<nat>, lim: nat, d: Dec): (bool, Dec)
    requires lim <= |data|
  {
    var s := ReadRestart(data, lim, d.rd.pos, d.rd.marker, d.next);
    var rd := Rd([], s.pos, s.marker, d.rd.dry);
    if s.ok then
      (true, Dec(rd.(dry := rd.dry && s.marker != 0), 0, NoPredictions(scan), scan.ri, (d.next + 1) % 8))
    else (false, d.(rd := rd))
  }

  function BeginDecode(scan: Scan, data: seq<nat>, lim: nat, d: Dec): (bool, Dec)
    requires lim <= |data|
  {
    if scan.ri > 0 && d.togo == 0 then ProcessRestart(scan, data, lim, d) else (true, d)
  }

  lemma BeginDecodeOk(scan: Scan, data: seq<nat>, lim: nat, d: Dec)
    requires lim <= |data| && DecOk(scan, d)
    ensures DecOk(scan, BeginDecode(scan, data, lim, d).1)
  {}

  /** restarts_to_go-- on an unsigned int; without restarts the value is never looked at. */
  function CountDown(d: Dec): Dec {
    d.(togo := if d.togo > 0 then d.togo - 1 else 0xFFFF_FFFF)
  }

  /** undoit: newly nonzero coefficients go back to zero. */
  function Undo(b: Block, newnz: seq<nat>): (r: Block) {
    seq(64, k requires 0 <= k < 64 => if k in newnz then 0 else b[k])
  }

  /** The blocks a suspended MCU leaves behind. */
  function LeftBehind(scan: Scan, st: St): (bs: seq<Block>)
    ensures |bs| == |st.blocks|
  {
    if scan.mode == AcRefine && |st.blocks| == 1 then [Undo(st.blocks[0], st.newnz)] else st.blocks
  }

  /** The MCU body, after restart processing. */
  ghost function DecodeBody(scan: Scan, data: seq<nat>, lim: nat, tabs: seq<Tab>, d: Dec, bs: seq<Block>): McuResult
    requires DecOk(scan, d) && |bs| == |scan.members| && TabsOk(scan, tabs) && lim <= |data| && Bytes(data)
  {
    if d.rd.dry && scan.mode != DcRefine then Complete(CountDown(d), bs)
    else
      match RunRd(scan, data, lim, tabs, Init(scan, d.eobrun, d.last, bs), d.rd)
      case Done(st, rd) => Complete(CountDown(d.(rd := rd, eobrun := st.eobrun, last := st.last)), st.blocks)
      case Susp(st, rd) => Suspended(d, LeftBehind(scan, st))
  }

  /** One call of a decode_mcu routine. */
  ghost function DecodeMcu(scan: Scan, data: seq<nat>, lim: nat, tabs: seq<Tab>, d: Dec, bs: seq<Block>): McuResult
    requires DecOk(scan, d) && |bs| == |scan.members| && TabsOk(scan, tabs) && lim <= |data| && Bytes(data)
  {
    var (ok, d1) := BeginDecode(scan, data, lim, d);
    BeginDecodeOk(scan, data, lim, d);
    if ok then DecodeBody(scan, data, lim, tabs, d1, bs) else Suspended(d1, bs)
  }

  /** A finished MCU leaves a well-formed state and as many blocks as it was given. */
  lemma DecodeMcuOk(scan: Scan, data: seq<nat>, lim: nat, tabs: seq<Tab>, d: Dec, bs: seq<Block>)
    requires DecOk(scan, d) && |bs| == |scan.members| && TabsOk(scan, tabs) && lim <= |data| && Bytes(data)
    ensures var o := DecodeMcu(scan, data, lim, tabs, d, bs); DecOk(scan, o.dec) && |o.blocks| == |bs|
  {
    hide RunRd, TabsOk, Bytes;
    BeginDecodeOk(scan, data, lim, d);
    var d1 := BeginDecode(scan, data, lim, d).1;
    InitOk(scan, d1.eobrun, d1.last, bs);
    RunRdOk(scan, data, lim, tabs, Init(scan, d1.eobrun, d1.last, bs), d1.rd);
  }

  lemma {:induction false} RunRdOk(scan: Scan, data: seq<nat>, lim: nat, tabs: seq<Tab>, st: St, rd: Rd)
    requires StOk(scan, st) && TabsOk(scan, tabs) && lim <= |data| && Bytes(data)
    ensures var run := RunRd(scan, data, lim, tabs, st, rd);
      StOk(scan, run.st) && |run.st.blocks| == |st.blocks| && (run.Done? ==> run.st.pc == Fin)
    decreases Rank(scan, st)
  {
    hide Asks, Feed, StOk, Rank, TabsOk, Bytes, Fetch;
    var a := Asks(scan, st);
    if a.Halt? {
      HaltIsFin(scan, st);
    } else if a.Silent? {
      FeedOk(scan, st, 0);
      RunRdOk(scan, data, lim, tabs, Feed(scan, st, 0), rd);
    } else {
      AskOk(scan, st, tabs);
      FetchOk(data, lim, rd, tabs, a);
      match Fetch(data, lim, rd, tabs, a)
      case Starved =>
      case Got(v, rd') =>
        FeedOk(scan, st, v);
        RunRdOk(scan, data, lim, tabs, Feed(scan, st, v), rd');
    }
  }

  lemma HaltIsFin(scan: Scan, st: St)
    requires StOk(scan, st)
    ensures Asks(scan, st).Halt? <==> st.pc == Fin
  {}

  datatype ScanOut = ScanOut(dec: Dec, outs: seq<seq<Block>>)

  /** Decoding a sequence of MCUs with everything at hand. */
  ghost function DecodeAll(scan: Scan, data: seq<nat>, lim: nat, tabs: seq<Tab>, d0: Dec,
                           bss: seq<seq<Block>>): (r: Option<ScanOut>)
    requires DecOk(scan, d0) && TabsOk(scan, tabs) && lim <= |data| && Bytes(data)
    requires forall i :: 0 <= i < |bss| ==> |bss[i]| == |scan.members|
    ensures r.Some? ==> DecOk(scan, r.value.dec) && |r.value.outs| == |bss|
  {
    if bss == [] then Some(ScanOut(d0, []))
    else
      match DecodeAll(scan, data, lim, tabs, d0, bss[..|bss| - 1])
      case None => None
      case Some(before) =>
        DecodeMcuOk(scan, data, lim, tabs, before.dec, bss[|bss| - 1]);
        match DecodeMcu(scan, data, lim, tabs, before.dec, bss[|bss| - 1])
        case Suspended(_, _) => None
        case Complete(d, blocks) => Some(ScanOut(d, before.outs + [blocks]))
  }
}
