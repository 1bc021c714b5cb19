/** The MCU decoders of jdhuff.c and jdphuff.c in their imperative form. Each routine works in
    place on the blocks it is given and is proved equal to DecodeMcu. */
module McuDecoder {
  import opened Bits
  import opened Coefficients
  import opened BitReader
  import opened Coding
  import opened Decoding
  import opened TokenBits
  import opened McuDecoding
  import opened NaturalOrder
  import opened Suspension

  /** MCU_data: one 64-entry array per block, no two the same. */
  ghost predicate McuData(m: seq<array<int>>) {
    && (forall i :: 0 <= i < |m| ==> m[i].Length == 64)
    && (forall i, j :: 0 <= i < j < |m| ==> m[i] != m[j])
  }

  /** The blocks in zigzag order. */
  ghost function Blocks(m: seq<array<int>>): (bs: seq<Block>)
    requires McuData(m)
    reads m
    ensures |bs| == |m|
  {
    seq(|m|, i requires 0 <= i < |m| reads m => Zigzag(m[i][..]))
  }

  /** (*block)[jpeg_natural_order[k]] = v */
  method Store(m: seq<array<int>>, blkn: nat, k: nat, v: int)
    requires McuData(m) && blkn < |m| && k < 80
    modifies m[blkn]
    ensures Blocks(m) == old(Blocks(m))[blkn := old(Blocks(m))[blkn][(if k < 64 then k else 63) := v]]
  {
    hide Zigzag;
    StoreZigzag(m[blkn][..], k, v);
    ghost var before := m[blkn][..];
    m[blkn][JpegNaturalOrder(k)] := v;
    assert m[blkn][..] == before[JpegNaturalOrder(k) := v];
    assert forall i :: 0 <= i < |m| && i != blkn ==> m[i][..] == old(m[i][..]);
  }

  /** (*block)[jpeg_natural_order[k]] */
  method Load(m: seq<array<int>>, blkn: nat, k: nat) returns (v: int)
    requires McuData(m) && blkn < |m| && k < 64
    ensures v == Blocks(m)[blkn][k]
  {
    hide Zigzag;
    StoreZigzag(m[blkn][..], k, 0);
    v := m[blkn][JpegNaturalOrder(k)];
  }

  /** Natural-order positions recorded for the zigzag positions newnz. */
  ghost predicate Recorded(pos: seq<nat>, n: nat, newnz: seq<nat>) {
    n == |newnz| <= 64 == |pos| && forall i :: 0 <= i < n ==> newnz[i] < 64 && pos[i] == NaturalOf(newnz[i])
  }

  /** undoit: re-zero the coefficients that were made newly nonzero. */
  method UndoNew(m: seq<array<int>>, newnz_pos: array<nat>, n: nat, ghost newnz: seq<nat>)
    requires McuData(m) && |m| == 1 && Recorded(newnz_pos[..], n, newnz)
    modifies m
    ensures Blocks(m) == [Undo(old(Blocks(m))[0], newnz)]
  {
    hide Zigzag, NaturalOf;
    ghost var before := Blocks(m)[0];
    var num_newnz := n;
    UndoNone(before);
    assert newnz[num_newnz..] == [];
    while num_newnz > 0
      invariant num_newnz <= n && Blocks(m) == [Undo(before, newnz[num_newnz..])]
    {
      num_newnz := num_newnz - 1;
      ghost var j := newnz[num_newnz];
      StoreZigzag(m[0][..], j, 0);
      ghost var was := m[0][..];
      assert Blocks(m)[0] == Zigzag(was);
      m[0][newnz_pos[num_newnz]] := 0;
      assert m[0][..] == was[JpegNaturalOrder(j) := 0];
      UndoOne(before, newnz, num_newnz);
      assert Blocks(m)[0] == Zigzag(m[0][..]) == Undo(before, newnz[num_newnz..]);
    }
    assert newnz[0..] == newnz;
  }

  lemma UndoNone(b: Block)
    ensures Undo(b, []) == b
  {}

  lemma UndoOne(b: Block, newnz: seq<nat>, i: nat)
    requires i < |newnz| && newnz[i] < 64
    ensures Undo(b, newnz[i + 1..])[newnz[i] := 0] == Undo(b, newnz[i..])
  {
    assert newnz[i..] == [newnz[i]] + newnz[i + 1..];
  }

  /** HUFF_DECODE where the machine asks for a symbol. */
  method NextSym(ghost scan: Scan, data: seq<nat>, lim: nat, tabs: seq<Tab>, ghost st: St, w0: Work, tbl: nat)
    returns (ok: bool, s: nat, w: Work)
    requires StOk(scan, st) && TabsOk(scan, tabs) && Bytes(data) && lim <= |data| && w0.bitsLeft <= 32
    requires Asks(scan, st).NeedSym? && Asks(scan, st).tbl == tbl
    ensures w.bitsLeft <= 32
    ensures !ok ==> w == w0 && RunRd(scan, data, lim, tabs, st, Abs(w0)) == Susp(st, Abs(w0))
    ensures ok ==> s < 256 && AnswerOk(Asks(scan, st), s) && StOk(scan, Feed(scan, st, s))
    ensures ok ==> RunRd(scan, data, lim, tabs, st, Abs(w0)) == RunRd(scan, data, lim, tabs, Feed(scan, st, s), Abs(w))
  {
    hide StOk, Asks, Feed, RunRd, TabsOk, Bytes, GetSym, GetBits, Abs, TableOk;
    AskOk(scan, st, tabs);
    PresentOk(tabs, tbl);
    Starving(scan, data, lim, tabs, st, Abs(w0));
    ok, s, w := HuffDecode(data, lim, w0, tabs[tbl].h, tabs[tbl].d);
    if ok {
      FetchOk(data, lim, Abs(w0), tabs, Asks(scan, st));
      RunFetch(scan, data, lim, tabs, st, Abs(w0), s, Abs(w));
    }
  }

  /** CHECK_BIT_BUFFER and GET_BITS where the machine asks for bits. */
  method NextBits(ghost scan: Scan, data: seq<nat>, lim: nat, ghost tabs: seq<Tab>, ghost st: St, w0: Work, n: nat)
    returns (ok: bool, v: nat, w: Work)
    requires StOk(scan, st) && TabsOk(scan, tabs) && Bytes(data) && lim <= |data| && w0.bitsLeft <= 32
    requires Asks(scan, st) == NeedBits(n)
    ensures w.bitsLeft <= 32
    ensures !ok ==> w == w0 && RunRd(scan, data, lim, tabs, st, Abs(w0)) == Susp(st, Abs(w0))
    ensures ok ==> v < Pow2(n) && AnswerOk(Asks(scan, st), v) && StOk(scan, Feed(scan, st, v))
    ensures ok ==> RunRd(scan, data, lim, tabs, st, Abs(w0)) == RunRd(scan, data, lim, tabs, Feed(scan, st, v), Abs(w))
  {
    hide StOk, Asks, Feed, RunRd, TabsOk, Bytes, GetSym, GetBits, Abs, Pow2;
    AskOk(scan, st, tabs);
    Starving(scan, data, lim, tabs, st, Abs(w0));
    ok, v, w := TakeBits(data, lim, w0, n);
    if ok {
      FetchOk(data, lim, Abs(w0), tabs, NeedBits(n));
      RunFetch(scan, data, lim, tabs, st, Abs(w0), v, Abs(w));
    }
  }

  /** Section F.2.2.1 of ITU-T T.81: the DC coefficient difference of the current block. */
  method ReadDifference(ghost scan: Scan, data: seq<nat>, lim: nat, tabs: seq<Tab>, ghost st: St, w0: Work, tbl: nat)
    returns (ok: bool, diff: int, w: Work)
    requires StOk(scan, st) && TabsOk(scan, tabs) && Bytes(data) && lim <= |data| && w0.bitsLeft <= 32
    requires st.pc == DcTop && st.blkn < |st.blocks| && tbl == scan.dcTbl[scan.members[st.blkn]]
    ensures w.bitsLeft <= 32 && StOk(scan, SetDc(scan, st, diff))
    ensures ok ==>
      RunRd(scan, data, lim, tabs, st, Abs(w0)) == RunRd(scan, data, lim, tabs, SetDc(scan, st, diff), Abs(w))
    ensures !ok ==> var run := RunRd(scan, data, lim, tabs, st, Abs(w0));
      run.Susp? && run.rd == Abs(w) && run.st.blocks == st.blocks
  {
    hide RunRd, TabsOk, Bytes, Abs, Pow2, Extend, SetDc, StOk, Asks, Feed, AnswerOk;
    diff := 0;
    SetDcOk(scan, st, 0);
    DcAsks(scan, st);
    var s: nat;
    ok, s, w := NextSym(scan, data, lim, tabs, st, w0, tbl);
    if !ok {
      return;
    }
    DcSym(scan, st, s);
    if s != 0 {
      var r;
      ok, r, w := NextBits(scan, data, lim, tabs, st.(pc := DcMag(s)), w, s);
      if !ok {
        return;
      }
      diff := Extend(r, s);
      DcBits(scan, st, s, r);
      SetDcOk(scan, st, diff);
    }
  }

  class EntropyDecoder {
    // the scan and its derived tables
    const scan: Scan
    const tabs: seq<Tab>
    // the data source: the bytes of the file, and how many of them have arrived
    const data: seq<nat>
    var arrived: nat
    var next_input_byte: nat
    // decompressor fields
    var unread_marker: nat
    var next_restart_num: nat
    // bitstate
    var get_buffer: nat
    var bits_left: nat
    var insufficient_data: bool
    // saved, and the restart counter
    var EOBRUN: nat
    var last_dc_val: seq<int>
    var restarts_to_go: nat

    ghost function State(): Dec
      reads this
    {
      Dec(Rd(BitsOf(get_buffer, bits_left), next_input_byte, unread_marker, insufficient_data),
          EOBRUN, last_dc_val, restarts_to_go, next_restart_num)
    }

    ghost predicate Valid()
      reads this
    {
      && scan.Ok() && TabsOk(scan, tabs) && Bytes(data) && arrived <= |data|
      && bits_left <= 32 && DecOk(scan, State())
    }

    /** start_pass_huff_decoder and start_pass_phuff_decoder, once the scan has been checked. */
    constructor (scan: Scan, tabs: seq<Tab>, data: seq<nat>, pos: nat)
      requires scan.Ok() && TabsOk(scan, tabs) && Bytes(data)
      ensures Valid() && State() == StartPass(scan, pos)
      ensures this.scan == scan && this.tabs == tabs && this.data == data && arrived == 0
    {
      this.scan, this.tabs, this.data := scan, tabs, data;
      arrived, next_input_byte := 0, pos;
      unread_marker, next_restart_num := 0, 0;
      get_buffer, bits_left, insufficient_data := 0, 0, false;
      EOBRUN, last_dc_val, restarts_to_go := 0, NoPredictions(scan), scan.ri;
    }

    /** BITREAD_LOAD_STATE */
    function LoadState(): (w: Work)
      reads this
      ensures Abs(w) == State().rd
    {
      Work(get_buffer, bits_left, next_input_byte, unread_marker, insufficient_data)
    }

    /** BITREAD_SAVE_STATE; the marker and the flag are permanent fields that the fill routine sets. */
    method SaveState(w: Work)
      modifies this`get_buffer, this`bits_left, this`next_input_byte, this`unread_marker, this`insufficient_data
      ensures LoadState() == w && State() == old(State()).(rd := Abs(w))
    {
      get_buffer, bits_left, next_input_byte := w.getBuffer, w.bitsLeft, w.next;
      unread_marker, insufficient_data := w.marker, w.dry;
    }

    /** The marker and the flag that a fill has set stay set when the MCU is abandoned. */
    method KeepFlags(w: Work)
      modifies this`unread_marker, this`insufficient_data
      ensures unread_marker == w.marker && insufficient_data == w.dry
    {
      unread_marker, insufficient_data := w.marker, w.dry;
    }

    /** next_marker: bytes are given up one at a time, so that a suspended search resumes where it was. */
    method FindMarker() returns (ok: bool)
      requires arrived <= |data|
      modifies this`next_input_byte, this`unread_marker
      ensures match NextMarker(data, arrived, old(next_input_byte))
        case Found(p, code) => ok && next_input_byte == p && unread_marker == code
        case Waiting(p) => !ok && next_input_byte == p && unread_marker == old(unread_marker)
    {
      hide SkipFF;
      var pos, c := next_input_byte, 0;
      ghost var r := NextMarker(data, arrived, next_input_byte);
      while true
        invariant pos == next_input_byte && r == NextMarker(data, arrived, pos) && unread_marker == old(unread_marker)
        decreases arrived - pos
      {
        if pos >= arrived {
          return false;
        }
        c := data[pos];
        pos := pos + 1;
        while c != 0xFF
          invariant old(next_input_byte) < pos <= arrived && pos == next_input_byte + 1 && c == data[pos - 1]
          invariant r == NextMarker(data, arrived, pos - 1) && unread_marker == old(unread_marker)
          decreases arrived - pos
        {
          next_input_byte := pos;
          if pos >= arrived {
            return false;
          }
          c := data[pos];
          pos := pos + 1;
        }
        c, pos := SkipFill(pos);
        if pos > arrived {
          return false;
        }
        if c != 0 {
          break;
        }
        next_input_byte := pos;
      }
      unread_marker := c;
      next_input_byte := pos;
      ok := true;
    }

    /** The inner loop of next_marker: swallow duplicate FF bytes; past the input when they do not end. */
    method SkipFill(first: nat) returns (c: nat, pos: nat)
      requires arrived <= |data| && first <= arrived
      ensures pos == SkipFF(data, arrived, first) + 1
      ensures SkipFF(data, arrived, first) <= arrived
      ensures pos <= arrived ==> c == data[pos - 1]
    {
      pos, c := first, 0xFF;
      while c == 0xFF
        invariant first <= pos <= arrived
        invariant c == 0xFF ==> SkipFF(data, arrived, first) == SkipFF(data, arrived, pos)
        invariant c != 0xFF ==> first < pos && SkipFF(data, arrived, first) == pos - 1 && c == data[pos - 1]
        decreases c == 0xFF, arrived - pos
      {
        if pos >= arrived {
          return c, pos + 1;
        }
        c := data[pos];
        pos := pos + 1;
      }
    }

    /** jpeg_resync_to_restart */
    method ResyncToRestart(desired: nat) returns (ok: bool)
      requires arrived <= |data|
      modifies this`next_input_byte, this`unread_marker
      ensures Sync(ok, next_input_byte, unread_marker)
           == Resync(data, arrived, old(next_input_byte), old(unread_marker), desired)
    {
      hide NextMarker, ResyncAction;
      var marker := unread_marker;
      ghost var r := Resync(data, arrived, next_input_byte, marker, desired);
      while true
        invariant marker == unread_marker && r == Resync(data, arrived, next_input_byte, marker, desired)
        decreases arrived - next_input_byte
      {
        var action := ResyncAction(marker, desired);
        if action == 1 {
          unread_marker := 0;
          return true;
        } else if action == 3 {
          return true;
        }
        ActionRange(marker, desired);
        var found := FindMarker();
        if !found {
          return false;
        }
        marker := unread_marker;
      }
    }

    /** read_restart_marker */
    method ReadRestartMarker() returns (ok: bool)
      requires arrived <= |data|
      modifies this`next_input_byte, this`unread_marker, this`next_restart_num
      ensures Sync(ok, next_input_byte, unread_marker)
           == ReadRestart(data, arrived, old(next_input_byte), old(unread_marker), old(next_restart_num))
      ensures next_restart_num == if ok then (old(next_restart_num) + 1) % 8 else old(next_restart_num)
    {
      hide NextMarker, Resync;
      if unread_marker == 0 {
        var found := FindMarker();
        if !found {
          return false;
        }
      }
      if unread_marker == RST0 + next_restart_num {
        unread_marker := 0;
      } else {
        ok := ResyncToRestart(next_restart_num);
        if !ok {
          return false;
        }
      }
      next_restart_num := (next_restart_num + 1) % 8;
      ok := true;
    }

    /** process_restart */
    method DoRestart() returns (ok: bool)
      requires Valid()
      modifies this
      ensures Valid() && arrived == old(arrived)
      ensures (ok, State()) == ProcessRestart(scan, data, arrived, old(State()))
    {
      hide ReadRestart, TabsOk, Bytes;
      bits_left := 0;
      ok := ReadRestartMarker();
      if !ok {
        return;
      }
      last_dc_val := NoPredictions(scan);
      EOBRUN := 0;
      restarts_to_go := scan.ri;
      if unread_marker == 0 {
        insufficient_data := false;
      }
    }

    /** The restart handling at the start of every MCU routine. */
    method BeginMcu() returns (ok: bool)
      requires Valid()
      modifies this
      ensures Valid() && arrived == old(arrived)
      ensures (ok, State()) == BeginDecode(scan, data, arrived, old(State()))
    {
      hide ProcessRestart, TabsOk, Bytes;
      ok := true;
      if scan.ri != 0 {
        if restarts_to_go == 0 {
          ok := DoRestart();
        }
      }
    }

    /** restarts_to_go-- */
    method EndMcu()
      requires Valid()
      modifies this`restarts_to_go
      ensures Valid() && State() == CountDown(old(State()))
    {
      hide TabsOk, Bytes;
      restarts_to_go := if restarts_to_go > 0 then restarts_to_go - 1 else 0xFFFF_FFFF;
    }

    /** The coefficient loop of decode_mcu_AC_first, entered outside an end-of-band run. */
    method FirstBandLoop(m: seq<array<int>>, w0: Work) returns (ok: bool, w: Work, eobrun: nat)
      requires scan.Ok() && TabsOk(scan, tabs) && Bytes(data) && arrived <= |data| && w0.bitsLeft <= 32
      requires scan.mode == AcFirst && McuData(m) && |m| == |scan.members| && |last_dc_val| == scan.ncomps
      modifies m
      ensures w.bitsLeft <= 32
      ensures var st := St(AcTop(scan.Ss), 0, 0, last_dc_val, old(Blocks(m)), []);
        && StOk(scan, st)
        && (var run := RunRd(scan, data, arrived, tabs, st, Abs(w0));
            && Abs(w) == run.rd && Blocks(m) == run.st.blocks
            && (if ok then run.Done? && run.st.eobrun == eobrun && run.st.last == last_dc_val else run.Susp?))
    {
      hide RunRd, TabsOk, Bytes, Abs, Pow2, Scale, Short, Extend, Blocks, McuData, StOk, Asks, Feed;
      FirstBandStart(scan, last_dc_val, Blocks(m));
      ghost var st := St(AcTop(scan.Ss), 0, 0, last_dc_val, Blocks(m), []);
      ghost var run := RunRd(scan, data, arrived, tabs, st, Abs(w0));
      var Se, Al, tbl := scan.Se, scan.Al, scan.acTbl[scan.members[0]];
      w, eobrun := w0, 0;
      var k := scan.Ss;
      while k <= Se
        invariant w.bitsLeft <= 32 && k <= 80 && eobrun == 0
        invariant st == St(AcTop(k), 0, 0, last_dc_val, Blocks(m), []) && StOk(scan, st)
        invariant run == RunRd(scan, data, arrived, tabs, st, Abs(w))
        decreases 80 - k
      {
        var s, r: nat;
        AtAcTop(scan, st, k);
        ok, s, w := NextSym(scan, data, arrived, tabs, st, w, tbl);
        if !ok {
          return;
        }
        FirstSym(scan, st, k, s);
        st := Feed(scan, st, s);
        r, s := s / 16, s % 16;
        if s != 0 {
          k := k + r;
          ok, r, w := NextBits(scan, data, arrived, tabs, st, w, s);
          if !ok {
            return;
          }
          FirstMag(scan, st, k, s, r);
          st := Feed(scan, st, r);
          Store(m, 0, k, Short(Scale(Extend(r, s), Al)));
        } else {
          if r == 15 {
            k := k + 15;
          } else {
            eobrun := Pow2(r);
            if r != 0 {
              var more;
              ok, more, w := NextBits(scan, data, arrived, tabs, st, w, r);
              if !ok {
                return;
              }
              FirstEob(scan, st, k, r, more);
              st := Feed(scan, st, more);
              eobrun := eobrun + more;
            }
            eobrun := eobrun - 1;
            break;
          }
        }
        k := k + 1;
      }
      ok := true;
      BandOver(scan, data, arrived, tabs, st, Abs(w));
    }

    /** decode_mcu_AC_first */
    method DecodeMcuAcFirst(m: seq<array<int>>) returns (ok: bool)
      requires Valid() && scan.mode == AcFirst && McuData(m) && |m| == |scan.members|
      modifies this, m
      ensures Valid() && arrived == old(arrived)
      ensures var o := McuDecoding.DecodeMcu(scan, data, arrived, tabs, old(State()), old(Blocks(m)));
        ok == o.Complete? && State() == o.dec && Blocks(m) == o.blocks
    {
      hide RunRd, TabsOk, Bytes, BeginDecode, Blocks, McuData, BitsOf, Scan.Ok;
      ok := BeginMcu();
      if !ok {
        return;
      }
      ghost var d, bs := State(), Blocks(m);
      DecStart(scan, d, bs);
      if !insufficient_data {
        var eobrun := EOBRUN;
        if eobrun > 0 {
          eobrun := eobrun - 1;
          RunHalts(scan, data, arrived, tabs, Init(scan, d.eobrun, d.last, bs), d.rd);
        } else {
          var w := LoadState();
          ok, w, eobrun := FirstBandLoop(m, w);
          SuspFlags(scan, data, arrived, tabs, Init(scan, d.eobrun, d.last, bs), d.rd);
          if !ok {
            KeepFlags(w);
            return;
          }
          SaveState(w);
        }
        EOBRUN := eobrun;
      }
      EndMcu();
      ok := true;
    }

    /** The block loop of decode_mcu_DC_first. */
    method DcFirstLoop(m: seq<array<int>>, w0: Work) returns (ok: bool, w: Work, last: seq<int>)
      requires scan.Ok() && TabsOk(scan, tabs) && Bytes(data) && arrived <= |data| && w0.bitsLeft <= 32
      requires scan.mode == DcFirst && McuData(m) && |m| == |scan.members| && |last_dc_val| == scan.ncomps
      modifies m
      ensures w.bitsLeft <= 32
      ensures var st := St(DcTop, 0, 0, last_dc_val, old(Blocks(m)), []);
        && StOk(scan, st)
        && (var run := RunRd(scan, data, arrived, tabs, st, Abs(w0));
            && Abs(w) == run.rd && Blocks(m) == run.st.blocks
            && (if ok then run.Done? && run.st.eobrun == 0 && run.st.last == last else run.Susp?))
    {
      hide RunRd, TabsOk, Bytes, Abs, Scale, Short, Blocks, McuData, StOk, SetDc;
      DcStart(scan, last_dc_val, Blocks(m));
      ghost var st := St(DcTop, 0, 0, last_dc_val, Blocks(m), []);
      ghost var run := RunRd(scan, data, arrived, tabs, st, Abs(w0));
      w, last := w0, last_dc_val;
      var blkn := 0;
      while blkn < |m|
        invariant w.bitsLeft <= 32 && blkn <= |m|
        invariant st == St(DcTop, blkn, 0, last, Blocks(m), []) && StOk(scan, st)
        invariant run == RunRd(scan, data, arrived, tabs, st, Abs(w))
      {
        MembersOk(scan, st);
        var ci := scan.members[blkn];
        var s;
        ok, s, w := ReadDifference(scan, data, arrived, tabs, st, w, scan.dcTbl[ci]);
        if !ok {
          return;
        }
        DcStored(scan, st, s);
        st := SetDc(scan, st, s);
        s := s + last[ci];
        last := last[ci := s];
        Store(m, blkn, 0, Short(Scale(s, scan.Al)));
        blkn := blkn + 1;
      }
      ok := true;
      McuOver(scan, data, arrived, tabs, st, Abs(w));
    }

    /** decode_mcu_DC_first */
    method DecodeMcuDcFirst(m: seq<array<int>>) returns (ok: bool)
      requires Valid() && scan.mode == DcFirst && McuData(m) && |m| == |scan.members|
      modifies this, m
      ensures Valid() && arrived == old(arrived)
      ensures var o := McuDecoding.DecodeMcu(scan, data, arrived, tabs, old(State()), old(Blocks(m)));
        ok == o.Complete? && State() == o.dec && Blocks(m) == o.blocks
    {
      hide RunRd, TabsOk, Bytes, BeginDecode, Blocks, McuData, BitsOf, Scan.Ok;
      ok := BeginMcu();
      if !ok {
        return;
      }
      ghost var d, bs := State(), Blocks(m);
      DecStart(scan, d, bs);
      if !insufficient_data {
        var w := LoadState();
        var last;
        ok, w, last := DcFirstLoop(m, w);
        SuspFlags(scan, data, arrived, tabs, Init(scan, d.eobrun, d.last, bs), d.rd);
        if !ok {
          KeepFlags(w);
          return;
        }
        SaveState(w);
        SameLength(scan, data, arrived, tabs, d, bs);
        last_dc_val := last;
      }
      EndMcu();
      ok := true;
    }

    /** The block loop of decode_mcu_DC_refine. */
    method DcRefineLoop(m: seq<array<int>>, w0: Work) returns (ok: bool, w: Work)
      requires scan.Ok() && TabsOk(scan, tabs) && Bytes(data) && arrived <= |data| && w0.bitsLeft <= 32
      requires scan.mode == DcRefine && McuData(m) && |m| == |scan.members| && |last_dc_val| == scan.ncomps
      modifies m
      ensures w.bitsLeft <= 32
      ensures var st := St(BitTop, 0, 0, last_dc_val, old(Blocks(m)), []);
        && StOk(scan, st)
        && (var run := RunRd(scan, data, arrived, tabs, st, Abs(w0));
            && Abs(w) == run.rd && Blocks(m) == run.st.blocks
            && (if ok then run.Done? && run.st.eobrun == 0 && run.st.last == last_dc_val else run.Susp?))
    {
      hide RunRd, TabsOk, Bytes, Abs, Blocks, McuData, StOk, SetBit, Feed, Asks;
      DcStart(scan, last_dc_val, Blocks(m));
      ghost var st := St(BitTop, 0, 0, last_dc_val, Blocks(m), []);
      ghost var run := RunRd(scan, data, arrived, tabs, st, Abs(w0));
      w := w0;
      var blkn := 0;
      while blkn < |m|
        invariant w.bitsLeft <= 32 && blkn <= |m|
        invariant st == St(BitTop, blkn, 0, last_dc_val, Blocks(m), []) && StOk(scan, st)
        invariant run == RunRd(scan, data, arrived, tabs, st, Abs(w))
      {
        var bit;
        BitAsks(scan, st);
        ok, bit, w := NextBits(scan, data, arrived, tabs, st, w, 1);
        if !ok {
          return;
        }
        BitFed(scan, st, bit);
        st := Feed(scan, st, bit);
        if bit != 0 {
          var v := Load(m, blkn, 0);
          Store(m, blkn, 0, SetBit(v, scan.Al));
        }
        blkn := blkn + 1;
      }
      ok := true;
      McuOver(scan, data, arrived, tabs, st, Abs(w));
    }

    /** decode_mcu_DC_refine, which does not look at insufficient_data. */
    method DecodeMcuDcRefine(m: seq<array<int>>) returns (ok: bool)
      requires Valid() && scan.mode == DcRefine && McuData(m) && |m| == |scan.members|
      modifies this, m
      ensures Valid() && arrived == old(arrived)
      ensures var o := McuDecoding.DecodeMcu(scan, data, arrived, tabs, old(State()), old(Blocks(m)));
        ok == o.Complete? && State() == o.dec && Blocks(m) == o.blocks
    {
      hide RunRd, TabsOk, Bytes, BeginDecode, Blocks, McuData, BitsOf, Scan.Ok;
      ok := BeginMcu();
      if !ok {
        return;
      }
      ghost var d, bs := State(), Blocks(m);
      DecStart(scan, d, bs);
      var w := LoadState();
      ok, w := DcRefineLoop(m, w);
      SuspFlags(scan, data, arrived, tabs, Init(scan, d.eobrun, d.last, bs), d.rd);
      if !ok {
        KeepFlags(w);
        return;
      }
      SaveState(w);
      EndMcu();
      ok := true;
    }

    /** Section F.2.2.2: the AC coefficients of one block of a sequential scan. */
    method AcLoop(m: seq<array<int>>, blkn: nat, last: seq<int>, w0: Work) returns (ok: bool, w: Work)
      requires scan.Ok() && TabsOk(scan, tabs) && Bytes(data) && arrived <= |data| && w0.bitsLeft <= 32
      requires scan.mode == Sequential && McuData(m) && |m| == |scan.members| && blkn < |m| && |last| == scan.ncomps
      modifies m
      ensures w.bitsLeft <= 32
      ensures var st, st1 := St(AcTop(1), blkn, 0, last, old(Blocks(m)), []),
        St(DcTop, blkn + 1, 0, last, Blocks(m), []);
        && StOk(scan, st) && StOk(scan, st1)
        && (var run := RunRd(scan, data, arrived, tabs, st, Abs(w0));
            if ok then run == RunRd(scan, data, arrived, tabs, st1, Abs(w))
            else run.Susp? && run.rd == Abs(w) && run.st.blocks == Blocks(m))
    {
      hide RunRd, TabsOk, Bytes, Abs, Pow2, Scale, Short, Extend, Blocks, McuData, StOk, Asks, Feed;
      BlockStart(scan, blkn, last, Blocks(m));
      ghost var st := St(AcTop(1), blkn, 0, last, Blocks(m), []);
      ghost var run := RunRd(scan, data, arrived, tabs, st, Abs(w0));
      MembersOk(scan, st);
      var tbl := scan.acTbl[scan.members[blkn]];
      w := w0;
      var k := 1;
      while k < 64
        invariant w.bitsLeft <= 32 && 1 <= k <= 80
        invariant st == St(AcTop(k), blkn, 0, last, Blocks(m), []) && StOk(scan, st)
        invariant run == RunRd(scan, data, arrived, tabs, st, Abs(w))
        decreases 80 - k
      {
        var s, r: nat;
        AtAcTop(scan, st, k);
        ok, s, w := NextSym(scan, data, arrived, tabs, st, w, tbl);
        if !ok {
          BlockStart(scan, blkn, last, Blocks(m));
          return;
        }
        SeqSym(scan, st, k, s);
        st := Feed(scan, st, s);
        r, s := s / 16, s % 16;
        if s != 0 {
          k := k + r;
          ok, r, w := NextBits(scan, data, arrived, tabs, st, w, s);
          if !ok {
            BlockStart(scan, blkn, last, Blocks(m));
            return;
          }
          SeqMag(scan, st, k, s, r);
          st := Feed(scan, st, r);
          Store(m, blkn, k, Short(Scale(Extend(r, s), 0)));
        } else {
          if r != 15 {
            break;
          }
          k := k + 15;
        }
        k := k + 1;
      }
      ok := true;
      BlockOver(scan, data, arrived, tabs, st, Abs(w));
    }

    /** The block loop of decode_mcu. */
    method SequentialLoop(m: seq<array<int>>, w0: Work) returns (ok: bool, w: Work, last: seq<int>)
      requires scan.Ok() && TabsOk(scan, tabs) && Bytes(data) && arrived <= |data| && w0.bitsLeft <= 32
      requires scan.mode == Sequential && McuData(m) && |m| == |scan.members| && |last_dc_val| == scan.ncomps
      modifies m
      ensures w.bitsLeft <= 32
      ensures var st := St(DcTop, 0, 0, last_dc_val, old(Blocks(m)), []);
        && StOk(scan, st)
        && (var run := RunRd(scan, data, arrived, tabs, st, Abs(w0));
            && Abs(w) == run.rd && Blocks(m) == run.st.blocks
            && (if ok then run.Done? && run.st.eobrun == 0 && run.st.last == last else run.Susp?))
    {
      hide RunRd, TabsOk, Bytes, Abs, Scale, Short, Blocks, McuData, StOk, SetDc;
      DcStart(scan, last_dc_val, Blocks(m));
      ghost var st := St(DcTop, 0, 0, last_dc_val, Blocks(m), []);
      ghost var run := RunRd(scan, data, arrived, tabs, st, Abs(w0));
      w, last := w0, last_dc_val;
      var blkn := 0;
      while blkn < |m|
        invariant w.bitsLeft <= 32 && blkn <= |m| && |last| == scan.ncomps
        invariant st == St(DcTop, blkn, 0, last, Blocks(m), []) && StOk(scan, st)
        invariant run == RunRd(scan, data, arrived, tabs, st, Abs(w))
      {
        MembersOk(scan, st);
        var ci := scan.members[blkn];
        var s;
        ok, s, w := ReadDifference(scan, data, arrived, tabs, st, w, scan.dcTbl[ci]);
        if !ok {
          return;
        }
        DcStored(scan, st, s);
        SequentialAl(scan);
        st := SetDc(scan, st, s);
        s := s + last[ci];
        last := last[ci := s];
        Store(m, blkn, 0, Short(Scale(s, 0)));
        ok, w := AcLoop(m, blkn, last, w);
        if !ok {
          return;
        }
        blkn := blkn + 1;
        st := St(DcTop, blkn, 0, last, Blocks(m), []);
      }
      ok := true;
      McuOver(scan, data, arrived, tabs, st, Abs(w));
    }

    /** decode_mcu of jdhuff.c, with every component needed at full size. */
    method DecodeMcuSequential(m: seq<array<int>>) returns (ok: bool)
      requires Valid() && scan.mode == Sequential && McuData(m) && |m| == |scan.members|
      modifies this, m
      ensures Valid() && arrived == old(arrived)
      ensures var o := McuDecoding.DecodeMcu(scan, data, arrived, tabs, old(State()), old(Blocks(m)));
        ok == o.Complete? && State() == o.dec && Blocks(m) == o.blocks
    {
      hide RunRd, TabsOk, Bytes, BeginDecode, Blocks, McuData, BitsOf, Scan.Ok;
      ok := BeginMcu();
      if !ok {
        return;
      }
      ghost var d, bs := State(), Blocks(m);
      DecStart(scan, d, bs);
      if !insufficient_data {
        var w := LoadState();
        var last;
        ok, w, last := SequentialLoop(m, w);
        SuspFlags(scan, data, arrived, tabs, Init(scan, d.eobrun, d.last, bs), d.rd);
        if !ok {
          KeepFlags(w);
          return;
        }
        SaveState(w);
        SameLength(scan, data, arrived, tabs, d, bs);
        last_dc_val := last;
      }
      EndMcu();
      ok := true;
    }

    /** Append a correction bit to coefficient k, unless an earlier try has already set it. */
    method AddCorrection(m: seq<array<int>>, k: nat, bit: nat)
      requires McuData(m) && |m| == 1 && k < 64
      modifies m
      ensures Blocks(m) == if bit == 0 then old(Blocks(m))
                           else [old(Blocks(m))[0][k := Correct(old(Blocks(m))[0][k], scan.Al)]]
    {
      hide Blocks, McuData, Bit, Short, Pow2;
      ghost var b := Blocks(m)[0];
      assert b[k := b[k]] == b;
      if bit != 0 {
        var p1: nat := Pow2(scan.Al);
        var coef := Load(m, 0, k);
        if !Bit(coef, scan.Al) {
          Store(m, 0, k, if coef >= 0 then Short(coef + p1) else Short(coef - p1));
        }
      }
    }

    /** The do-while loop of decode_mcu_AC_refine. */
    method AdvanceLoop(m: seq<array<int>>, ghost st0: St, w0: Work, k0: nat, r0: nat, s: int)
      returns (ok: bool, w: Work, k: nat)
      requires scan.Ok() && TabsOk(scan, tabs) && Bytes(data) && arrived <= |data| && w0.bitsLeft <= 32
      requires scan.mode == AcRefine && McuData(m) && |m| == 1
      requires StOk(scan, st0) && st0.pc == Inner(k0, r0, s) && st0.blocks == Blocks(m) && st0.blkn == 0
      modifies m
      ensures w.bitsLeft <= 32
      ensures var run := RunRd(scan, data, arrived, tabs, st0, Abs(w0));
        var st1 := st0.(pc := Place(k, s), blocks := Blocks(m));
        if ok then k0 <= k <= scan.Se + 1 && StOk(scan, st1) && run == RunRd(scan, data, arrived, tabs, st1, Abs(w))
        else run == Susp(st0.(pc := run.st.pc, blocks := Blocks(m)), Abs(w))
    {
      hide RunRd, TabsOk, Bytes, Abs, Blocks, McuData, StOk, Asks, Feed, Correct;
      ghost var run := RunRd(scan, data, arrived, tabs, st0, Abs(w0));
      ghost var st := st0;
      InnerIn(scan, st);
      w, k := w0, k0;
      var r: int := r0;
      while true
        invariant w.bitsLeft <= 32 && k0 <= k <= scan.Se < 64 && r >= 0
        invariant st == st0.(pc := Inner(k, r, s), blocks := Blocks(m)) && StOk(scan, st)
        invariant run == RunRd(scan, data, arrived, tabs, st, Abs(w))
        decreases 64 - k
      {
        var coef := Load(m, 0, k);
        InnerAsks(scan, st);
        if coef != 0 {
          var bit;
          ok, bit, w := NextBits(scan, data, arrived, tabs, st, w, 1);
          if !ok {
            return;
          }
          InnerFed(scan, st, bit);
          st := Feed(scan, st, bit);
          AddCorrection(m, k, bit);
        } else {
          InnerFed(scan, st, 0);
          RunSilent(scan, data, arrived, tabs, st, Abs(w));
          st := Feed(scan, st, 0);
          r := r - 1;
          if r < 0 {
            break;
          }
        }
        k := k + 1;
        if k > scan.Se {
          break;
        }
      }
      ok := true;
    }

    /** Corrections after the end of band. */
    method TailLoop(m: seq<array<int>>, ghost st0: St, w0: Work, k0: nat) returns (ok: bool, w: Work)
      requires scan.Ok() && TabsOk(scan, tabs) && Bytes(data) && arrived <= |data| && w0.bitsLeft <= 32
      requires scan.mode == AcRefine && McuData(m) && |m| == 1
      requires StOk(scan, st0) && st0.pc == TailAt(k0) && st0.blocks == Blocks(m) && st0.blkn == 0
      modifies m
      ensures w.bitsLeft <= 32
      ensures var run := RunRd(scan, data, arrived, tabs, st0, Abs(w0));
        if ok then st0.eobrun > 0 && run == Done(st0.(pc := Fin, eobrun := st0.eobrun - 1, blocks := Blocks(m)), Abs(w))
        else run == Susp(st0.(pc := run.st.pc, blocks := Blocks(m)), Abs(w))
    {
      hide RunRd, TabsOk, Bytes, Abs, Blocks, McuData, StOk, Asks, Feed, Correct;
      ghost var run := RunRd(scan, data, arrived, tabs, st0, Abs(w0));
      ghost var st := st0;
      TailIn(scan, st);
      w := w0;
      var k := k0;
      while k <= scan.Se
        invariant w.bitsLeft <= 32 && k0 <= k <= scan.Se + 1 <= 64
        invariant st == st0.(pc := TailAt(k), blocks := Blocks(m)) && StOk(scan, st)
        invariant run == RunRd(scan, data, arrived, tabs, st, Abs(w))
      {
        var coef := Load(m, 0, k);
        TailAsks(scan, st);
        if coef != 0 {
          var bit;
          ok, bit, w := NextBits(scan, data, arrived, tabs, st, w, 1);
          if !ok {
            return;
          }
          TailFed(scan, st, bit);
          st := Feed(scan, st, bit);
          AddCorrection(m, k, bit);
        } else {
          TailFed(scan, st, 0);
          RunSilent(scan, data, arrived, tabs, st, Abs(w));
          st := Feed(scan, st, 0);
        }
        k := k + 1;
      }
      ok := true;
      TailDone(scan, data, arrived, tabs, st, Abs(w));
    }

    /** The coefficient loop of decode_mcu_AC_refine, entered outside an end-of-band run: st1 is
        where the machine stands afterwards. */
    method NewLoop(m: seq<array<int>>, newnz_pos: array<nat>, w0: Work)
      returns (ok: bool, w: Work, k: nat, eobrun: nat, num_newnz: nat, ghost st1: St)
      requires scan.Ok() && TabsOk(scan, tabs) && Bytes(data) && arrived <= |data| && w0.bitsLeft <= 32
      requires scan.mode == AcRefine && McuData(m) && |m| == 1 && |last_dc_val| == scan.ncomps && newnz_pos.Length == 64
      modifies m, newnz_pos
      ensures w.bitsLeft <= 32 && Recorded(newnz_pos[..], num_newnz, st1.newnz) && st1.blocks == Blocks(m)
      ensures st1.blkn == 0 && st1.last == last_dc_val
      ensures var st := St(AcTop(scan.Ss), 0, 0, last_dc_val, old(Blocks(m)), []);
        && StOk(scan, st)
        && (var run := RunRd(scan, data, arrived, tabs, st, Abs(w0));
            if ok then
              && StOk(scan, st1) && run == RunRd(scan, data, arrived, tabs, st1, Abs(w)) && eobrun == st1.eobrun
              && (if eobrun > 0 then st1.pc == TailAt(k) else st1.pc.AcTop? && st1.pc.k > scan.Se)
            else run == Susp(st1, Abs(w)))
    {
      hide RunRd, TabsOk, Bytes, Abs, Pow2, Blocks, McuData, StOk, Asks, Feed, NaturalOf, Recorded, JpegNaturalOrder,
           Scan.Ok, AnswerOk, Short;
      OneBlock(scan);
      NoneRecorded(newnz_pos[..]);
      FirstBandStart(scan, last_dc_val, Blocks(m));
      ghost var st := St(AcTop(scan.Ss), 0, 0, last_dc_val, Blocks(m), []);
      ghost var run := RunRd(scan, data, arrived, tabs, st, Abs(w0));
      var Se, tbl := scan.Se, scan.acTbl[scan.members[0]];
      w, eobrun, num_newnz, st1 := w0, 0, 0, st;
      k := scan.Ss;
      while k <= Se
        invariant w.bitsLeft <= 32 && scan.Ss <= k && eobrun == 0 && num_newnz < k <= 65
        invariant st1 == St(AcTop(k), 0, 0, last_dc_val, Blocks(m), st1.newnz) && StOk(scan, st1)
        invariant Recorded(newnz_pos[..], num_newnz, st1.newnz)
        invariant run == RunRd(scan, data, arrived, tabs, st1, Abs(w))
        decreases 80 - k
      {
        var s, r: nat;
        var coef: int := 0;
        AtAcTop(scan, st1, k);
        ok, s, w := NextSym(scan, data, arrived, tabs, st1, w, tbl);
        if !ok {
          return;
        }
        RefineSym(scan, st1, k, s);
        st1 := Feed(scan, st1, s);
        r, s := s / 16, s % 16;
        if s != 0 {
          var bit;
          ok, bit, w := NextBits(scan, data, arrived, tabs, st1, w, 1);
          if !ok {
            return;
          }
          RefineSign(scan, st1, bit);
          st1 := Feed(scan, st1, bit);
          coef := if bit != 0 then Pow2(scan.Al) else 0 - Pow2(scan.Al);
        } else {
          if r != 15 {
            eobrun := Pow2(r);
            if r != 0 {
              var more;
              ok, more, w := NextBits(scan, data, arrived, tabs, st1, w, r);
              if !ok {
                return;
              }
              RefineEob(scan, st1, more);
              st1 := Feed(scan, st1, more);
              eobrun := eobrun + more;
            }
            break;
          }
        }
        ghost var st2 := st1;
        ok, w, k := AdvanceLoop(m, st1, w, k, r, coef);
        if !ok {
          st1 := run.st;
          return;
        }
        st1 := st2.(pc := Place(k, coef), blocks := Blocks(m));
        RefinePlace(scan, data, arrived, tabs, st1, Abs(w));
        st1 := Feed(scan, st1, 0);
        if coef != 0 {
          Store(m, 0, k, Short(coef));
          RecordOne(newnz_pos[..], num_newnz, st2.newnz, k);
          newnz_pos[num_newnz] := JpegNaturalOrder(k);
          num_newnz := num_newnz + 1;
        }
        k := k + 1;
      }
      ok := true;
    }

    /** The body of decode_mcu_AC_refine, from the end-of-band count to undoit. */
    method RefineBand(m: seq<array<int>>, w0: Work, eobrun0: nat) returns (ok: bool, w: Work, eobrun: nat)
      requires scan.Ok() && TabsOk(scan, tabs) && Bytes(data) && arrived <= |data| && w0.bitsLeft <= 32
      requires scan.mode == AcRefine && McuData(m) && |m| == 1 && |last_dc_val| == scan.ncomps
      requires StOk(scan, Init(scan, eobrun0, last_dc_val, Blocks(m)))
      modifies m
      ensures w.bitsLeft <= 32
      ensures var run := RunRd(scan, data, arrived, tabs, Init(scan, eobrun0, last_dc_val, old(Blocks(m))), Abs(w0));
        && Abs(w) == run.rd
        && if ok then run.Done? && Blocks(m) == run.st.blocks && run.st.eobrun == eobrun && run.st.last == last_dc_val
           else run.Susp? && Blocks(m) == LeftBehind(scan, run.st)
    {
      hide RunRd, TabsOk, Bytes, Abs, Pow2, Blocks, McuData, StOk, Asks, Feed, NaturalOf, Undo, Recorded;
      ghost var run := RunRd(scan, data, arrived, tabs, Init(scan, eobrun0, last_dc_val, Blocks(m)), Abs(w0));
      ghost var st := Init(scan, eobrun0, last_dc_val, Blocks(m));
      var newnz_pos := new nat[64];
      var num_newnz, k := 0, scan.Ss;
      NoneRecorded(newnz_pos[..]);
      w, eobrun := w0, eobrun0;
      if eobrun == 0 {
        ok, w, k, eobrun, num_newnz, st := NewLoop(m, newnz_pos, w);
        if !ok {
          UndoNew(m, newnz_pos, num_newnz, st.newnz);
          return;
        }
      }
      if eobrun > 0 {
        ghost var st0 := st;
        ok, w := TailLoop(m, st, w, k);
        if !ok {
          UndoNew(m, newnz_pos, num_newnz, st.newnz);
          return;
        }
        eobrun := eobrun - 1;
      } else {
        BandOver(scan, data, arrived, tabs, st, Abs(w));
      }
      ok := true;
    }

    /** decode_mcu_AC_refine */
    method DecodeMcuAcRefine(m: seq<array<int>>) returns (ok: bool)
      requires Valid() && scan.mode == AcRefine && McuData(m) && |m| == |scan.members|
      modifies this, m
      ensures Valid() && arrived == old(arrived)
      ensures var o := McuDecoding.DecodeMcu(scan, data, arrived, tabs, old(State()), old(Blocks(m)));
        ok == o.Complete? && State() == o.dec && Blocks(m) == o.blocks
    {
      hide RunRd, TabsOk, Bytes, BeginDecode, Blocks, McuData, BitsOf, Scan.Ok, LeftBehind, Init;
      ok := BeginMcu();
      if !ok {
        return;
      }
      ghost var d, bs := State(), Blocks(m);
      DecStart(scan, d, bs);
      if !insufficient_data {
        var w := LoadState();
        var eobrun;
        OneBlock(scan);
        ok, w, eobrun := RefineBand(m, w, EOBRUN);
        SuspFlags(scan, data, arrived, tabs, Init(scan, d.eobrun, d.last, bs), d.rd);
        if !ok {
          KeepFlags(w);
          return;
        }
        SaveState(w);
        EOBRUN := eobrun;
      }
      EndMcu();
      ok := true;
    }

    /** The decode_mcu routine that start_pass selects. */
    method DecodeMcu(m: seq<array<int>>) returns (ok: bool)
      requires Valid() && McuData(m) && |m| == |scan.members|
      modifies this, m
      ensures Valid() && arrived == old(arrived)
      ensures var o := McuDecoding.DecodeMcu(scan, data, arrived, tabs, old(State()), old(Blocks(m)));
        ok == o.Complete? && State() == o.dec && Blocks(m) == o.blocks
    {
      hide McuDecoding.DecodeMcu, TabsOk, Bytes, DecOk, Blocks, McuData, Scan.Ok;
      match scan.mode {
        case Sequential => ok := DecodeMcuSequential(m);
        case DcFirst => ok := DecodeMcuDcFirst(m);
        case AcFirst => ok := DecodeMcuAcFirst(m);
        case DcRefine => ok := DecodeMcuDcRefine(m);
        case AcRefine => ok := DecodeMcuAcRefine(m);
      }
    }
  }

  // ---- The steps of the machine, as the routines use them ----

  /** The state from which a decoding routine starts. */
  lemma DecStart(scan: Scan, d: Dec, bs: seq<Block>)
    requires DecOk(scan, d) && |bs| == |scan.members|
    ensures StOk(scan, Init(scan, d.eobrun, d.last, bs)) && |d.last| == scan.ncomps && scan.Ok()
    ensures scan.mode == AcFirst && d.eobrun > 0 ==>
      Init(scan, d.eobrun, d.last, bs) == St(Fin, 0, d.eobrun - 1, d.last, bs, [])
      && Asks(scan, Init(scan, d.eobrun, d.last, bs)).Halt?
    ensures scan.mode in {AcFirst, AcRefine} && d.eobrun == 0 ==>
      Init(scan, d.eobrun, d.last, bs) == St(AcTop(scan.Ss), 0, 0, d.last, bs, [])
    ensures scan.mode !in {AcFirst, AcRefine} ==>
      Init(scan, d.eobrun, d.last, bs) == St(if scan.mode == DcRefine then BitTop else DcTop, 0, 0, d.last, bs, [])
  {
    InitOk(scan, d.eobrun, d.last, bs);
  }

  lemma SetDcOk(scan: Scan, st: St, diff: int)
    requires StOk(scan, st) && st.pc == DcTop && st.blkn < |st.blocks|
    ensures StOk(scan, SetDc(scan, st, diff))
  {
    hide Short, Scale;
  }

  lemma DcAsks(scan: Scan, st: St)
    requires StOk(scan, st) && st.pc == DcTop && st.blkn < |st.blocks|
    ensures Asks(scan, st) == NeedSym(scan.dcTbl[scan.members[st.blkn]], true)
  {}

  lemma DcSym(scan: Scan, st: St, s: nat)
    requires StOk(scan, st) && st.pc == DcTop && st.blkn < |st.blocks| && AnswerOk(Asks(scan, st), s)
    ensures var st1 := st.(pc := DcMag(s));
      if s == 0 then Feed(scan, st, s) == SetDc(scan, st, 0)
      else Feed(scan, st, s) == st1 && StOk(scan, st1) && Asks(scan, st1) == NeedBits(s) && s <= 15
  {
    hide Short, Scale;
  }

  lemma DcBits(scan: Scan, st: St, s: nat, r: nat)
    requires StOk(scan, st) && st.pc == DcTop && st.blkn < |st.blocks| && 1 <= s <= 15
    requires StOk(scan, st.(pc := DcMag(s))) && AnswerOk(Asks(scan, st.(pc := DcMag(s))), r)
    ensures Feed(scan, st.(pc := DcMag(s)), r) == SetDc(scan, st, Extend(r, s))
  {
    hide Short, Scale, Extend, Pow2;
  }

  /** Storing a DC value and updating the prediction. */
  lemma DcStored(scan: Scan, st: St, diff: int)
    requires StOk(scan, st) && st.pc == DcTop && st.blkn < |st.blocks|
    ensures var ci := scan.members[st.blkn]; var s := st.last[ci] + diff;
      SetDc(scan, st, diff) == st.(last := st.last[ci := s],
        blocks := st.blocks[st.blkn := st.blocks[st.blkn][0 := Short(Scale(s, scan.Al))]],
        pc := if scan.mode == Sequential then AcTop(1) else DcTop,
        blkn := if scan.mode == Sequential then st.blkn else st.blkn + 1)
  {
    hide Short, Scale;
  }

  /** All blocks of the MCU are done. */
  lemma {:induction false} McuOver(scan: Scan, data: seq<nat>, lim: nat, tabs: seq<Tab>, st: St, rd: Rd)
    requires StOk(scan, st) && TabsOk(scan, tabs) && lim <= |data| && Bytes(data)
    requires (st.pc == DcTop || st.pc == BitTop) && st.blkn == |st.blocks|
    ensures RunRd(scan, data, lim, tabs, st, rd) == Done(st.(pc := Fin), rd)
  {
    hide RunRd, TabsOk, Bytes;
    RunSilent(scan, data, lim, tabs, st, rd);
    RunHalts(scan, data, lim, tabs, st.(pc := Fin), rd);
  }

  lemma MembersOk(scan: Scan, st: St)
    requires StOk(scan, st) && st.blkn < |st.blocks|
    ensures st.blkn < |scan.members| && scan.members[st.blkn] < scan.ncomps == |scan.dcTbl| == |scan.acTbl| == |st.last|
  {}

  lemma DcStart(scan: Scan, last: seq<int>, bs: seq<Block>)
    requires scan.Ok() && |bs| == |scan.members| && |last| == scan.ncomps
    ensures scan.mode in {Sequential, DcFirst} ==> StOk(scan, St(DcTop, 0, 0, last, bs, []))
    ensures scan.mode == DcRefine ==> StOk(scan, St(BitTop, 0, 0, last, bs, []))
  {}

  lemma BitAsks(scan: Scan, st: St)
    requires StOk(scan, st) && st.pc == BitTop && st.blkn < |st.blocks|
    ensures Asks(scan, st) == NeedBits(1)
  {}

  lemma BitFed(scan: Scan, st: St, v: nat)
    requires StOk(scan, st) && st.pc == BitTop && st.blkn < |st.blocks| && AnswerOk(Asks(scan, st), v)
    ensures v <= 1
    ensures Feed(scan, st, v) == st.(blkn := st.blkn + 1,
      blocks := if v != 0 then st.blocks[st.blkn := st.blocks[st.blkn][0 := SetBit(st.blocks[st.blkn][0], scan.Al)]]
        else st.blocks)
  {
    hide SetBit;
    Pow2Values();
  }

  /** The predictions a completed MCU leaves are as many as before. */
  lemma {:induction false} SameLength(scan: Scan, data: seq<nat>, lim: nat, tabs: seq<Tab>, d: Dec, bs: seq<Block>)
    requires DecOk(scan, d) && |bs| == |scan.members| && TabsOk(scan, tabs) && lim <= |data| && Bytes(data)
    requires StOk(scan, Init(scan, d.eobrun, d.last, bs))
    ensures |RunRd(scan, data, lim, tabs, Init(scan, d.eobrun, d.last, bs), d.rd).st.last| == scan.ncomps
  {
    hide RunRd, TabsOk, Bytes;
    RunRdOk(scan, data, lim, tabs, Init(scan, d.eobrun, d.last, bs), d.rd);
  }

  lemma SequentialAl(scan: Scan)
    requires scan.Ok() && scan.mode == Sequential
    ensures scan.Al == 0
  {}

  lemma BlockStart(scan: Scan, blkn: nat, last: seq<int>, bs: seq<Block>)
    requires scan.Ok() && scan.mode == Sequential && |bs| == |scan.members| && blkn < |bs| && |last| == scan.ncomps
    ensures StOk(scan, St(AcTop(1), blkn, 0, last, bs, [])) && StOk(scan, St(DcTop, blkn + 1, 0, last, bs, []))
    ensures scan.Se == 63 && scan.Al == 0
  {}

  lemma SeqSym(scan: Scan, st: St, k: nat, v: nat)
    requires StOk(scan, st) && scan.mode == Sequential && st.pc == AcTop(k) && k <= scan.Se && v < 256
    requires AnswerOk(Asks(scan, st), v) && StOk(scan, Feed(scan, st, v))
    ensures var st1 := Feed(scan, st, v); var r, s := v / 16, v % 16;
      if s != 0 then st1 == st.(pc := AcMag(k + r, s)) && Asks(scan, st1) == NeedBits(s)
      else if r == 15 then st1 == st.(pc := AcTop(k + 16))
      else st1 == st.(pc := DcTop, blkn := st.blkn + 1)
  {}

  lemma SeqMag(scan: Scan, st: St, k: nat, s: nat, v: nat)
    requires StOk(scan, st) && scan.mode == Sequential && st.pc == AcMag(k, s) && AnswerOk(Asks(scan, st), v)
    ensures k <= 78 && st.blkn < |st.blocks|
    ensures Feed(scan, st, v) == st.(pc := AcTop(k + 1), blocks :=
      st.blocks[st.blkn := st.blocks[st.blkn][(if k < 64 then k else 63) := Short(Scale(Extend(v, s), 0))]])
  {
    hide Short, Scale, Extend, Pow2;
  }

  lemma BlockOver(scan: Scan, data: seq<nat>, lim: nat, tabs: seq<Tab>, st: St, rd: Rd)
    requires StOk(scan, st) && TabsOk(scan, tabs) && lim <= |data| && Bytes(data) && scan.mode == Sequential
    requires st.pc == DcTop || (st.pc.AcTop? && st.pc.k > 63)
    ensures var st1 := if st.pc == DcTop then st else st.(pc := DcTop, blkn := st.blkn + 1);
      StOk(scan, st1) && RunRd(scan, data, lim, tabs, st, rd) == RunRd(scan, data, lim, tabs, st1, rd)
  {
    hide RunRd, TabsOk, Bytes;
    if st.pc != DcTop { RunSilent(scan, data, lim, tabs, st, rd); }
  }

  lemma InnerIn(scan: Scan, st: St)
    requires StOk(scan, st) && st.pc.Inner?
    ensures 1 <= st.pc.k <= scan.Se < 64
  {}

  lemma InnerAsks(scan: Scan, st: St)
    requires StOk(scan, st) && st.pc.Inner? && st.blkn == 0
    ensures st.pc.k < 64 && |st.blocks| == 1
    ensures Asks(scan, st) == if st.blocks[0][st.pc.k] != 0 then NeedBits(1) else Silent
  {}

  lemma InnerFed(scan: Scan, st: St, v: nat)
    requires StOk(scan, st) && st.pc.Inner? && st.blkn == 0 && st.pc.k < 64 && |st.blocks| == 1
      && AnswerOk(Asks(scan, st), v)
    ensures var Inner(k, r, s) := st.pc; var b := st.blocks[0];
      var st1 := Feed(scan, st, v);
      && v <= 1 && StOk(scan, st1)
      && if b[k] == 0 && r == 0 then st1 == st.(pc := Place(k, s))
         else st1 == st.(pc := if k < scan.Se then Inner(k + 1, if b[k] != 0 then r else r - 1, s) else Place(k + 1, s),
                         blocks := if v == 1 && b[k] != 0 then [b[k := Correct(b[k], scan.Al)]] else st.blocks)
  {
    hide Correct;
    Pow2Values();
    FeedOk(scan, st, v);
    hide Rank;
  }

  lemma TailIn(scan: Scan, st: St)
    requires StOk(scan, st) && st.pc.TailAt?
    ensures 1 <= st.pc.k <= scan.Se + 1 <= 64 && st.eobrun > 0
  {}

  lemma TailAsks(scan: Scan, st: St)
    requires StOk(scan, st) && st.pc.TailAt? && st.pc.k <= scan.Se && st.blkn == 0
    ensures st.pc.k < 64 && |st.blocks| == 1
    ensures Asks(scan, st) == if st.blocks[0][st.pc.k] != 0 then NeedBits(1) else Silent
  {}

  lemma TailFed(scan: Scan, st: St, v: nat)
    requires StOk(scan, st) && st.pc.TailAt? && st.pc.k <= scan.Se && st.blkn == 0 && st.pc.k < 64 && |st.blocks| == 1
    requires AnswerOk(Asks(scan, st), v)
    ensures var k, b := st.pc.k, st.blocks[0];
      && v <= 1 && StOk(scan, Feed(scan, st, v))
      && Feed(scan, st, v) == st.(pc := TailAt(k + 1),
           blocks := if v == 1 && b[k] != 0 then [b[k := Correct(b[k], scan.Al)]] else st.blocks)
  {
    hide Correct;
    Pow2Values();
    FeedOk(scan, st, v);
    hide Rank;
  }

  lemma {:induction false} TailDone(scan: Scan, data: seq<nat>, lim: nat, tabs: seq<Tab>, st: St, rd: Rd)
    requires StOk(scan, st) && TabsOk(scan, tabs) && lim <= |data| && Bytes(data) && st.pc.TailAt? && st.pc.k > scan.Se
    ensures st.eobrun > 0 && RunRd(scan, data, lim, tabs, st, rd) == Done(st.(pc := Fin, eobrun := st.eobrun - 1), rd)
  {
    hide RunRd, TabsOk, Bytes;
    RunSilent(scan, data, lim, tabs, st, rd);
    RunHalts(scan, data, lim, tabs, Feed(scan, st, 0), rd);
  }

  lemma RefineSym(scan: Scan, st: St, k: nat, v: nat)
    requires StOk(scan, st) && scan.mode == AcRefine && st.pc == AcTop(k) && k <= scan.Se && v < 256
    requires AnswerOk(Asks(scan, st), v) && StOk(scan, Feed(scan, st, v))
    ensures var st1 := Feed(scan, st, v); var r, s := v / 16, v % 16;
      if s != 0 then st1 == st.(pc := Sign(k, r)) && Asks(scan, st1) == NeedBits(1)
      else if r == 15 then st1 == st.(pc := Inner(k, 15, 0))
      else if r == 0 then st1 == st.(pc := TailAt(k), eobrun := 1) && Pow2(0) == 1
      else st1 == st.(pc := EobBits(k, r)) && Asks(scan, st1) == NeedBits(r)
  {}

  lemma RefineSign(scan: Scan, st: St, v: nat)
    requires StOk(scan, st) && st.pc.Sign? && AnswerOk(Asks(scan, st), v)
    ensures v <= 1
    ensures Feed(scan, st, v) == st.(pc := Inner(st.pc.k, st.pc.r, if v != 0 then Pow2(scan.Al) else 0 - Pow2(scan.Al)))
  {
    Pow2Values();
    hide Pow2;
  }

  lemma RefineEob(scan: Scan, st: St, v: nat)
    requires StOk(scan, st) && scan.mode == AcRefine && st.pc.EobBits? && AnswerOk(Asks(scan, st), v)
    ensures Feed(scan, st, v) == st.(pc := TailAt(st.pc.k), eobrun := Pow2(st.pc.r) + v)
  {
    hide Pow2;
  }

  /** Storing the new coefficient. */
  lemma {:induction false} RefinePlace(scan: Scan, data: seq<nat>, lim: nat, tabs: seq<Tab>, st: St, rd: Rd)
    requires StOk(scan, st) && TabsOk(scan, tabs) && lim <= |data| && Bytes(data) && st.pc.Place? && st.blkn == 0
    ensures AnswerOk(Asks(scan, st), 0) && StOk(scan, Feed(scan, st, 0)) && |st.blocks| == 1
      && st.pc.k <= scan.Se + 1 <= 64
    ensures RunRd(scan, data, lim, tabs, st, rd) == RunRd(scan, data, lim, tabs, Feed(scan, st, 0), rd)
    ensures var Place(k, s) := st.pc; var j := if k < 64 then k else 63;
      Feed(scan, st, 0) == if s == 0 then st.(pc := AcTop(k + 1))
        else st.(pc := AcTop(k + 1), blocks := [st.blocks[0][j := Short(s)]], newnz := st.newnz + [j])
  {
    hide RunRd, TabsOk, Bytes, Short;
    RunSilent(scan, data, lim, tabs, st, rd);
  }

  lemma NoneRecorded(pos: seq<nat>)
    requires |pos| == 64
    ensures Recorded(pos, 0, [])
  {}

  lemma RecordOne(pos: seq<nat>, n: nat, newnz: seq<nat>, k: nat)
    requires Recorded(pos, n, newnz) && n < 64 && k < 80
    ensures |pos| == 64 && Recorded(pos[n := JpegNaturalOrder(k)], n + 1, newnz + [if k < 64 then k else 63])
  {
    LastInPlace();
    hide NaturalOf;
  }

  lemma OneBlock(scan: Scan)
    requires scan.Ok() && scan.mode in {AcFirst, AcRefine}
    ensures |scan.members| == 1
  {}

  lemma FirstBandStart(scan: Scan, last: seq<int>, bs: seq<Block>)
    requires scan.Ok() && scan.mode in {AcFirst, AcRefine} && |bs| == |scan.members| && |last| == scan.ncomps
    ensures |scan.members| == 1 && scan.members[0] < |scan.acTbl| && 1 <= scan.Ss <= scan.Se <= 63 && scan.Al <= 13
    ensures StOk(scan, St(AcTop(scan.Ss), 0, 0, last, bs, []))
  {}

  lemma AtAcTop(scan: Scan, st: St, k: nat)
    requires StOk(scan, st) && st.pc == AcTop(k) && k <= scan.Se
    ensures Asks(scan, st) == NeedSym(scan.acTbl[scan.members[st.blkn]], false)
  {}

  lemma FirstSym(scan: Scan, st: St, k: nat, v: nat)
    requires StOk(scan, st) && scan.mode == AcFirst && st.pc == AcTop(k) && k <= scan.Se && v < 256
    requires AnswerOk(Asks(scan, st), v) && StOk(scan, Feed(scan, st, v))
    ensures var st1 := Feed(scan, st, v); var r, s := v / 16, v % 16;
      if s != 0 then st1 == st.(pc := AcMag(k + r, s)) && Asks(scan, st1) == NeedBits(s)
      else if r == 15 then st1 == st.(pc := AcTop(k + 16))
      else if r == 0 then st1 == st.(pc := Fin, eobrun := 0) && Pow2(0) == 1
      else st1 == st.(pc := EobBits(k, r)) && Asks(scan, st1) == NeedBits(r)
  {}

  lemma FirstMag(scan: Scan, st: St, k: nat, s: nat, v: nat)
    requires StOk(scan, st) && scan.mode == AcFirst && st.pc == AcMag(k, s) && AnswerOk(Asks(scan, st), v)
    ensures k <= 78 && st.blkn < |st.blocks| && st.blkn == 0
    ensures Feed(scan, st, v) == st.(pc := AcTop(k + 1), blocks :=
      st.blocks[0 := st.blocks[0][(if k < 64 then k else 63) := Short(Scale(Extend(v, s), scan.Al))]])
  {
    hide Short, Scale, Extend, Pow2;
  }

  lemma {:induction false} FirstEob(scan: Scan, st: St, k: nat, r: nat, v: nat)
    requires StOk(scan, st) && scan.mode == AcFirst && st.pc == EobBits(k, r) && AnswerOk(Asks(scan, st), v)
    ensures Feed(scan, st, v) == st.(pc := Fin, eobrun := Pow2(r) + v - 1)
  {
    hide Pow2;
  }

  /** The coefficient loop ends, at the end of the band or after an end-of-band symbol. */
  lemma {:induction false} BandOver(scan: Scan, data: seq<nat>, lim: nat, tabs: seq<Tab>, st: St, rd: Rd)
    requires StOk(scan, st) && TabsOk(scan, tabs) && lim <= |data| && Bytes(data) && scan.mode in {AcFirst, AcRefine}
    requires st.pc == Fin || (st.pc.AcTop? && st.pc.k > scan.Se)
    ensures RunRd(scan, data, lim, tabs, st, rd) == Done(st.(pc := Fin), rd)
  {
    hide RunRd, TabsOk, Bytes;
    if st.pc != Fin {
      RunSilent(scan, data, lim, tabs, st, rd);
    }
    RunHalts(scan, data, lim, tabs, st.(pc := Fin), rd);
  }

  lemma ActionRange(marker: nat, desired: nat)
    ensures ResyncAction(marker, desired) in {1, 2, 3}
  {}
}
