/** The marker writer of jcmarker.c for Huffman-coded files: frame and scan headers, with tables that the
    reader already has suppressed. Whatever is marked as sent, a reader of the output holds. */
module MarkerWriter {
  import opened HuffmanTables
  import opened NaturalOrder
  import opened MarkerSegments
  import ScanScripts

  /** JQUANT_TBL and JHUFF_TBL with their sent_table flags. */
  datatype QuantSlot = QuantSlot(quantval: seq<nat>, sent: bool)

  datatype HuffSlot = HuffSlot(h: HuffTbl, sent: bool)

  /** The fields of jpeg_component_info that headers mention. */
  datatype Component = Component(id: nat, h: nat, v: nat, tq: nat, td: nat, ta: nat)

  ghost predicate HuffOk(h: HuffTbl) {
    h.WellTyped() && Count(h.bits, 16) <= 256
  }

  /** What a DHT segment says of a table. */
  function ListedOf(h: HuffTbl): Listed
    requires |h.bits| == 17 && Count(h.bits, 16) <= |h.huffval|
  {
    Listed(h.bits[1..17], h.huffval[..Count(h.bits, 16)])
  }

  lemma {:induction false} SumCount(bits: seq<nat>, n: nat)
    requires |bits| == 17 && n <= 16
    ensures Sum(bits[1..17], n) == Count(bits, n)
  {
    if n > 0 { SumCount(bits, n - 1); }
  }

  lemma ListedFits(h: HuffTbl)
    requires HuffOk(h)
    ensures ListedOk(ListedOf(h))
  {
    SumCount(h.bits, 16);
  }

  function Large(q: seq<nat>, n: nat): bool
    requires n <= |q|
  {
    exists i :: 0 <= i < n && q[i] > 255
  }

  ghost predicate QuantSync(slots: seq<Option<QuantSlot>>, held: seq<Option<seq<nat>>>) {
    |slots| == |held| == NUM_TBLS && forall i :: 0 <= i < NUM_TBLS && slots[i].Some? ==>
      QuantOk(slots[i].value.quantval) && (slots[i].value.sent ==> held[i] == Some(slots[i].value.quantval))
  }

  ghost predicate HuffSync(slots: seq<Option<HuffSlot>>, held: seq<Option<Listed>>) {
    |slots| == |held| == NUM_TBLS && forall i :: 0 <= i < NUM_TBLS && slots[i].Some? ==>
      HuffOk(slots[i].value.h) && (slots[i].value.sent ==> held[i] == Some(ListedOf(slots[i].value.h)))
  }

  /** The reader's slot holds the table of the writer's slot. */
  ghost predicate Holds(slot: Option<HuffSlot>, held: Option<Listed>) {
    slot.Some? && HuffOk(slot.value.h) && held == Some(ListedOf(slot.value.h))
  }

  function SelectorsOf(infos: seq<Component>, cur: seq<nat>, dc: bool, ac: bool): (r: seq<ScanComp>)
    requires forall i :: 0 <= i < |cur| ==> cur[i] < |infos|
    ensures |r| == |cur|
  {
    seq(|cur|, i requires 0 <= i < |cur| =>
      ScanComp(cur[i], if dc then infos[cur[i]].td else 0, if ac then infos[cur[i]].ta else 0))
  }

  function IdsOf(infos: seq<Component>, cur: seq<nat>): (r: seq<nat>)
    requires forall i :: 0 <= i < |cur| ==> cur[i] < |infos|
    ensures |r| == |cur|
  {
    seq(|cur|, i requires 0 <= i < |cur| => infos[cur[i]].id)
  }

  function HuffFlag(slot: Option<HuffSlot>): nat {
    if slot.Some? && slot.value.sent then 1 else 0
  }

  function QuantFlag(slot: Option<QuantSlot>): nat {
    if slot.Some? && slot.value.sent then 1 else 0
  }

  /** The number of tables marked as sent. */
  function HuffsSent(slots: seq<Option<HuffSlot>>): nat
    requires |slots| == NUM_TBLS
  {
    HuffFlag(slots[0]) + HuffFlag(slots[1]) + HuffFlag(slots[2]) + HuffFlag(slots[3])
  }

  function QuantsSent(slots: seq<Option<QuantSlot>>): nat
    requires |slots| == NUM_TBLS
  {
    QuantFlag(slots[0]) + QuantFlag(slots[1]) + QuantFlag(slots[2]) + QuantFlag(slots[3])
  }

  /** More segments, none of them a scan header. */
  ghost predicate Extends(earlier: seq<Segment>, segs: seq<Segment>) {
    earlier <= segs && forall i :: |earlier| <= i < |segs| ==> !segs[i].Sos?
  }

  /** More segments, the last of them, and no other, a scan header. */
  ghost predicate EndsInScan(earlier: seq<Segment>, segs: seq<Segment>) {
    earlier < segs && forall i :: |earlier| <= i < |segs| ==> (segs[i].Sos? <==> i == |segs| - 1)
  }

  class Writer {
    // compression parameters
    const comp_info: seq<Component>
    const data_precision: nat
    const image_height: nat
    const image_width: nat
    const progressive_mode: bool
    var quant: seq<Option<QuantSlot>>
    var dc: seq<Option<HuffSlot>>
    var ac: seq<Option<HuffSlot>>
    var restart_interval: nat
    var cur_comp_info: seq<nat>
    var Ss: nat
    var Se: nat
    var Ah: nat
    var Al: nat
    // my_marker_writer and the destination
    var last_restart_interval: nat
    var out: seq<nat>
    ghost var start: seq<nat>       // what was written before this group of headers
    ghost var before: Fields        // what a reader held then
    ghost var segs: seq<Segment>    // the segments written since

    /** What a reader of the output holds. */
    ghost function Reader(): (r: Fields)
      requires before.Ok() && AllShaped(segs)
      reads this
    {
      ApplyAll(segs, before)
    }

    /** The tables that are marked as sent are those that the reader holds. */
    ghost predicate InSync(r: Fields)
      reads this
    {
      && r.Ok() && r.restart_interval == last_restart_interval
      && QuantSync(quant, r.quant) && HuffSync(dc, r.dc) && HuffSync(ac, r.ac)
    }

    ghost predicate Valid()
      reads this
    {
      before.Ok() && AllOk(segs, before) && out == start + AllBytes(segs) && InSync(Reader())
    }

    /** jinit_marker_writer and the end of write_file_header, for a reader that holds `before`. Tables marked as
        sent (an abbreviated stream) must be those that the reader holds. */
    constructor (comp_info: seq<Component>, precision: nat, height: nat, width: nat, progressive: bool,
                 quant: seq<Option<QuantSlot>>, dc: seq<Option<HuffSlot>>, ac: seq<Option<HuffSlot>>,
                 start: seq<nat>, ghost before: Fields)
      requires before.Ok() && before.restart_interval == 0
      requires QuantSync(quant, before.quant) && HuffSync(dc, before.dc) && HuffSync(ac, before.ac)
      ensures Valid() && segs == [] && out == start && this.start == start && this.before == before
      ensures this.comp_info == comp_info && data_precision == precision && progressive_mode == progressive
      ensures image_height == height && image_width == width
      ensures this.quant == quant && this.dc == dc && this.ac == ac
    {
      this.comp_info, data_precision, image_height, image_width := comp_info, precision, height, width;
      progressive_mode := progressive;
      this.quant, this.dc, this.ac := quant, dc, ac;
      restart_interval, cur_comp_info, Ss, Se, Ah, Al := 0, [], 0, 0, 0, 0;
      last_restart_interval, out := 0, start;
      this.start, this.before, segs := start, before, [];
    }

    /** The entropy encoder writes the data of a scan; a reader is then behind it, with what it held. */
    method ScanData(bytes: seq<nat>)
      requires Valid()
      modifies this`out, this`start, this`before, this`segs
      ensures Valid() && out == old(out) + bytes == start && segs == [] && Reader() == old(Reader()) == before
    {
      hide SegmentOk, Apply, Bytes, HuffOk;
      before := Reader();
      out := out + bytes;
      start, segs := out, [];
    }

    /** Between scans, jpeg_gen_optimal_table replaces a table and clears its sent_table flag. */
    method ReplaceHuff(index: nat, is_ac: bool, h: HuffTbl)
      requires Valid() && index < NUM_TBLS && HuffOk(h)
      modifies this`dc, this`ac
      ensures Valid() && segs == old(segs)
      ensures dc == if is_ac then old(dc) else old(dc)[index := Some(HuffSlot(h, false))]
      ensures ac == if is_ac then old(ac)[index := Some(HuffSlot(h, false))] else old(ac)
    {
      hide HuffOk, AllOk, ApplyAll, AllBytes;
      if is_ac {
        ac := ac[index := Some(HuffSlot(h, false))];
      } else {
        dc := dc[index := Some(HuffSlot(h, false))];
      }
    }

    method EmitByte(val: nat)
      modifies this`out
      ensures out == old(out) + [val % 256]
    {
      out := out + [val % 256];
    }

    method Emit2Bytes(value: nat)
      modifies this`out
      ensures out == old(out) + TwoBytes(value)
    {
      EmitByte(value / 256);
      EmitByte(value);
    }

    method EmitMarker(mark: nat)
      requires mark < 256
      modifies this`out
      ensures out == old(out) + [0xFF, mark]
    {
      EmitByte(0xFF);
      EmitByte(mark);
    }

    /** "The table entries must be emitted in zigzag order." */
    method EmitQuantValues(prec: nat, q: seq<nat>)
      requires QuantOk(q)
      modifies this`out
      ensures out == old(out) + QuantBytes(prec, q, 64)
    {
      hide QuantBytes, NaturalOf;
      QuantStep(prec, q, 0);
      for i := 0 to 64
        invariant out == old(out) + QuantBytes(prec, q, i)
      {
        QuantStep(prec, q, i);
        var qval := q[NaturalOf(i)];
        ghost var soFar := out;
        if prec > 0 {
          EmitByte(qval / 256);
        }
        EmitByte(qval % 256);
        assert out == soFar + if prec > 0 then TwoBytes(qval) else [qval % 256];
      }
    }

    /** The body of emit_dqt when the table has to be sent. */
    method SendQuant(index: nat, prec: nat, q: seq<nat>)
      requires index < NUM_TBLS && prec <= 1 && QuantOk(q)
      modifies this`out
      ensures out == old(out) + Bytes(Dqt(index, prec, q))
    {
      hide QuantBytes, TwoBytes, Bytes;
      DqtBytes(index, prec, q);
      EmitMarker(M_DQT);
      Emit2Bytes(if prec > 0 then 128 + 1 + 2 else 64 + 1 + 2);
      EmitByte(index + prec * 16);
      EmitQuantValues(prec, q);
    }

    /** The body of emit_dht when the table has to be sent. */
    method SendHuff(index: nat, is_ac: bool, h: HuffTbl)
      requires index < NUM_TBLS && HuffOk(h)
      modifies this`out
      ensures out == old(out) + Bytes(Dht(is_ac, index, ListedOf(h)))
    {
      hide Count, Sum, TwoBytes, Bytes;
      ghost var t := ListedOf(h);
      ListedFits(h);
      DhtBytes(is_ac, index, t);
      var length := CountSymbols(h.bits);
      EmitMarker(M_DHT);
      Emit2Bytes(length + 2 + 1 + 16);
      EmitByte(index + if is_ac then 16 else 0);
      EmitRun(h.bits, 1, 17);
      EmitRun(h.huffval, 0, length);
    }

    /** Entries from up to to - 1 of a table of bytes. */
    method EmitRun(table: seq<nat>, from: nat, to: nat)
      requires from <= to <= |table| && forall i :: from <= i < to ==> table[i] < 256
      modifies this`out
      ensures out == old(out) + table[from..to]
    {
      for i := from to to
        invariant out == old(out) + table[from..i]
      {
        EmitByte(table[i]);
      }
    }

    /** The reader takes one more segment. */
    ghost method Record(seg: Segment)
      requires before.Ok() && AllOk(segs, before) && SegmentOk(seg, Reader()) && Shaped(seg)
      requires out == start + AllBytes(segs) + Bytes(seg)
      modifies this`segs
      ensures segs == old(segs) + [seg] && AllOk(segs, before) && out == start + AllBytes(segs)
      ensures Reader() == Apply(seg, old(Reader()))
    {
      hide SegmentOk, Apply, Bytes;
      OneMore(segs, seg, before);
      assert start + (AllBytes(segs) + Bytes(seg)) == start + AllBytes(segs) + Bytes(seg);
      segs := segs + [seg];
    }

    /** emit_dqt: fails only without a table; afterwards the reader holds it. */
    method EmitDqt(index: nat) returns (ok: bool, prec: nat)
      requires Valid() && index < NUM_TBLS
      modifies this`out, this`quant, this`segs
      ensures ok <==> old(quant[index]).Some?
      ensures ok ==> Valid() && quant == old(quant)[index := Some(old(quant[index].value).(sent := true))]
      ensures ok ==> (prec > 0 <==> Large(old(quant[index].value.quantval), 64)) && prec <= 1
      ensures ok ==> segs == old(segs) + if old(quant[index].value).sent then []
        else [Dqt(index, prec, old(quant[index].value).quantval)]
      ensures ok ==> Extends(old(segs), segs) && Reader() == old(Reader()).(quant := Reader().quant)
    {
      hide AllOk, AllBytes, ApplyAll, Bytes;
      prec := 0;
      if quant[index].None? {
        return false, 0;
      }
      var q := quant[index].value.quantval;
      for i := 0 to 64
        invariant prec == if Large(q, i) then 1 else 0
      {
        if q[i] > 255 {
          prec := 1;
        }
      }
      ok := true;
      if !quant[index].value.sent {
        SendQuant(index, prec, q);
        Record(Dqt(index, prec, q));
        quant := quant[index := Some(quant[index].value.(sent := true))];
      }
    }

    /** emit_dht: fails only without a table; afterwards the reader holds it. */
    method EmitDht(index: nat, is_ac: bool) returns (ok: bool)
      requires Valid() && index < NUM_TBLS
      modifies this`out, this`dc, this`ac, this`segs
      ensures ok <==> (if is_ac then old(ac[index]) else old(dc[index])).Some?
      ensures ok && is_ac ==> ac == old(ac)[index := Some(old(ac[index].value).(sent := true))] && dc == old(dc)
      ensures ok && !is_ac ==> dc == old(dc)[index := Some(old(dc[index].value).(sent := true))] && ac == old(ac)
      ensures ok ==> Valid() && Extends(old(segs), segs)
      ensures ok ==> var slot := if is_ac then old(ac[index]).value else old(dc[index]).value;
        && |slot.h.bits| == 17 && Count(slot.h.bits, 16) <= |slot.h.huffval|
        && segs == old(segs) + if slot.sent then [] else [Dht(is_ac, index, ListedOf(slot.h))]
      ensures ok ==> Reader() == old(Reader()).(dc := Reader().dc, ac := Reader().ac)
    {
      hide AllOk, AllBytes, ApplyAll, Bytes, Count, ListedOk;
      var slot := if is_ac then ac[index] else dc[index];
      if slot.None? {
        return false;
      }
      if !slot.value.sent {
        ListedFits(slot.value.h);
        SendHuff(index, is_ac, slot.value.h);
        Record(Dht(is_ac, index, ListedOf(slot.value.h)));
      }
      if is_ac {
        ac := ac[index := Some(slot.value.(sent := true))];
      } else {
        dc := dc[index := Some(slot.value.(sent := true))];
      }
      ok := true;
    }

    /** emit_dri */
    method EmitDri()
      requires Valid() && restart_interval < 65536
      modifies this`out, this`segs, this`last_restart_interval
      ensures Valid() && last_restart_interval == restart_interval && Extends(old(segs), segs)
      ensures segs == old(segs) + [Dri(restart_interval)]
      ensures Reader() == old(Reader()).(restart_interval := restart_interval)
    {
      hide AllOk, AllBytes, ApplyAll, TwoBytes;
      ghost var was := out;
      EmitMarker(M_DRI);
      Emit2Bytes(4);
      Emit2Bytes(restart_interval);
      DriBytes(restart_interval);
      assert out == was + Bytes(Dri(restart_interval)) by {
        assert out == was + ([0xFF, M_DRI] + TwoBytes(4) + TwoBytes(restart_interval));
      }
      Record(Dri(restart_interval));
      last_restart_interval := restart_interval;
    }

    /** The limits of the frame parameters; component identifiers are distinct. */
    ghost predicate ParamsOk() {
      && data_precision < 256 && 0 < image_height && 0 < image_width && 0 < |comp_info| <= 10
      && (forall i :: 0 <= i < |comp_info| ==>
            && comp_info[i].id < 256 && comp_info[i].h < 16 && comp_info[i].v < 16
            && comp_info[i].tq < NUM_TBLS && comp_info[i].td < NUM_TBLS && comp_info[i].ta < NUM_TBLS)
      && (forall i, j :: 0 <= i < j < |comp_info| ==> comp_info[i].id != comp_info[j].id)
    }

    function FrameComps(): seq<FrameComp> {
      seq(|comp_info|, i requires 0 <= i < |comp_info| =>
        FrameComp(comp_info[i].id, comp_info[i].h, comp_info[i].v, comp_info[i].tq))
    }

    function FrameOf(code: nat): Frame {
      Frame(code, data_precision, image_height, image_width, FrameComps())
    }

    method EmitComps()
      requires ParamsOk()
      modifies this`out
      ensures out == old(out) + CompBytes(FrameComps(), |comp_info|)
    {
      hide CompBytes;
      CompStep(FrameComps(), 0);
      for ci := 0 to |comp_info|
        invariant out == old(out) + CompBytes(FrameComps(), ci)
      {
        CompStep(FrameComps(), ci);
        ghost var soFar := out;
        EmitByte(comp_info[ci].id);
        EmitByte(comp_info[ci].h * 16 + comp_info[ci].v);
        EmitByte(comp_info[ci].tq);
        assert out == soFar + [comp_info[ci].id, 16 * comp_info[ci].h + comp_info[ci].v, comp_info[ci].tq];
      }
    }

    lemma FrameFits(code: nat)
      requires ParamsOk() && M_SOF0 <= code <= M_SOF2 && image_height <= 65535 && image_width <= 65535
      ensures FrameOk(FrameOf(code)) && |FrameComps()| == |comp_info| <= 10
    {}

    /** emit_sof: fails for dimensions that the fields cannot hold. */
    method EmitSof(code: nat) returns (ok: bool)
      requires Valid() && ParamsOk() && M_SOF0 <= code <= M_SOF2 && Reader().frame.None?
      modifies this`out, this`segs
      ensures ok <==> image_height <= 65535 && image_width <= 65535
      ensures ok ==> Valid() && Extends(old(segs), segs) && Reader() == old(Reader()).(frame := Some(FrameOf(code)))
      ensures ok ==> segs == old(segs) + [Sof(FrameOf(code))]
    {
      hide AllOk, AllBytes, ApplyAll, TwoBytes, Bytes, CompBytes, FrameComps, FrameOk;
      ghost var was, f := out, FrameOf(code);
      EmitMarker(code);
      Emit2Bytes(3 * |comp_info| + 2 + 5 + 1);
      if image_height > 65535 || image_width > 65535 {
        return false;
      }
      FrameFits(code);
      EmitByte(data_precision);
      Emit2Bytes(image_height);
      Emit2Bytes(image_width);
      EmitByte(|comp_info|);
      EmitComps();
      SofBytes(f);
      assert out == was + Bytes(Sof(f));
      Record(Sof(f));
      ok := true;
    }

    // ---- The frame header ----

    /** Larger quantisation steps than 255, or table numbers above 1, or another precision, need SOF1. */
    ghost predicate Baseline()
      requires |quant| == NUM_TBLS && ParamsOk()
      reads this
    {
      data_precision == 8 && forall i :: 0 <= i < |comp_info| ==>
        && comp_info[i].td <= 1 && comp_info[i].ta <= 1
        && (quant[comp_info[i].tq].Some? ==>
           !Large(quant[comp_info[i].tq].value.quantval, |quant[comp_info[i].tq].value.quantval|))
    }

    /** Some component needs the table. */
    ghost predicate TqUser(t: nat) {
      exists i :: 0 <= i < |comp_info| && comp_info[i].tq == t
    }

    lemma UsesTq(ci: nat)
      requires ci < |comp_info|
      ensures TqUser(comp_info[ci].tq)
    {}

    /** emit_dqt for every component; prec says whether any table has 16-bit values. */
    method EmitQuants() returns (ok: bool, prec: nat)
      requires Valid() && ParamsOk()
      modifies this`out, this`quant, this`segs
      ensures ok <==> forall i :: 0 <= i < |comp_info| ==> old(quant[comp_info[i].tq]).Some?
      ensures ok ==> Valid() && Extends(old(segs), segs) && Reader() == old(Reader()).(quant := Reader().quant)
      ensures ok ==> forall i :: 0 <= i < |comp_info| ==>
        quant[comp_info[i].tq].Some? && quant[comp_info[i].tq].value.sent
      ensures ok ==> SameQuants(old(quant), quant)
      ensures ok ==> |segs| + QuantsSent(old(quant)) == |old(segs)| + QuantsSent(quant)
      ensures ok ==> forall t :: 0 <= t < NUM_TBLS && quant[t] != old(quant)[t] ==> TqUser(t)
      ensures ok ==>
        (prec > 0 <==> exists i :: 0 <= i < |comp_info| && Large(quant[comp_info[i].tq].value.quantval, 64))
    {
      hide SegmentOk, AllBytes, ApplyAll, Large, QuantsSent, TqUser, HuffSync;
      prec := 0;
      for ci := 0 to |comp_info|
        invariant Valid() && Extends(old(segs), segs) && Reader() == old(Reader()).(quant := Reader().quant)
        invariant SameQuants(old(quant), quant)
        invariant |segs| + QuantsSent(old(quant)) == |old(segs)| + QuantsSent(quant)
        invariant forall t :: 0 <= t < NUM_TBLS && quant[t] != old(quant)[t] ==> TqUser(t)
        invariant forall i :: 0 <= i < ci ==> quant[comp_info[i].tq].Some? && quant[comp_info[i].tq].value.sent
        invariant prec > 0 <==> exists i :: 0 <= i < ci && Large(quant[comp_info[i].tq].value.quantval, 64)
      {
        var p;
        ghost var slots := quant;
        ok, p := EmitDqt(comp_info[ci].tq);
        if !ok {
          return;
        }
        QuantMarked(slots, comp_info[ci].tq);
        UsesTq(ci);
        prec := prec + p;
      }
      ok := true;
    }

    /** write_frame_header: fails only for a missing quantisation table or an image too big; afterwards the
        reader holds the frame and the table of every component. */
    method WriteFrameHeader() returns (ok: bool)
      requires Valid() && ParamsOk() && Reader().frame.None?
      modifies this`out, this`quant, this`segs
      ensures ok <==>
        && (forall i :: 0 <= i < |comp_info| ==> old(quant[comp_info[i].tq]).Some?)
        && image_height <= 65535 && image_width <= 65535
      ensures ok ==> Valid() && Extends(old(segs), segs) && SameQuants(old(quant), quant)
      ensures ok ==> |segs| + QuantsSent(old(quant)) == |old(segs)| + QuantsSent(quant) + 1
      ensures ok ==> segs != [] && segs[|segs| - 1].Sof?
      ensures ok ==> forall t :: 0 <= t < NUM_TBLS && quant[t] != old(quant)[t] ==> TqUser(t)
      ensures ok ==>
        Reader().frame == Some(FrameOf(if progressive_mode then 0xC2 else if Baseline() then 0xC0 else 0xC1))
      ensures ok ==> forall i :: 0 <= i < |comp_info| ==>
        && quant[comp_info[i].tq].Some?
        && Reader().quant[comp_info[i].tq] == Some(quant[comp_info[i].tq].value.quantval)
      ensures ok ==> Reader() == old(Reader()).(quant := Reader().quant, frame := Reader().frame)
    {
      hide AllBytes, ApplyAll, Large, FrameComps, SegmentOk, QuantsSent, TqUser;
      var prec;
      ok, prec := EmitQuants();
      if !ok {
        return;
      }
      var is_baseline := !progressive_mode && data_precision == 8;
      if is_baseline {
        for ci := 0 to |comp_info|
          invariant !progressive_mode && data_precision == 8
          invariant is_baseline <==> forall i :: 0 <= i < ci ==> comp_info[i].td <= 1 && comp_info[i].ta <= 1
        {
          if comp_info[ci].td > 1 || comp_info[ci].ta > 1 {
            is_baseline := false;
          }
        }
        if prec > 0 {
          is_baseline := false;
        }
      }
      ok := EmitSof(if progressive_mode then M_SOF2 else if is_baseline then M_SOF0 else M_SOF1);
    }

    // ---- The scan header ----

    predicate NeedsDc()
      reads this`Ss, this`Ah
    {
      !progressive_mode || (Ss == 0 && Ah == 0)
    }

    predicate NeedsAc()
      reads this`Ss
    {
      !progressive_mode || Ss != 0
    }

    ghost predicate ScanOk()
      reads this
    {
      && 1 <= |cur_comp_info| <= ScanScripts.MAX_COMPS_IN_SCAN && Ss < 256 && Se < 256 && Ah < 16 && Al < 16
      && restart_interval < 65536 && forall i :: 0 <= i < |cur_comp_info| ==> cur_comp_info[i] < |comp_info|
    }

    /** The parameters of the scan; selectors of tables that it does not use are 0. */
    function HeaderOf(): ScanHeader
      requires forall i :: 0 <= i < |cur_comp_info| ==> cur_comp_info[i] < |comp_info|
      reads this
    {
      ScanHeader(SelectorsOf(comp_info, cur_comp_info, NeedsDc(), NeedsAc()), Ss, Se, Ah, Al)
    }

    method EmitSelectors()
      requires ParamsOk() && ScanOk()
      modifies this`out
      ensures out == old(out) + SelectorBytes(IdsOf(comp_info, cur_comp_info), HeaderOf().comps, |cur_comp_info|)
    {
      hide SelectorBytes;
      ghost var ids, comps := IdsOf(comp_info, cur_comp_info), HeaderOf().comps;
      SelectorStep(ids, comps, 0);
      for i := 0 to |cur_comp_info|
        invariant out == old(out) + SelectorBytes(ids, comps, i)
      {
        SelectorStep(ids, comps, i);
        ghost var soFar := out;
        var compptr := comp_info[cur_comp_info[i]];
        EmitByte(compptr.id);
        var td, ta := compptr.td, compptr.ta;
        if progressive_mode {
          if Ss == 0 {
            ta := 0;
            if Ah != 0 {
              td := 0;
            }
          } else {
            td := 0;
          }
        }
        EmitByte(td * 16 + ta);
        assert out == soFar + [ids[i], 16 * comps[i].td + comps[i].ta];
      }
    }

    /** The bytes of emit_sos. */
    method SendScan(ghost ids: seq<nat>, ghost header: ScanHeader)
      requires ParamsOk() && ScanOk() && ids == IdsOf(comp_info, cur_comp_info) && header == HeaderOf()
      modifies this`out
      ensures out == old(out) + Bytes(Sos(ids, header))
    {
      hide TwoBytes, Bytes, SelectorBytes;
      ghost var was := out;
      EmitMarker(M_SOS);
      Emit2Bytes(2 * |cur_comp_info| + 2 + 1 + 3);
      EmitByte(|cur_comp_info|);
      EmitSelectors();
      EmitByte(Ss);
      EmitByte(Se);
      EmitByte(Ah * 16 + Al);
      SosBytes(ids, header);
      assert out == was + Bytes(Sos(ids, header));
    }

    /** emit_sos */
    method EmitSos()
      requires Valid() && ParamsOk() && ScanOk() && Reader().frame.Some?
      requires FrameOk(Reader().frame.value) && Reader().frame.value.comps == FrameComps()
      modifies this`out, this`segs
      ensures Valid() && segs == old(segs) + [Sos(IdsOf(comp_info, cur_comp_info), HeaderOf())]
      ensures Reader() == old(Reader()).(scan := Some(HeaderOf()))
    {
      hide AllOk, AllBytes, ApplyAll, Bytes, FrameOk;
      ghost var ids, header := IdsOf(comp_info, cur_comp_info), HeaderOf();
      SendScan(ids, header);
      Record(Sos(ids, header));
    }

    /** The reader holds the Huffman tables that component ci of the scan needs. */
    ghost predicate Served(ci: nat, r: Fields)
      requires ci < |comp_info| && ParamsOk() && |dc| == |ac| == |r.dc| == |r.ac| == NUM_TBLS
      reads this
    {
      && (NeedsDc() ==> Holds(dc[comp_info[ci].td], r.dc[comp_info[ci].td]))
      && (NeedsAc() ==> Holds(ac[comp_info[ci].ta], r.ac[comp_info[ci].ta]))
    }

    /** The encoder's tables that component ci needs exist. */
    ghost predicate HasTables(ci: nat)
      requires ci < |comp_info| && ParamsOk() && |dc| == |ac| == NUM_TBLS
      reads this
    {
      (NeedsDc() ==> dc[comp_info[ci].td].Some?) && (NeedsAc() ==> ac[comp_info[ci].ta].Some?)
    }

    ghost predicate BothSent(ci: nat)
      requires ci < |comp_info|
      reads this
    {
      (NeedsDc() ==> SentSlot(dc, comp_info[ci].td)) && (NeedsAc() ==> SentSlot(ac, comp_info[ci].ta))
    }

    /** Some component of the scan needs the table. */
    ghost predicate DcUser(t: nat)
      reads this`Ss, this`Ah, this`cur_comp_info
    {
      NeedsDc() && exists k ::
        (0 <= k < |cur_comp_info| && cur_comp_info[k] < |comp_info| && comp_info[cur_comp_info[k]].td == t)
    }

    ghost predicate AcUser(t: nat)
      reads this`Ss, this`Ah, this`cur_comp_info
    {
      NeedsAc() && exists k ::
        (0 <= k < |cur_comp_info| && cur_comp_info[k] < |comp_info| && comp_info[cur_comp_info[k]].ta == t)
    }

    /** emit_dht for the tables that one component needs. */
    method EmitTablesFor(ci: nat) returns (ok: bool)
      requires Valid() && ParamsOk() && ci < |comp_info|
      modifies this`out, this`dc, this`ac, this`segs
      ensures ok <==> old(HasTables(ci))
      ensures ok ==>
        Valid() && Extends(old(segs), segs) && SameHuffs(old(dc), dc) && SameHuffs(old(ac), ac) && BothSent(ci)
      ensures ok ==> forall k :: 0 <= k < |comp_info| && old(BothSent(k)) ==> BothSent(k)
      ensures ok ==>
        |segs| + HuffsSent(old(dc)) + HuffsSent(old(ac)) == |old(segs)| + HuffsSent(dc) + HuffsSent(ac)
      ensures ok ==> forall t :: 0 <= t < NUM_TBLS ==>
        (dc[t] != old(dc)[t] ==> NeedsDc() && comp_info[ci].td == t)
        && (ac[t] != old(ac)[t] ==> NeedsAc() && comp_info[ci].ta == t)
      ensures ok ==> Reader() == old(Reader()).(dc := Reader().dc, ac := Reader().ac)
    {
      hide AllBytes, ApplyAll, SegmentOk, HuffOk, HuffsSent, Count;
      if !progressive_mode || (Ss == 0 && Ah == 0) {
        ok := EmitDht(comp_info[ci].td, false);
        if !ok {
          return;
        }
        HuffMarked(old(dc), comp_info[ci].td);
      }
      if !progressive_mode || Ss != 0 {
        ok := EmitDht(comp_info[ci].ta, true);
        if !ok {
          return;
        }
        HuffMarked(old(ac), comp_info[ci].ta);
      }
      ok := true;
    }

    /** emit_dht for every table that the scan needs. */
    method EmitTables() returns (ok: bool)
      requires Valid() && ParamsOk() && ScanOk()
      modifies this`out, this`dc, this`ac, this`segs
      ensures ok <==> forall i :: 0 <= i < |cur_comp_info| ==> old(HasTables(cur_comp_info[i]))
      ensures ok ==> Valid() && Extends(old(segs), segs) && SameHuffs(old(dc), dc) && SameHuffs(old(ac), ac)
      ensures ok ==> forall i :: 0 <= i < |cur_comp_info| ==> BothSent(cur_comp_info[i])
      ensures ok ==>
        |segs| + HuffsSent(old(dc)) + HuffsSent(old(ac)) == |old(segs)| + HuffsSent(dc) + HuffsSent(ac)
      ensures ok ==> forall t :: 0 <= t < NUM_TBLS ==>
        (dc[t] != old(dc)[t] ==> DcUser(t)) && (ac[t] != old(ac)[t] ==> AcUser(t))
      ensures ok ==> Reader() == old(Reader()).(dc := Reader().dc, ac := Reader().ac)
    {
      hide AllBytes, ApplyAll, SegmentOk, HuffOk, SentSlot, HuffsSent;
      for i := 0 to |cur_comp_info|
        invariant Valid() && Extends(old(segs), segs) && SameHuffs(old(dc), dc) && SameHuffs(old(ac), ac)
        invariant Reader() == old(Reader()).(dc := Reader().dc, ac := Reader().ac)
        invariant |segs| + HuffsSent(old(dc)) + HuffsSent(old(ac)) == |old(segs)| + HuffsSent(dc) + HuffsSent(ac)
        invariant forall t :: 0 <= t < NUM_TBLS ==>
          (dc[t] != old(dc)[t] ==> DcUser(t)) && (ac[t] != old(ac)[t] ==> AcUser(t))
        invariant forall k :: 0 <= k < i ==> old(HasTables(cur_comp_info[k])) && BothSent(cur_comp_info[k])
      {
        ok := EmitTablesFor(cur_comp_info[i]);
        if !ok {
          return;
        }
      }
      ok := true;
    }

    /** write_scan_header: fails only for a missing Huffman table; afterwards the reader holds every table that
        the scan needs, the restart interval and the scan parameters. */
    method WriteScanHeader() returns (ok: bool)
      requires Valid() && ParamsOk() && ScanOk() && Reader().frame.Some?
      requires FrameOk(Reader().frame.value) && Reader().frame.value.comps == FrameComps()
      modifies this`out, this`dc, this`ac, this`segs, this`last_restart_interval
      ensures ok <==> forall i :: 0 <= i < |cur_comp_info| ==> old(HasTables(cur_comp_info[i]))
      ensures ok ==> Valid() && EndsInScan(old(segs), segs) && SameHuffs(old(dc), dc) && SameHuffs(old(ac), ac)
      ensures ok ==>
        |segs| + HuffsSent(old(dc)) + HuffsSent(old(ac)) == |old(segs)| + HuffsSent(dc) + HuffsSent(ac) + 1
          + if restart_interval == old(last_restart_interval) then 0 else 1
      ensures ok ==> forall t :: 0 <= t < NUM_TBLS ==>
        (dc[t] != old(dc)[t] ==> DcUser(t)) && (ac[t] != old(ac)[t] ==> AcUser(t))
      ensures ok ==> Reader().scan == Some(HeaderOf()) && Reader().restart_interval == restart_interval
      ensures ok ==> forall i :: 0 <= i < |cur_comp_info| ==> Served(cur_comp_info[i], Reader())
      ensures ok ==> Reader().frame == old(Reader()).frame && Reader().quant == old(Reader()).quant
    {
      hide AllBytes, ApplyAll, SegmentOk, HuffOk, FrameOk, FrameComps, HeaderOf, HuffsSent, DcUser, AcUser;
      ok := EmitTables();
      if !ok {
        return;
      }
      if restart_interval != last_restart_interval {
        EmitDri();
      }
      EmitSos();
    }
  }

  lemma HuffMarked(slots: seq<Option<HuffSlot>>, i: nat)
    requires |slots| == NUM_TBLS && i < NUM_TBLS && slots[i].Some?
    ensures HuffsSent(slots[i := Some(slots[i].value.(sent := true))]) ==
      HuffsSent(slots) + if slots[i].value.sent then 0 else 1
  {}

  lemma QuantMarked(slots: seq<Option<QuantSlot>>, i: nat)
    requires |slots| == NUM_TBLS && i < NUM_TBLS && slots[i].Some?
    ensures QuantsSent(slots[i := Some(slots[i].value.(sent := true))]) ==
      QuantsSent(slots) + if slots[i].value.sent then 0 else 1
  {}

  method CountSymbols(bits: seq<nat>) returns (length: nat)
    requires |bits| == 17
    ensures length == Count(bits, 16)
  {
    length := 0;
    for i := 1 to 17
      invariant length == Count(bits, i - 1)
    {
      length := length + bits[i];
    }
  }

  /** Only the flags may differ. */
  ghost predicate SameQuants(a: seq<Option<QuantSlot>>, b: seq<Option<QuantSlot>>) {
    |a| == |b| && forall i :: 0 <= i < |a| ==>
      && (a[i].Some? <==> b[i].Some?) && (a[i].Some? ==> a[i].value.quantval == b[i].value.quantval)
  }

  lemma CompStep(comps: seq<FrameComp>, i: nat)
    requires i <= |comps|
    ensures CompBytes(comps, 0) == []
    ensures i < |comps| ==>
      CompBytes(comps, i + 1) == CompBytes(comps, i) + [comps[i].id, 16 * comps[i].h + comps[i].v, comps[i].tq]
  {}

  lemma SofBytes(f: Frame)
    requires FrameOk(f)
    ensures Bytes(Sof(f)) == [0xFF, f.code] + TwoBytes(3 * |f.comps| + 2 + 5 + 1) + [f.precision]
      + TwoBytes(f.height) + TwoBytes(f.width) + [|f.comps|] + CompBytes(f.comps, |f.comps|)
  {
    hide TwoBytes, CompBytes;
    CompLength(f.comps, |f.comps|);
    TwoLong(f.height);
    TwoLong(f.width);
    var p := Payload(Sof(f));
    assert |p| == 3 * |f.comps| + 6;
  }

  lemma TwoLong(x: nat)
    ensures |TwoBytes(x)| == 2
  {}

  ghost predicate SameHuffs(a: seq<Option<HuffSlot>>, b: seq<Option<HuffSlot>>) {
    |a| == |b| && forall i :: 0 <= i < |a| ==>
      && (a[i].Some? <==> b[i].Some?) && (a[i].Some? ==> a[i].value.h == b[i].value.h)
  }

  ghost predicate SentSlot(slots: seq<Option<HuffSlot>>, i: nat) {
    i < |slots| && slots[i].Some? && slots[i].value.sent
  }

  lemma SelectorStep(ids: seq<nat>, comps: seq<ScanComp>, i: nat)
    requires i <= |ids| == |comps|
    ensures SelectorBytes(ids, comps, 0) == []
    ensures i < |ids| ==>
      SelectorBytes(ids, comps, i + 1) == SelectorBytes(ids, comps, i) + [ids[i], 16 * comps[i].td + comps[i].ta]
  {}

  lemma {:induction false} SosBytes(ids: seq<nat>, h: ScanHeader)
    requires |ids| == |h.comps|
    ensures Bytes(Sos(ids, h)) == [0xFF, M_SOS] + TwoBytes(2 * |ids| + 2 + 1 + 3) + [|ids|]
      + SelectorBytes(ids, h.comps, |ids|) + [h.Ss] + [h.Se] + [16 * h.Ah + h.Al]
  {
    hide TwoBytes, SelectorBytes;
    SelectorLength(ids, h.comps, |ids|);
    assert |Payload(Sos(ids, h))| == 2 * |ids| + 4;
    assert [h.Ss, h.Se, 16 * h.Ah + h.Al] == [h.Ss] + [h.Se] + [16 * h.Ah + h.Al];
  }

  lemma DriBytes(interval: nat)
    ensures Bytes(Dri(interval)) == [0xFF, M_DRI] + TwoBytes(4) + TwoBytes(interval)
  {}

  lemma {:induction false} DqtBytes(n: nat, prec: nat, q: seq<nat>)
    requires n < NUM_TBLS && prec <= 1 && QuantOk(q)
    ensures Bytes(Dqt(n, prec, q)) ==
      [0xFF, M_DQT] + TwoBytes(if prec > 0 then 128 + 1 + 2 else 64 + 1 + 2) + [n + prec * 16] + QuantBytes(prec, q, 64)
  {
    hide TwoBytes, QuantBytes;
    QuantLength(prec, q, 64);
  }

  lemma DhtBytes(ac: bool, slot: nat, t: Listed)
    requires slot < NUM_TBLS && ListedOk(t)
    ensures Bytes(Dht(ac, slot, t)) ==
      [0xFF, M_DHT] + TwoBytes(|t.symbols| + 2 + 1 + 16) + [slot + if ac then 16 else 0] + t.bits + t.symbols
  {
    hide TwoBytes, Sum;
    var p := [slot + if ac then 16 else 0] + t.bits + t.symbols;
    assert Payload(Dht(ac, slot, t)) == p && |p| == |t.symbols| + 17;
  }

  lemma QuantStep(prec: nat, q: seq<nat>, i: nat)
    requires |q| == 64 && i <= 64
    ensures QuantBytes(prec, q, 0) == []
    ensures i < 64 ==>
      var next := if prec > 0 then TwoBytes(q[NaturalOf(i)]) else [q[NaturalOf(i)] % 256];
      QuantBytes(prec, q, i + 1) == QuantBytes(prec, q, i) + next
  {}
}
