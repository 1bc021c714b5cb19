/** Where each parameter stands in the bytes of a marker segment (sections B.2.2, B.2.3, B.2.4.1, B.2.4.2 and
    B.2.4.4 of ITU-T T.81), whatever the reader makes of them. */
module SegmentLayout {
  import opened NaturalOrder
  import opened MarkerSegments

  /** The marker, and the length of the segment without the marker. */
  ghost predicate Framed(b: seq<nat>, code: nat) {
    |b| >= 4 && b[0] == 0xFF && b[1] == code && 256 * b[2] + b[3] == |b| - 2
  }

  lemma Preceded(seg: Segment, i: nat)
    requires Shaped(seg) && |Payload(seg)| + 2 < 65536
    ensures Framed(Bytes(seg), Code(seg)) && |Bytes(seg)| == |Payload(seg)| + 4
    ensures i < |Payload(seg)| ==> Bytes(seg)[4 + i] == Payload(seg)[i]
  {
    hide Payload;
  }

  /** Lq, Pq and Tq, then the elements in zigzag order, one or two bytes each. */
  lemma DqtLayout(n: nat, prec: nat, q: seq<nat>, i: nat)
    requires n < NUM_TBLS && prec <= 1 && QuantOk(q) && i < 64 && (prec == 0 ==> forall k :: 0 <= k < 64 ==> q[k] < 256)
    ensures var b := Bytes(Dqt(n, prec, q));
      && Framed(b, 0xDB) && |b| == 69 + 64 * prec && b[4] / 16 == prec && b[4] % 16 == n
      && q[NaturalOf(i)] == if prec == 0 then b[5 + i] else 256 * b[5 + 2 * i] + b[6 + 2 * i]
  {
    hide QuantBytes, NaturalOf, Bytes;
    var seg := Dqt(n, prec, q);
    QuantByteAt(prec, q, 64, i);
    Preceded(seg, 0);
    Preceded(seg, 1 + i);
    Preceded(seg, 1 + 2 * i);
    Preceded(seg, 2 + 2 * i);
  }

  /** Lh, Tc and Th, then the sixteen counts and the symbols. */
  lemma DhtLayout(ac: bool, slot: nat, t: Listed, i: nat)
    requires slot < NUM_TBLS && ListedOk(t)
    ensures var b := Bytes(Dht(ac, slot, t));
      && Framed(b, 0xC4) && |b| == 21 + |t.symbols|
      && b[4] / 16 == (if ac then 1 else 0) && b[4] % 16 == slot
      && (i < 16 ==> b[5 + i] == t.bits[i]) && (i < |t.symbols| ==> b[21 + i] == t.symbols[i])
  {
    hide Bytes, Sum;
    var seg := Dht(ac, slot, t);
    Preceded(seg, 0);
    Preceded(seg, 1 + i);
    Preceded(seg, 17 + i);
  }

  /** Lr and Ri. */
  lemma DriLayout(interval: nat)
    requires interval < 65536
    ensures var b := Bytes(Dri(interval)); Framed(b, 0xDD) && |b| == 6 && 256 * b[4] + b[5] == interval
  {
    hide Bytes;
    Preceded(Dri(interval), 0);
    Preceded(Dri(interval), 1);
  }

  /** Lf, P, Y, X and Nf, then Ci, Hi and Vi, and Tqi of each component. */
  lemma SofLayout(f: Frame, i: nat)
    requires FrameOk(f) && i < |f.comps|
    ensures var b := Bytes(Sof(f));
      && Framed(b, f.code) && |b| == 10 + 3 * |f.comps| && b[4] == f.precision
      && 256 * b[5] + b[6] == f.height && 256 * b[7] + b[8] == f.width && b[9] == |f.comps|
      && b[10 + 3 * i] == f.comps[i].id
      && b[11 + 3 * i] / 16 == f.comps[i].h && b[11 + 3 * i] % 16 == f.comps[i].v
      && b[12 + 3 * i] == f.comps[i].tq
  {
    hide CompBytes, Bytes, TwoBytes;
    var seg := Sof(f);
    CompPlace(f.comps, |f.comps|, i);
    TwoBytesRead(f.height);
    TwoBytesRead(f.width);
    FirstPlaces(f);
    Preceded(seg, 0);
    Preceded(seg, 1);
    Preceded(seg, 2);
    Preceded(seg, 3);
    Preceded(seg, 4);
    Preceded(seg, 5);
    Preceded(seg, 6 + 3 * i);
    Preceded(seg, 7 + 3 * i);
    Preceded(seg, 8 + 3 * i);
  }

  lemma FirstPlaces(f: Frame)
    ensures |TwoBytes(f.height)| == |TwoBytes(f.width)| == 2
  {}

  lemma {:induction false} CompPlace(comps: seq<FrameComp>, n: nat, i: nat)
    requires i < n <= |comps|
    ensures var b := CompBytes(comps, n);
      |b| == 3 * n && b[3 * i] == comps[i].id && b[3 * i + 1] == 16 * comps[i].h + comps[i].v
        && b[3 * i + 2] == comps[i].tq
  {
    CompLength(comps, n);
    CompLength(comps, n - 1);
    if i < n - 1 { CompPlace(comps, n - 1, i); }
  }

  /** Ls and Ns, then Csj and Tdj and Taj of each component, then Ss, Se, Ah and Al. */
  lemma SosLayout(ids: seq<nat>, h: ScanHeader, s: Fields, i: nat)
    requires SegmentOk(Sos(ids, h), s) && i < |ids|
    ensures var b := Bytes(Sos(ids, h)); var n := |ids|;
      && Framed(b, 0xDA) && |b| == 8 + 2 * n && b[4] == n
      && b[5 + 2 * i] == ids[i] && b[6 + 2 * i] / 16 == h.comps[i].td && b[6 + 2 * i] % 16 == h.comps[i].ta
      && b[5 + 2 * n] == h.Ss && b[6 + 2 * n] == h.Se && b[7 + 2 * n] / 16 == h.Ah && b[7 + 2 * n] % 16 == h.Al
  {
    hide SelectorBytes, Bytes, FrameOk;
    var seg, n := Sos(ids, h), |ids|;
    SelectorPlace(ids, h.comps, n, i);
    Preceded(seg, 0);
    Preceded(seg, 1 + 2 * i);
    Preceded(seg, 2 + 2 * i);
    Preceded(seg, 1 + 2 * n);
    Preceded(seg, 2 + 2 * n);
    Preceded(seg, 3 + 2 * n);
  }

  lemma {:induction false} SelectorPlace(ids: seq<nat>, comps: seq<ScanComp>, n: nat, i: nat)
    requires i < n <= |ids| == |comps|
    ensures var b := SelectorBytes(ids, comps, n);
      |b| == 2 * n && b[2 * i] == ids[i] && b[2 * i + 1] == 16 * comps[i].td + comps[i].ta
  {
    SelectorLength(ids, comps, n);
    SelectorLength(ids, comps, n - 1);
    if i < n - 1 { SelectorPlace(ids, comps, n - 1, i); }
  }
}
