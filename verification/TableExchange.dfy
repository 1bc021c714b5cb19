/** Huffman tables from the encoder to the decoder: a DHT segment carries the counts and the symbols that are
    listed, and these are all that codes and decoding depend on. */
module TableExchange {
  import opened HuffmanTables
  import opened DerivedTables
  import opened BitReader
  import opened BitWriter
  import opened Coefficients
  import opened Coding
  import opened Decoding
  import opened TokenBits
  import opened McuDecoding
  import opened ScanRoundTrip
  import S = MarkerSegments
  import W = MarkerWriter

  /** The JHUFF_TBL that get_dht stores: symbols that are not listed are 0. */
  function TableOf(t: S.Listed): (h: HuffTbl)
    requires |t.symbols| <= 256
    ensures |h.huffval| == 256
  {
    HuffTbl([0] + t.bits, t.symbols + seq(256 - |t.symbols|, _ => 0))
  }

  /** The table that arrives for h. */
  ghost function Sent(h: HuffTbl): (g: HuffTbl)
    requires W.HuffOk(h)
    ensures g.WellTyped() && Count(g.bits, 16) == Count(h.bits, 16)
    ensures S.ListedOk(W.ListedOf(h)) && g == TableOf(W.ListedOf(h))
  {
    W.ListedFits(h);
    SameCount(h, 16);
    TableOf(W.ListedOf(h))
  }

  lemma {:induction false} SameCount(h: HuffTbl, l: nat)
    requires W.HuffOk(h) && l <= 16
    ensures |W.ListedOf(h).symbols| <= 256
    ensures var g := TableOf(W.ListedOf(h));
      |g.bits| == 17 && Count(g.bits, l) == Count(h.bits, l) && Next(g.bits, l) == Next(h.bits, l)
  {
    if l > 0 { SameCount(h, l - 1); }
  }

  lemma SameCode(h: HuffTbl, p: nat, l: nat)
    requires W.HuffOk(h)
    ensures HasLen(Sent(h).bits, p, l) <==> HasLen(h.bits, p, l)
    ensures HasLen(h.bits, p, l) ==> CodeOf(Sent(h).bits, p, l) == CodeOf(h.bits, p, l)
  {
    hide Count, Next;
    if 1 <= l <= 16 {
      SameCount(h, l);
      SameCount(h, l - 1);
    }
  }

  lemma SameLegal(h: HuffTbl)
    requires W.HuffOk(h)
    ensures Legal(Sent(h).bits) <==> Legal(h.bits)
  {
    hide Count, Next;
    forall l: nat | l <= 16 ensures Next(Sent(h).bits, l) == Next(h.bits, l) { SameCount(h, l); }
  }

  lemma SameSymbols(h: HuffTbl)
    requires W.HuffOk(h)
    ensures forall p :: 0 <= p < Count(h.bits, 16) ==> p < 256 && Sent(h).huffval[p] == h.huffval[p]
  {
    hide Count, Next;
  }

  /** The table that arrives serves the decoder, and the encoder's codes are its codes. */
  lemma {:induction false} SentServes(h: HuffTbl, c: CTbl, isDC: bool)
    requires W.HuffOk(h)
    ensures DecoderAccepts(h, isDC) <==> DecoderAccepts(Sent(h), isDC)
    ensures Encodes(h, c) ==> Encodes(Sent(h), c)
  {
    hide Sent, Count, Next, CodeOf, Legal;
    SameLegal(h);
    SameSymbols(h);
    var g := Sent(h);
    if Encodes(h, c) {
      forall p: nat, l: nat | p < 256 && HasLen(g.bits, p, l)
        ensures c.ehufsi[g.huffval[p]] == l && c.ehufco[g.huffval[p]] == CodeOf(g.bits, p, l)
      {
        SameCode(h, p, l);
        ListedIndex(h, p, l);
      }
      forall s | 0 <= s < 256 && c.ehufsi[s] != 0
        ensures exists p :: 0 <= p < Count(g.bits, 16) && g.huffval[p] == s
      {
        var p :| 0 <= p < Count(h.bits, 16) && h.huffval[p] == s;
        assert g.huffval[p] == s;
      }
    }
  }

  lemma ListedIndex(h: HuffTbl, p: nat, l: nat)
    requires |h.bits| == 17 && HasLen(h.bits, p, l)
    ensures p < Count(h.bits, 16)
  {
    CountMono(h.bits, l, 16);
  }

  // ---- What the decoder does depends on its own tables only ----

  /** The tables differ at most in the encoder's part. */
  ghost predicate SameDecoder(tabs: seq<Tab>, others: seq<Tab>) {
    |tabs| == |others| && forall t :: 0 <= t < |tabs| ==> tabs[t].h == others[t].h && tabs[t].d == others[t].d
  }

  lemma SameOk(scan: Scan, tabs: seq<Tab>, others: seq<Tab>)
    requires scan.Ok() && SameDecoder(tabs, others)
    ensures TabsOk(scan, tabs) <==> TabsOk(scan, others)
  {
    hide TableOk, DcTable;
    forall t: nat ensures Present(tabs, t) <==> Present(others, t) {}
  }

  lemma {:induction false} SameRun(scan: Scan, data: seq<nat>, lim: nat, tabs: seq<Tab>, others: seq<Tab>, st: St,
                                   rd: Rd)
    requires StOk(scan, st) && TabsOk(scan, tabs) && TabsOk(scan, others) && lim <= |data| && Bytes(data)
    requires SameDecoder(tabs, others)
    ensures RunRd(scan, data, lim, tabs, st, rd) == RunRd(scan, data, lim, others, st, rd)
    decreases Rank(scan, st)
  {
    hide Asks, Feed, StOk, Rank, TabsOk, Bytes, GetSym, GetBits;
    var a := Asks(scan, st);
    if a.Silent? {
      FeedOk(scan, st, 0);
      SameRun(scan, data, lim, tabs, others, Feed(scan, st, 0), rd);
    } else if !a.Halt? {
      AskOk(scan, st, tabs);
      AskOk(scan, st, others);
      FetchOk(data, lim, rd, tabs, a);
      match Fetch(data, lim, rd, tabs, a)
      case Starved =>
      case Got(v, rd') =>
        FeedOk(scan, st, v);
        SameRun(scan, data, lim, tabs, others, Feed(scan, st, v), rd');
    }
  }

  lemma SameMcu(scan: Scan, data: seq<nat>, lim: nat, tabs: seq<Tab>, others: seq<Tab>, d: Dec, bs: seq<Block>)
    requires DecOk(scan, d) && |bs| == |scan.members| && lim <= |data| && Bytes(data)
    requires TabsOk(scan, tabs) && TabsOk(scan, others) && SameDecoder(tabs, others)
    ensures DecodeMcu(scan, data, lim, tabs, d, bs) == DecodeMcu(scan, data, lim, others, d, bs)
  {
    hide RunRd, TabsOk, Bytes, SameDecoder;
    BeginDecodeOk(scan, data, lim, d);
    var d1 := BeginDecode(scan, data, lim, d).1;
    InitOk(scan, d1.eobrun, d1.last, bs);
    SameRun(scan, data, lim, tabs, others, Init(scan, d1.eobrun, d1.last, bs), d1.rd);
  }

  lemma {:induction false} SameDecoding(scan: Scan, data: seq<nat>, lim: nat, tabs: seq<Tab>, others: seq<Tab>, d: Dec,
                                        bss: seq<seq<Block>>)
    requires DecOk(scan, d) && lim <= |data| && Bytes(data)
    requires TabsOk(scan, tabs) && TabsOk(scan, others) && SameDecoder(tabs, others)
    requires forall i :: 0 <= i < |bss| ==> |bss[i]| == |scan.members|
    ensures DecodeAll(scan, data, lim, tabs, d, bss) == DecodeAll(scan, data, lim, others, d, bss)
  {
    hide DecodeMcu, TabsOk, Bytes, DecOk, SameDecoder;
    if bss != [] {
      var n := |bss| - 1;
      SameDecoding(scan, data, lim, tabs, others, d, bss[..n]);
      var r := DecodeAll(scan, data, lim, tabs, d, bss[..n]);
      if r.Some? { SameMcu(scan, data, lim, tabs, others, r.value.dec, bss[n]); }
    }
  }

  // ---- What the encoder writes depends on its own tables only ----

  /** The tables differ, in the slots that a token sequence uses, at most in the decoder's part. */
  ghost predicate SameEncoder(tabs: seq<Tab>, others: seq<Tab>, toks: seq<Token>) {
    forall i :: 0 <= i < |toks| && toks[i].Sym? ==>
      && SlotOk(tabs, toks[i].tbl) && SlotOk(others, toks[i].tbl) && tabs[toks[i].tbl].c == others[toks[i].tbl].c
  }

  lemma {:induction false} SameBits(tabs: seq<Tab>, others: seq<Tab>, toks: seq<Token>)
    requires SameEncoder(tabs, others, toks)
    ensures Flatten(tabs, toks) == Flatten(others, toks) && (AllEmittable(tabs, toks) <==> AllEmittable(others, toks))
  {
    hide SlotOk;
    forall i | 0 <= i < |toks|
      ensures Emittable(tabs, toks[i]) <==> Emittable(others, toks[i])
      ensures TokBits(tabs, toks[i]) == TokBits(others, toks[i])
    {}
    if toks != [] { SameBits(tabs, others, toks[1..]); }
  }

  lemma {:induction false} SameClosed(tabs: seq<Tab>, others: seq<Tab>, segs: seq<seq<Token>>)
    requires forall i :: 0 <= i < |segs| ==> SameEncoder(tabs, others, segs[i])
    ensures ClosedBytes(tabs, segs) == ClosedBytes(others, segs)
  {
    hide SameEncoder, Flatten, Seal;
    if segs != [] {
      SameClosed(tabs, others, segs[..|segs| - 1]);
      SameBits(tabs, others, segs[|segs| - 1]);
    }
  }

  lemma {:induction false} SameScanBytes(tabs: seq<Tab>, others: seq<Tab>, segs: seq<seq<Token>>)
    requires segs != [] && forall i :: 0 <= i < |segs| ==> SameEncoder(tabs, others, segs[i])
    ensures ScanBytes(tabs, segs) == ScanBytes(others, segs)
    ensures forall i :: 0 <= i < |segs| ==> (AllEmittable(tabs, segs[i]) <==> AllEmittable(others, segs[i]))
  {
    hide SameEncoder, Flatten, Seal, ClosedBytes, AllEmittable;
    SameClosed(tabs, others, segs[..|segs| - 1]);
    forall i | 0 <= i < |segs|
      ensures AllEmittable(tabs, segs[i]) <==> AllEmittable(others, segs[i])
      ensures Flatten(tabs, segs[i]) == Flatten(others, segs[i])
    {
      SameBits(tabs, others, segs[i]);
    }
  }
}
