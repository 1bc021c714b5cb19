/** What the bit reader of jdhuff.c makes of any entropy-coded segment, damaged ones included: the bits before the
    next marker, then zeros. */
module EndOfData {
  import opened Bits
  import opened HuffmanTables
  import opened DerivedTables
  import opened BitWriter
  import opened BitReader
  import opened BitChannel

  /** f1 is what is left of f after n bits, if f is continued with zeros. */
  ghost predicate After(f1: seq<bool>, f: seq<bool>, n: nat) {
    if n <= |f| then f1 == f[n..] else forall i :: 0 <= i < |f1| ==> !f1[i]
  }

  lemma AfterMore(f0: seq<bool>, f1: seq<bool>, f: seq<bool>, m: nat, n: nat)
    requires After(f1, f, m) && After(f0, f1, n)
    ensures After(f0, f, m + n)
  {
    if m <= |f| && m + n <= |f| { assert f[m..][n..] == f[m + n..]; }
  }

  /** GET_BITS: the next n bits, zeros if there are no more; only then is the data found insufficient. */
  lemma BitsAlways(data: seq<nat>, lim: nat, rd: Rd, n: nat, bytes: seq<nat>, m: nat, e: nat)
    returns (bytes': seq<nat>)
    requires lim <= |data| && n <= MIN_GET_BITS && e <= lim && Ahead(data, rd, bytes, m, e)
    ensures var f, r := Future(rd, bytes), GetBits(data, lim, rd, n);
      && r.Got? && r.v == Val((f + Zeros(n))[..n]) && Ahead(data, r.rd, bytes', m, e)
      && After(Future(r.rd, bytes'), f, n) && r.rd.dry == (rd.dry || n > |f|)
  {
    hide Ahead, Val, Future;
    var f := Future(rd, bytes);
    if n <= |f| {
      bytes' := BitsRead(data, lim, rd, n, bytes, m, e);
      assert (f + Zeros(n))[..n] == f[..n];
    } else {
      bytes' := [];
      ZeroFill(data, lim, rd, n, bytes, m, e);
      ReservoirIn(rd, bytes);
      ZerosCut(f, n);
      ZerosOnly(f, n);
      var z := f + Zeros(MIN_GET_BITS - |f|);
      NoBytes(Rd(z[n..], e, m, true));
      KeepsAhead(data, Rd(z, e, m, true), z[n..], m, e);
    }
  }

  lemma ReservoirIn(rd: Rd, bytes: seq<nat>)
    ensures |rd.buf| <= |Future(rd, bytes)|
  {}

  lemma NoBytes(rd: Rd)
    ensures Future(rd, []) == rd.buf
  {
    assert rd.buf + Unpack([]) == rd.buf;
  }

  lemma KeepsAhead(data: seq<nat>, rd: Rd, buf: seq<bool>, m: nat, e: nat)
    requires Ahead(data, rd, [], m, e)
    ensures Ahead(data, rd.(buf := buf), [], m, e)
  {}

  lemma ZerosCut(f: seq<bool>, n: nat)
    requires |f| <= n <= MIN_GET_BITS
    ensures |Zeros(n)| == n && |Zeros(MIN_GET_BITS - |f|)| == MIN_GET_BITS - |f|
    ensures (f + Zeros(n))[..n] == (f + Zeros(MIN_GET_BITS - |f|))[..n]
  {
  }

  lemma ZerosOnly(f: seq<bool>, n: nat)
    requires |f| < n <= MIN_GET_BITS
    ensures |Zeros(MIN_GET_BITS - |f|)| == MIN_GET_BITS - |f|
    ensures After((f + Zeros(MIN_GET_BITS - |f|))[n..], f, n)
  {
  }

  /** With too few bits left, the reservoir is filled up with zeros at the marker. */
  lemma ZeroFill(data: seq<nat>, lim: nat, rd: Rd, n: nat, bytes: seq<nat>, m: nat, e: nat)
    requires lim <= |data| && n <= MIN_GET_BITS && e <= lim && Ahead(data, rd, bytes, m, e)
    requires |Future(rd, bytes)| < n
    ensures var f := Future(rd, bytes); var z := f + Zeros(MIN_GET_BITS - |f|);
      && |z| == MIN_GET_BITS && Fill(data, lim, rd, n) == Some(Rd(z, e, m, true))
      && Ahead(data, Rd(z, e, m, true), [], m, e)
  {
    hide BitsOf, StuffByte;
    if rd.marker == 0 {
      FillToMarker(data, lim, rd, n, bytes, m, e);
    } else {
      assert rd.buf + Unpack([]) == rd.buf;
    }
  }

  lemma {:induction false} FillToMarker(data: seq<nat>, lim: nat, rd: Rd, n: nat, bytes: seq<nat>, m: nat, e: nat)
    requires lim <= |data| && n <= MIN_GET_BITS && e <= lim && rd.marker == 0 && Ahead(data, rd, bytes, m, e)
    requires |Future(rd, bytes)| < n
    ensures FillMore(data, lim, rd, n) == Some(NoMore(Rd(Future(rd, bytes), e, m, rd.dry), n))
    decreases |bytes|
  {
    hide BitsOf, StuffByte, NoMore;
    NextAhead(data, rd, bytes, m, e);
    if bytes == [] {
      assert rd.buf + Unpack([]) == rd.buf;
    } else {
      hide Future, Ahead;
      ShortReservoir(rd, bytes, n);
      LoadStep(data, lim, rd, n, bytes[0]);
      LoadedFuture(rd, bytes);
      FillToMarker(data, lim, Loaded(rd, bytes[0]), n, bytes[1..], m, e);
    }
  }

  lemma ShortReservoir(rd: Rd, bytes: seq<nat>, n: nat)
    requires |Future(rd, bytes)| < n
    ensures |rd.buf| < n
  {}

  lemma {:induction false} LoadStep(data: seq<nat>, lim: nat, rd: Rd, n: nat, b: nat)
    requires lim <= |data| && n <= MIN_GET_BITS && |rd.buf| < n && rd.pos + 1 < lim
    requires b != 0xFF ==> data[rd.pos] == b
    requires b == 0xFF ==> data[rd.pos] == 0xFF && data[rd.pos + 1] == 0
    ensures FillMore(data, lim, rd, n) == FillMore(data, lim, Loaded(rd, b), n)
  {
    hide BitsOf;
  }

  // ---- Symbols ----

  /** The first 17 bits of f, continued with zeros. */
  function Seventeen(f: seq<bool>): (z: seq<bool>)
    ensures |z| == 17 && forall k :: 0 <= k < 17 ==> z[k] == (k < |f| && f[k])
  {
    (f + Zeros(17))[..17]
  }

  ghost predicate NoCode(bits: seq<nat>, z: seq<bool>)
    requires |bits| == 17
  {
    forall p, l :: HasLen(bits, p, l) ==> !(CodeWord(bits, p, l) <= z)
  }

  /** The symbol of the code word, of l bits, that z starts with; without one, 0 after 17 bits. */
  ghost predicate Decided(h: HuffTbl, z: seq<bool>, v: nat, l: nat)
    requires |h.bits| == 17 && |h.huffval| == 256
  {
    if l <= 16 then exists p :: 0 <= p < 256 && HasLen(h.bits, p, l) && CodeWord(h.bits, p, l) <= z && v == h.huffval[p]
    else l == 17 && v == 0 && NoCode(h.bits, z)
  }

  /** The fetch took l bits of f, which decide on the symbol, and found the data insufficient if there were fewer. */
  ghost predicate Decodes17(data: seq<nat>, fetched: Fetched, h: HuffTbl, f: seq<bool>, l: nat, bytes: seq<nat>,
                            m: nat, e: nat, dry: bool)
    requires |h.bits| == 17 && |h.huffval| == 256
  {
    && fetched.Got? && Decided(h, Seventeen(f), fetched.v, l) && Ahead(data, fetched.rd, bytes, m, e)
    && After(Future(fetched.rd, bytes), f, l) && fetched.rd.dry == (dry || l > |f|)
  }

  /** One more bit of a code. */
  lemma BitOfCode(data: seq<nat>, lim: nat, rd: Rd, f: seq<bool>, k: nat, bytes: seq<nat>, m: nat, e: nat, dry: bool)
    returns (bytes': seq<nat>)
    requires lim <= |data| && e <= lim && Ahead(data, rd, bytes, m, e) && k < 17
    requires After(Future(rd, bytes), f, k) && rd.dry == (dry || k > |f|)
    ensures var r, z := GetBits(data, lim, rd, 1), Seventeen(f);
      && r.Got? && r.v < 2 && Val(z[..k + 1]) == 2 * Val(z[..k]) + r.v && Ahead(data, r.rd, bytes', m, e)
      && After(Future(r.rd, bytes'), f, k + 1) && r.rd.dry == (dry || k + 1 > |f|)
  {
    hide Ahead, Future, GetBits;
    var now, z := Future(rd, bytes), Seventeen(f);
    bytes' := BitsAlways(data, lim, rd, 1, bytes, m, e);
    var next := (now + Zeros(1))[..1];
    OneBit(next);
    assert next[0] == z[k];
    assert z[..k + 1][..k] == z[..k];
    AfterMore(Future(GetBits(data, lim, rd, 1).rd, bytes'), now, f, k, 1);
  }

  /** The code in hand is a code word. */
  lemma CodeFound(h: HuffTbl, d: DTbl, code: nat, k: nat, z: seq<bool>)
    requires PartialCode(h, d, code, k) && k <= 16 && code <= d.maxcode[k] && |z| == 17 && code == Val(z[..k])
    ensures 0 <= code + d.valoffset[k] < 256 && |h.huffval| == 256 && |h.bits| == 17
    ensures Decided(h, z, d.huffval[code + d.valoffset[k]], k)
  {
    hide Legal, Val;
    IndexInTable(h, d, code, k);
    SameValues(h, d);
    BitsVal(z[..k]);
    var p := code + d.valoffset[k];
    assert CodeWord(h.bits, p, k) == z[..k];
  }

  lemma {:induction false} LastBit(z: seq<bool>)
    requires |z| == 17
    ensures Val(z) == 2 * Val(z[..16]) + if z[16] then 1 else 0
  {}

  /** Sixteen bits that are beyond every code. */
  lemma {:induction false} NotFound(h: HuffTbl, d: DTbl, code: nat, z: seq<bool>)
    requires PartialCode(h, d, code, 17) && |z| == 17 && code == Val(z)
    ensures |h.bits| == 17 && NoCode(h.bits, z)
  {
    hide CodeWord, Decodes, Val;
    assert Val(z) == 2 * Val(z[..16]) + (if z[16] then 1 else 0) by { LastBit(z); }
    forall p, l | HasLen(h.bits, p, l) ensures !(CodeWord(h.bits, p, l) <= z) {
      if CodeWord(h.bits, p, l) <= z {
        ShortCodeBelow(h.bits, z, p, l, 16);
        assert false;
      }
    }
  }

  lemma {:induction false} LongAlways(data: seq<nat>, lim: nat, rd: Rd, h: HuffTbl, d: DTbl, code: nat, k: nat,
                                      f: seq<bool>, bytes: seq<nat>, m: nat, e: nat, dry: bool)
    returns (l: nat, bytes': seq<nat>)
    requires lim <= |data| && e <= lim && Ahead(data, rd, bytes, m, e) && PartialCode(h, d, code, k)
    requires code == Val(Seventeen(f)[..k]) && After(Future(rd, bytes), f, k) && rd.dry == (dry || k > |f|)
    ensures |h.bits| == 17 && |h.huffval| == 256
    ensures Decodes17(data, LongCode(data, lim, rd, h, d, code, k), h, f, l, bytes', m, e, dry)
    decreases 17 - k
  {
    hide Ahead, Future, GetBits, LongCode, Val, Decodes, Legal, Next, Seventeen, After, Decided, Pow2, NoCode;
    var z := Seventeen(f);
    TableSizes(h, d, code, k);
    if code > d.maxcode[k] {
      LongStep(data, lim, rd, h, d, code, k);
      var b1 := BitOfCode(data, lim, rd, f, k, bytes, m, e, dry);
      var r := GetBits(data, lim, rd, 1);
      l, bytes' := LongAlways(data, lim, r.rd, h, d, 2 * code + r.v, k + 1, f, b1, m, e, dry);
    } else {
      l, bytes' := k, bytes;
      LongEnd(data, lim, rd, h, d, code, k);
      if k <= 16 {
        CodeFound(h, d, code, k, z);
      } else {
        assert z[..17] == z;
        NotFound(h, d, code, z);
        assert Decided(h, z, 0, 17) by { Undecided(h, z); }
      }
    }
  }

  lemma Undecided(h: HuffTbl, z: seq<bool>)
    requires |h.bits| == 17 && |h.huffval| == 256 && NoCode(h.bits, z)
    ensures Decided(h, z, 0, 17)
  {}

  lemma TableSizes(h: HuffTbl, d: DTbl, code: nat, k: nat)
    requires PartialCode(h, d, code, k)
    ensures |h.bits| == 17 && |h.huffval| == 256 && 1 <= k <= 17 && |d.maxcode| > 17
  {}

  lemma SlowAlways(data: seq<nat>, lim: nat, rd: Rd, h: HuffTbl, d: DTbl, k: nat, bytes: seq<nat>, m: nat, e: nat)
    returns (l: nat, bytes': seq<nat>)
    requires lim <= |data| && e <= lim && TableOk(h, d) && Ahead(data, rd, bytes, m, e) && (k == 1 || k == 9)
    requires k == 9 ==> |rd.buf| >= 8 && d.lookNbits[Val8(rd.buf)] == 0
    ensures Decodes17(data, SlowSym(data, lim, rd, h, d, k), h, Future(rd, bytes), l, bytes', m, e, rd.dry)
  {
    hide Ahead, Future, GetBits, LongCode, Val, Decodes, Legal, Val8;
    var f := Future(rd, bytes);
    var b1 := BitsAlways(data, lim, rd, k, bytes, m, e);
    var r := GetBits(data, lim, rd, k);
    SlowStart(data, lim, rd, h, d, k);
    assert (f + Zeros(k))[..k] == Seventeen(f)[..k];
    l, bytes' := LongAlways(data, lim, r.rd, h, d, r.v, k, f, b1, m, e, rd.dry);
  }

  lemma LookAlways(data: seq<nat>, lim: nat, rd: Rd, h: HuffTbl, d: DTbl, bytes: seq<nat>, m: nat, e: nat)
    returns (l: nat, bytes': seq<nat>)
    requires lim <= |data| && e <= lim && TableOk(h, d) && Ahead(data, rd, bytes, m, e)
    ensures Decodes17(data, LookUp(data, lim, rd, h, d), h, Future(rd, bytes), l, bytes', m, e, rd.dry)
  {
    hide SlowSym, CodeWord, Legal, LengthEntry, Unpack, ByteVals, Stuff, CodeOf, Val;
    if |rd.buf| < 8 {
      l, bytes' := SlowAlways(data, lim, rd, h, d, 1, bytes, m, e);
    } else if d.lookNbits[Val8(rd.buf)] == 0 {
      l, bytes' := SlowAlways(data, lim, rd, h, d, 9, bytes, m, e);
    } else {
      var f := Future(rd, bytes);
      assert f[..8] == rd.buf[..8];
      var q, n := EntryCode(h, d, f);
      l, bytes' := n, bytes;
      assert f[n..] == rd.buf[n..] + Unpack(bytes);
      assert CodeWord(h.bits, q, n) <= Seventeen(f);
    }
  }

  /** HUFF_DECODE, whatever the data: the symbol whose code word comes next, zeros following the data if need be, or 0
      if 17 bits are no code word. */
  lemma SymAlways(data: seq<nat>, lim: nat, rd: Rd, h: HuffTbl, d: DTbl, bytes: seq<nat>, m: nat, e: nat)
    returns (l: nat, bytes': seq<nat>)
    requires lim <= |data| && e <= lim && TableOk(h, d) && Ahead(data, rd, bytes, m, e)
    ensures Decodes17(data, GetSym(data, lim, rd, h, d), h, Future(rd, bytes), l, bytes', m, e, rd.dry)
  {
    hide Fill, LookUp, Decodes17, TableOk;
    if |rd.buf| < 8 {
      var b1 := FillKeepsFuture(data, lim, rd, 0, bytes, m, e);
      l, bytes' := LookAlways(data, lim, Fill(data, lim, rd, 0).value, h, d, b1, m, e);
    } else {
      l, bytes' := LookAlways(data, lim, rd, h, d, bytes, m, e);
    }
  }
}
