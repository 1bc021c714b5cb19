/** The bit reservoir of jdhuff.c and jdhuff.h: jpeg_fill_bit_buffer, the
    CHECK_BIT_BUFFER/GET_BITS macros, HUFF_DECODE and jpeg_huff_decode.

    The specification functions describe one fetch on the value Rd. The source is a byte
    sequence `data` of which only the first `lim` bytes have arrived; a fetch that would
    read past them starves, which is how the decoder suspends. */
module BitReader {
  import opened Bits
  import opened HuffmanTables
  import opened DerivedTables

  const MIN_GET_BITS: nat := 25

  /** Bits fetched but not used, next input byte, marker hit (0 if none), insufficient_data. */
  datatype Rd = Rd(buf: seq<bool>, pos: nat, marker: nat, dry: bool)

  datatype Fetched = Got(v: nat, rd: Rd) | Starved

  /** A table definition together with the tables derived from it. */
  ghost predicate TableOk(h: HuffTbl, d: DTbl) {
    h.WellTyped() && Legal(h.bits) && Decodes(h, d)
  }

  ghost predicate Bytes(data: seq<nat>) {
    forall i :: 0 <= i < |data| ==> data[i] < 256
  }

  /** The first non-FF byte at or after position q, or lim. */
  function SkipFF(data: seq<nat>, lim: nat, q: nat): (r: nat)
    requires lim <= |data|
    ensures q <= r && (r < lim ==> data[r] != 0xFF)
    decreases lim - q
  {
    if q < lim && data[q] == 0xFF then SkipFF(data, lim, q + 1) else q
  }

  /** Nothing more can be read: stuff zero bits if fewer than n are left. */
  function NoMore(rd: Rd, n: nat): (r: Rd)
    requires n <= MIN_GET_BITS
    ensures |r.buf| >= n && r.marker == rd.marker
  {
    if n > |rd.buf| then rd.(buf := rd.buf + Zeros(MIN_GET_BITS - |rd.buf|), dry := true) else rd
  }

  function FillMore(data: seq<nat>, lim: nat, rd: Rd, n: nat): (r: Option<Rd>)
    requires lim <= |data| && n <= MIN_GET_BITS
    ensures r.Some? ==> |r.value.buf| >= n
    decreases lim - rd.pos
  {
    if |rd.buf| >= MIN_GET_BITS then Some(rd)
    else if rd.pos >= lim then None
    else if data[rd.pos] != 0xFF then
      FillMore(data, lim, rd.(buf := rd.buf + BitsOf(data[rd.pos], 8), pos := rd.pos + 1), n)
    else
      var q := SkipFF(data, lim, rd.pos + 1);
      if q >= lim then None
      else if data[q] == 0 then
        FillMore(data, lim, rd.(buf := rd.buf + BitsOf(0xFF, 8), pos := q + 1), n)
      else Some(NoMore(rd.(pos := q + 1, marker := data[q]), n))
  }

  function Fill(data: seq<nat>, lim: nat, rd: Rd, n: nat): (r: Option<Rd>)
    requires lim <= |data| && n <= MIN_GET_BITS
    ensures r.Some? ==> |r.value.buf| >= n
  {
    if rd.marker == 0 then FillMore(data, lim, rd, n) else Some(NoMore(rd, n))
  }

  /** CHECK_BIT_BUFFER then GET_BITS. */
  function GetBits(data: seq<nat>, lim: nat, rd: Rd, n: nat): Fetched
    requires lim <= |data| && n <= MIN_GET_BITS
  {
    var r := if |rd.buf| < n then Fill(data, lim, rd, n) else Some(rd);
    if r.None? then Starved
    else Got(Val(r.value.buf[..n]), r.value.(buf := r.value.buf[n..]))
  }

  /** The loop of jpeg_huff_decode, entered with the first l bits of the code in hand. */
  ghost function LongCode(data: seq<nat>, lim: nat, rd: Rd, h: HuffTbl, d: DTbl, code: nat, l: nat): Fetched
    requires lim <= |data| && TableOk(h, d) && 1 <= l <= 17 && code < Pow2(l)
    requires 2 * Next(h.bits, l - 1) <= code
    decreases 17 - l
  {
    SentinelStops(code, l);
    if code > d.maxcode[l] then
      match GetBits(data, lim, rd, 1)
      case Starved => Starved
      case Got(b, rd') =>
        BitVal(rd, data, lim);
        LongCode(data, lim, rd', h, d, 2 * code + b, l + 1)
    else if l > 16 then Got(0, rd)
    else
      IndexInTable(h, d, code, l);
      Got(d.huffval[code + d.valoffset[l]], rd)
  }

  lemma {:induction false} SentinelStops(code: nat, l: nat)
    requires l <= 17 && code < Pow2(l)
    ensures code <= 0xFFFFF
  {
    Pow2Mono(l, 17);
    Pow2Values();
    assert Pow2(17) == 2 * Pow2(16);
  }

  lemma BitVal(rd: Rd, data: seq<nat>, lim: nat)
    requires lim <= |data|
    ensures var f := GetBits(data, lim, rd, 1); f.Got? ==> f.v < 2
  {}

  /** A code within the range of its length indexes the listed symbols. */
  lemma {:induction false} IndexInTable(h: HuffTbl, d: DTbl, code: nat, l: nat)
    requires TableOk(h, d) && 1 <= l <= 16 && 2 * Next(h.bits, l - 1) <= code <= d.maxcode[l]
    ensures 0 <= code + d.valoffset[l] < Count(h.bits, 16) <= 256
    ensures HasLen(h.bits, code + d.valoffset[l], l)
    ensures CodeOf(h.bits, code + d.valoffset[l], l) == code
  {
    assert LengthEntry(h, l, d.maxcode[l], d.valoffset[l]);
    CountMono(h.bits, l, 16);
  }

  /** jpeg_huff_decode with min_bits = l. */
  ghost function SlowSym(data: seq<nat>, lim: nat, rd: Rd, h: HuffTbl, d: DTbl, l: nat): Fetched
    requires lim <= |data| && TableOk(h, d) && (l == 1 || l == 9)
    requires l == 9 ==> |rd.buf| >= 8 && d.lookNbits[Val8(rd.buf)] == 0
  {
    match GetBits(data, lim, rd, l)
    case Starved => Starved
    case Got(code, rd') =>
      SlowStart(data, lim, rd, h, d, l);
      LongCode(data, lim, rd', h, d, code, l)
  }

  function Val8(s: seq<bool>): (v: nat)
    requires |s| >= 8
    ensures v < 256
  {
    Pow2Values();
    Val(s[..8])
  }

  /** Fetching keeps the bits already in the reservoir. */
  lemma {:induction false} FillKeeps(data: seq<nat>, lim: nat, rd: Rd, n: nat)
    requires lim <= |data| && n <= MIN_GET_BITS && FillMore(data, lim, rd, n).Some?
    ensures rd.buf <= FillMore(data, lim, rd, n).value.buf
    decreases lim - rd.pos
  {
    hide BitsOf, SkipFF;
    if |rd.buf| >= MIN_GET_BITS {
    } else if data[rd.pos] != 0xFF {
      FillKeeps(data, lim, rd.(buf := rd.buf + BitsOf(data[rd.pos], 8), pos := rd.pos + 1), n);
    } else {
      var q := SkipFF(data, lim, rd.pos + 1);
      if data[q] == 0 {
        FillKeeps(data, lim, rd.(buf := rd.buf + BitsOf(0xFF, 8), pos := q + 1), n);
      }
    }
  }

  lemma {:induction false} SlowStart(data: seq<nat>, lim: nat, rd: Rd, h: HuffTbl, d: DTbl, l: nat)
    requires lim <= |data| && TableOk(h, d) && (l == 1 || l == 9)
    requires l == 9 ==> |rd.buf| >= 8 && d.lookNbits[Val8(rd.buf)] == 0
    requires GetBits(data, lim, rd, l).Got?
    ensures 2 * Next(h.bits, l - 1) <= GetBits(data, lim, rd, l).v < Pow2(l)
  {
    if l == 9 {
      var r := if |rd.buf| < l then Fill(data, lim, rd, l) else Some(rd);
      if |rd.buf| < l && rd.marker == 0 { FillKeeps(data, lim, rd, l); }
      var s := r.value.buf[..9];
      assert s[..8] == rd.buf[..8];
      assert Val(s) == 2 * Val(s[..8]) + (if s[8] then 1 else 0);
      assert Val8(rd.buf) >= Next(h.bits, 8);
    }
  }

  /** HUFF_DECODE: the lookahead tables when 8 bits are at hand, else the slow way. */
  ghost function GetSym(data: seq<nat>, lim: nat, rd: Rd, h: HuffTbl, d: DTbl): Fetched
    requires lim <= |data| && TableOk(h, d)
  {
    var r := if |rd.buf| < 8 then Fill(data, lim, rd, 0) else Some(rd);
    if r.None? then Starved else LookUp(data, lim, r.value, h, d)
  }

  ghost function LookUp(data: seq<nat>, lim: nat, rd: Rd, h: HuffTbl, d: DTbl): Fetched
    requires lim <= |data| && TableOk(h, d)
  {
    if |rd.buf| < 8 then SlowSym(data, lim, rd, h, d, 1)
    else
      var look := Val8(rd.buf);
      var nb := d.lookNbits[look];
      if nb != 0 then
        LookBits(h, d, look);
        Got(d.lookSym[look], rd.(buf := rd.buf[nb..]))
      else SlowSym(data, lim, rd, h, d, 9)
  }

  lemma LookBits(h: HuffTbl, d: DTbl, look: nat)
    requires TableOk(h, d) && look < 256 && d.lookNbits[look] != 0
    ensures LookEntry(h, look, d.lookNbits[look], d.lookSym[look])
  {}

  // ---- The implementation: get_buffer is a 32-bit accumulator ----

  /** The registers get_buffer and bits_left, the input pointer, and the two decoder
      fields that jpeg_fill_bit_buffer may set. */
  datatype Work = Work(getBuffer: nat, bitsLeft: nat, next: nat, marker: nat, dry: bool)

  function Abs(w: Work): Rd {
    Rd(BitsOf(w.getBuffer, w.bitsLeft), w.next, w.marker, w.dry)
  }

  /** get_buffer = (get_buffer << 8) | c, in 32 bits. */
  function Push(w: Work, c: nat): Work {
    w.(getBuffer := Low(Or(Shl(w.getBuffer, 8), c), 32), bitsLeft := w.bitsLeft + 8)
  }

  lemma {:induction false} PushBits(w: Work, c: nat)
    requires w.bitsLeft <= 24 && c < 256
    ensures Abs(Push(w, c)) == Abs(w).(buf := Abs(w).buf + BitsOf(c, 8))
  {
    Pow2Values();
    AppendLow(w.getBuffer, c, w.bitsLeft, 8, 32);
  }

  lemma AppendLow(g: nat, c: nat, n: nat, m: nat, width: nat)
    requires c < Pow2(m) && n + m <= width
    ensures BitsOf(Low(Or(Shl(g, m), c), width), n + m) == BitsOf(g, n) + BitsOf(c, m)
  {
    OrDisjoint(g, c, m);
    BitsConcat(g, c, n, m);
    BitsLow(Or(Shl(g, m), c), n + m, width);
  }

  method FillBitBuffer(data: seq<nat>, lim: nat, w0: Work, nbits: nat) returns (ok: bool, w: Work)
    requires lim <= |data| && Bytes(data) && nbits <= MIN_GET_BITS && w0.bitsLeft <= 32
    ensures ok <==> Fill(data, lim, Abs(w0), nbits).Some?
    ensures ok ==> Abs(w) == Fill(data, lim, Abs(w0), nbits).value && w.bitsLeft <= 32
    ensures !ok ==> w == w0
  {
    hide BitsOf, Low, Or, Shl;
    w := w0;
    if w.marker == 0 {
      while w.bitsLeft < MIN_GET_BITS
        invariant w.bitsLeft <= 32 && w.marker == 0
        invariant FillMore(data, lim, Abs(w0), nbits) == FillMore(data, lim, Abs(w), nbits)
        decreases lim - w.next
      {
        if w.next >= lim {
          return false, w0;
        }
        var c, next := data[w.next], w.next + 1;
        if c == 0xFF {
          ghost var first := next;
          c := 0xFF;
          while c == 0xFF
            invariant first <= next
            invariant c == 0xFF ==> SkipFF(data, lim, first) == SkipFF(data, lim, next)
            invariant c != 0xFF ==> first < next <= lim && SkipFF(data, lim, first) == next - 1 && c == data[next - 1]
            decreases c == 0xFF, lim - next
          {
            if next >= lim {
              return false, w0;
            }
            c := data[next];
            next := next + 1;
          }
          if c == 0 {
            c := 0xFF;
          } else {
            w := ZeroStuff(w.(next := next, marker := c), nbits);
            return true, w;
          }
        }
        PushBits(w, c);
        w := Push(w, c).(next := next);
      }
      ok := true;
    } else {
      w := ZeroStuff(w, nbits);
      ok := true;
    }
  }

  /** The code at label no_more_bytes. */
  method ZeroStuff(w0: Work, nbits: nat) returns (w: Work)
    requires nbits <= MIN_GET_BITS && w0.bitsLeft <= 32
    ensures Abs(w) == NoMore(Abs(w0), nbits) && w.bitsLeft <= 32
  {
    w := w0;
    if nbits > w.bitsLeft {
      var n := MIN_GET_BITS - w.bitsLeft;
      ZerosBits(w.getBuffer, w.bitsLeft, n, 32);
      w := w.(getBuffer := Low(Shl(w.getBuffer, n), 32), bitsLeft := MIN_GET_BITS, dry := true);
    }
  }

  lemma ZerosBits(g: nat, n: nat, m: nat, width: nat)
    requires n + m <= width
    ensures BitsOf(Low(Shl(g, m), width), n + m) == BitsOf(g, n) + Zeros(m)
  {
    BitsConcat(g, 0, n, m);
    BitsLow(Shl(g, m), n + m, width);
    ValZeros(m);
    BitsVal(Zeros(m));
  }

  /** CHECK_BIT_BUFFER followed by GET_BITS. */
  method TakeBits(data: seq<nat>, lim: nat, w0: Work, nbits: nat) returns (ok: bool, v: nat, w: Work)
    requires lim <= |data| && Bytes(data) && nbits <= 16 && w0.bitsLeft <= 32
    ensures ok <==> GetBits(data, lim, Abs(w0), nbits).Got?
    ensures ok ==> GetBits(data, lim, Abs(w0), nbits) == Got(v, Abs(w)) && w.bitsLeft <= 32
    ensures !ok ==> w == w0
  {
    w := w0;
    if w.bitsLeft < nbits {
      ok, w := FillBitBuffer(data, lim, w0, nbits);
      if !ok {
        return false, 0, w0;
      }
    }
    ok := true;
    FieldOfBits(w.getBuffer, w.bitsLeft, nbits);
    w := w.(bitsLeft := w.bitsLeft - nbits);
    v := Low(Shr(w.getBuffer, w.bitsLeft), nbits);
  }

  /** jpeg_huff_decode. */
  method HuffDecodeLong(data: seq<nat>, lim: nat, w0: Work, ghost h: HuffTbl, d: DTbl, minBits: nat)
    returns (ok: bool, result: nat, w: Work)
    requires lim <= |data| && Bytes(data) && TableOk(h, d) && w0.bitsLeft <= 32 && (minBits == 1 || minBits == 9)
    requires minBits == 9 ==> w0.bitsLeft >= 8 && d.lookNbits[Val8(Abs(w0).buf)] == 0
    ensures ok <==> SlowSym(data, lim, Abs(w0), h, d, minBits).Got?
    ensures ok ==> SlowSym(data, lim, Abs(w0), h, d, minBits) == Got(result, Abs(w)) && w.bitsLeft <= 32
    ensures !ok ==> w == w0
  {
    var l := minBits;
    var code;
    ok, code, w := TakeBits(data, lim, w0, l);
    if !ok {
      return false, 0, w0;
    }
    SlowStart(data, lim, Abs(w0), h, d, l);
    ok, result, w := CollectCode(data, lim, w, h, d, code, l);
    if !ok { w := w0; }
  }

  /** Figure F.16: collect the rest of the code one bit at a time. */
  method CollectCode(data: seq<nat>, lim: nat, w0: Work, ghost h: HuffTbl, d: DTbl, code0: nat, l0: nat)
    returns (ok: bool, result: nat, w: Work)
    requires lim <= |data| && Bytes(data) && TableOk(h, d) && w0.bitsLeft <= 32
    requires 1 <= l0 <= 17 && 2 * Next(h.bits, l0 - 1) <= code0 < Pow2(l0)
    ensures ok <==> LongCode(data, lim, Abs(w0), h, d, code0, l0).Got?
    ensures ok ==> LongCode(data, lim, Abs(w0), h, d, code0, l0) == Got(result, Abs(w)) && w.bitsLeft <= 32
  {
    hide LongCode, GetBits, Next, Pow2, Count, Abs, Legal;
    var code: nat, l: nat := code0, l0;
    w := w0;
    while code > d.maxcode[l]
      invariant PartialCode(h, d, code, l) && w.bitsLeft <= 32
      invariant LongCode(data, lim, Abs(w0), h, d, code0, l0) == LongCode(data, lim, Abs(w), h, d, code, l)
      decreases 17 - l
    {
      LongStep(data, lim, Abs(w), h, d, code, l);
      var bit;
      ok, bit, w := TakeBits(data, lim, w, 1);
      if !ok {
        return false, 0, w;
      }
      code := 2 * code + bit;
      l := l + 1;
    }
    ok := true;
    LongEnd(data, lim, Abs(w), h, d, code, l);
    if l > 16 {
      result := 0;
    } else {
      result := d.huffval[code + d.valoffset[l]];
    }
  }

  lemma {:induction false} LongEnd(data: seq<nat>, lim: nat, rd: Rd, h: HuffTbl, d: DTbl, code: nat, l: nat)
    requires lim <= |data| && PartialCode(h, d, code, l) && code <= d.maxcode[l]
    ensures l <= 16 ==> 0 <= code + d.valoffset[l] < 256
    ensures LongCode(data, lim, rd, h, d, code, l) == Got(if l > 16 then 0 else d.huffval[code + d.valoffset[l]], rd)
  {
    if l <= 16 { IndexInTable(h, d, code, l); }
  }

  ghost predicate PartialCode(h: HuffTbl, d: DTbl, code: nat, l: nat) {
    TableOk(h, d) && 1 <= l <= 17 && 2 * Next(h.bits, l - 1) <= code < Pow2(l)
  }

  lemma LongStep(data: seq<nat>, lim: nat, rd: Rd, h: HuffTbl, d: DTbl, code: nat, l: nat)
    requires lim <= |data| && PartialCode(h, d, code, l) && code > d.maxcode[l]
    ensures l <= 16
    ensures match GetBits(data, lim, rd, 1)
      case Starved => LongCode(data, lim, rd, h, d, code, l) == Starved
      case Got(b, rd') =>
        && PartialCode(h, d, 2 * code + b, l + 1)
        && LongCode(data, lim, rd, h, d, code, l) == LongCode(data, lim, rd', h, d, 2 * code + b, l + 1)
  {
    hide GetBits, TableOk, Next, Pow2;
    BitVal(rd, data, lim);
    var f := GetBits(data, lim, rd, 1);
    LongerCode(h, d, code, l, if f.Got? then f.v else 0);
  }

  /** A code beyond the largest one of its length is the start of a longer one. */
  lemma LongerCode(h: HuffTbl, d: DTbl, code: nat, l: nat, b: nat)
    requires PartialCode(h, d, code, l) && code > d.maxcode[l] && b < 2
    ensures l <= 16 && PartialCode(h, d, 2 * code + b, l + 1)
  {
    hide Count, LookFilled, Legal;
    SentinelStops(code, l);
    LengthFacts(h, d, l);
  }

  lemma LengthFacts(h: HuffTbl, d: DTbl, l: nat)
    requires TableOk(h, d) && 1 <= l <= 16
    ensures LengthEntry(h, l, d.maxcode[l], d.valoffset[l])
  {}

  /** The HUFF_DECODE macro. */
  method HuffDecode(data: seq<nat>, lim: nat, w0: Work, ghost h: HuffTbl, d: DTbl)
    returns (ok: bool, result: nat, w: Work)
    requires lim <= |data| && Bytes(data) && TableOk(h, d) && w0.bitsLeft <= 32
    ensures ok <==> GetSym(data, lim, Abs(w0), h, d).Got?
    ensures ok ==> GetSym(data, lim, Abs(w0), h, d) == Got(result, Abs(w)) && w.bitsLeft <= 32
    ensures !ok ==> w == w0
  {
    hide SlowSym, Fill, BitsOf, Val, Shr, Low, Legal, LookEntry;
    w := w0;
    if w.bitsLeft < 8 {
      ok, w := FillBitBuffer(data, lim, w0, 0);
      if !ok {
        return false, 0, w0;
      }
      if w.bitsLeft < 8 {
        ok, result, w := HuffDecodeLong(data, lim, w, h, d, 1);
        if !ok { w := w0; }
        return;
      }
    }
    FieldOfBits(w.getBuffer, w.bitsLeft, 8);
    var look := Low(Shr(w.getBuffer, w.bitsLeft - 8), 8);
    assert look == Val8(Abs(w).buf);
    var nb := d.lookNbits[look];
    if nb != 0 {
      LookBits(h, d, look);
      FieldOfBits(w.getBuffer, w.bitsLeft, nb);
      return true, d.lookSym[look], w.(bitsLeft := w.bitsLeft - nb);
    }
    ok, result, w := HuffDecodeLong(data, lim, w, h, d, 9);
    if !ok { w := w0; }
  }
}
