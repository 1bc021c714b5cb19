/** What the writer of BitWriter emits, the reader of BitReader fetches: the reservoir
    plus the unread bytes hold exactly the bits written, up to the next marker. */
module BitChannel {
  import opened Bits
  import opened HuffmanTables
  import opened DerivedTables
  import opened BitWriter
  import opened BitReader

  function Unpack(bytes: seq<nat>): seq<bool> {
    if bytes == [] then [] else BitsOf(bytes[0], 8) + Unpack(bytes[1..])
  }

  lemma {:induction false} UnpackPack(bits: seq<bool>)
    requires |bits| % 8 == 0
    ensures Unpack(Pack(bits)) == bits
  {
    if bits != [] {
      UnpackPack(bits[8..]);
      BitsVal(bits[..8]);
      assert Pack(bits)[1..] == Pack(bits[8..]);
      assert bits == bits[..8] + bits[8..];
    }
  }

  lemma {:induction false} PackBytes(bits: seq<bool>)
    ensures ByteVals(Pack(bits))
  {
    if |bits| >= 8 {
      PackBytes(bits[8..]);
      Pow2Values();
    }
  }

  ghost predicate ByteVals(bytes: seq<nat>) {
    forall i :: 0 <= i < |bytes| ==> bytes[i] < 256
  }

  /** The unread input is `bytes`, stuffed, then the marker m, which ends at position e. */
  ghost predicate Ahead(data: seq<nat>, rd: Rd, bytes: seq<nat>, m: nat, e: nat) {
    && 0 < m < 0xFF && e <= |data| && ByteVals(bytes)
    && if rd.marker == 0 then rd.pos <= e && data[rd.pos..e] == Stuff(bytes) + [0xFF, m]
       else rd.marker == m && rd.pos == e && bytes == []
  }

  /** All bits still to come in this segment. */
  function Future(rd: Rd, bytes: seq<nat>): seq<bool> {
    rd.buf + Unpack(bytes)
  }

  lemma NextAhead(data: seq<nat>, rd: Rd, bytes: seq<nat>, m: nat, e: nat)
    requires rd.marker == 0 && Ahead(data, rd, bytes, m, e)
    ensures rd.pos + 1 < e
    ensures bytes == [] ==> data[rd.pos] == 0xFF && data[rd.pos + 1] == m && rd.pos + 2 == e
    ensures bytes != [] && bytes[0] != 0xFF ==> data[rd.pos] == bytes[0]
    ensures bytes != [] && bytes[0] == 0xFF ==> data[rd.pos] == 0xFF && data[rd.pos + 1] == 0
    ensures bytes != [] ==> Ahead(data, Loaded(rd, bytes[0]), bytes[1..], m, e)
  {
    var rest := data[rd.pos..e];
    if bytes == [] {
      assert rest == [0xFF, m];
      assert rest[0] == data[rd.pos] && rest[1] == data[rd.pos + 1];
    } else {
      var sb := StuffByte(bytes[0]);
      assert rest == sb + (Stuff(bytes[1..]) + [0xFF, m]);
      assert rest[..|sb|] == sb;
      assert rest[|sb|..] == Stuff(bytes[1..]) + [0xFF, m];
      assert data[rd.pos + |sb|..e] == rest[|sb|..];
      assert rest[0] == data[rd.pos] == sb[0] && (|sb| == 2 ==> rest[1] == data[rd.pos + 1] == sb[1]);
    }
  }

  lemma {:induction false} FillReads(data: seq<nat>, lim: nat, rd: Rd, n: nat, bytes: seq<nat>, m: nat, e: nat)
    returns (bytes': seq<nat>)
    requires lim <= |data| && n <= MIN_GET_BITS && e <= lim && rd.marker == 0
    requires Ahead(data, rd, bytes, m, e) && n <= |Future(rd, bytes)|
    ensures FillMore(data, lim, rd, n).Some?
    ensures var rd' := FillMore(data, lim, rd, n).value;
      && Ahead(data, rd', bytes', m, e)
      && Future(rd', bytes') == Future(rd, bytes)
      && rd'.dry == rd.dry && (|rd'.buf| >= MIN_GET_BITS || bytes' == [])
    decreases |bytes|
  {
    hide BitsOf, StuffByte;
    bytes' := bytes;
    if |rd.buf| < MIN_GET_BITS {
      FillStep(data, lim, rd, n, bytes, m, e);
      if bytes != [] {
        hide FillMore, Ahead, Future;
        LoadedFuture(rd, bytes);
        bytes' := FillReads(data, lim, Loaded(rd, bytes[0]), n, bytes[1..], m, e);
      }
    }
  }

  /** Loading a byte into the reservoir leaves the bits to come as they were. */
  lemma LoadedFuture(rd: Rd, bytes: seq<nat>)
    requires bytes != []
    ensures Future(Loaded(rd, bytes[0]), bytes[1..]) == Future(rd, bytes)
  {
    hide BitsOf, StuffByte;
  }

  /** The reservoir after one more byte, stuffing skipped. */
  function Loaded(rd: Rd, b: nat): Rd {
    rd.(buf := rd.buf + BitsOf(b, 8), pos := rd.pos + |StuffByte(b)|)
  }

  lemma {:induction false} FillStep(data: seq<nat>, lim: nat, rd: Rd, n: nat, bytes: seq<nat>, m: nat, e: nat)
    requires lim <= |data| && n <= MIN_GET_BITS && e <= lim && rd.marker == 0 && |rd.buf| < MIN_GET_BITS
    requires Ahead(data, rd, bytes, m, e) && n <= |Future(rd, bytes)|
    ensures bytes == [] ==> FillMore(data, lim, rd, n) == Some(rd.(pos := e, marker := m))
    ensures bytes != [] ==>
      && Ahead(data, Loaded(rd, bytes[0]), bytes[1..], m, e)
      && FillMore(data, lim, rd, n) == FillMore(data, lim, Loaded(rd, bytes[0]), n)
  {
    hide Ahead, Future, BitsOf;
    NextAhead(data, rd, bytes, m, e);
    LastAhead(data, rd, bytes, m, e);
  }

  lemma LastAhead(data: seq<nat>, rd: Rd, bytes: seq<nat>, m: nat, e: nat)
    requires Ahead(data, rd, bytes, m, e)
    ensures 0 < m < 0xFF && (bytes == [] ==> |Future(rd, bytes)| == |rd.buf|)
  {}

  /** jpeg_fill_bit_buffer never changes what is still to come. */
  lemma FillKeepsFuture(data: seq<nat>, lim: nat, rd: Rd, n: nat, bytes: seq<nat>, m: nat, e: nat)
    returns (bytes': seq<nat>)
    requires lim <= |data| && n <= MIN_GET_BITS && e <= lim
    requires Ahead(data, rd, bytes, m, e) && n <= |Future(rd, bytes)|
    ensures Fill(data, lim, rd, n).Some?
    ensures var rd' := Fill(data, lim, rd, n).value;
      && Ahead(data, rd', bytes', m, e)
      && Future(rd', bytes') == Future(rd, bytes)
      && rd'.dry == rd.dry && (|rd'.buf| >= MIN_GET_BITS || bytes' == [])
  {
    if rd.marker == 0 {
      bytes' := FillReads(data, lim, rd, n, bytes, m, e);
    } else {
      bytes' := bytes;
    }
  }

  /** The fetch returns v and leaves the bits `later` to come. */
  ghost predicate Delivers(data: seq<nat>, f: Fetched, v: nat, later: seq<bool>, bytes: seq<nat>, m: nat, e: nat,
                           dry: bool) {
    f.Got? && f.v == v && Ahead(data, f.rd, bytes, m, e) && Future(f.rd, bytes) == later && f.rd.dry == dry
  }

  /** GET_BITS returns the next n bits written. */
  lemma BitsRead(data: seq<nat>, lim: nat, rd: Rd, n: nat, bytes: seq<nat>, m: nat, e: nat)
    returns (bytes': seq<nat>)
    requires lim <= |data| && n <= MIN_GET_BITS && e <= lim
    requires Ahead(data, rd, bytes, m, e) && n <= |Future(rd, bytes)|
    ensures Delivers(data, GetBits(data, lim, rd, n), Val(Future(rd, bytes)[..n]), Future(rd, bytes)[n..], bytes', m,
      e, rd.dry)
  {
    bytes' := bytes;
    var r := rd;
    if |rd.buf| < n {
      bytes' := FillKeepsFuture(data, lim, rd, n, bytes, m, e);
      r := Fill(data, lim, rd, n).value;
    }
    var f := Future(r, bytes');
    assert f[..n] == r.buf[..n];
    assert f[n..] == r.buf[n..] + Unpack(bytes');
  }

  /** The loop of jpeg_huff_decode stops exactly at the end of the code. */
  lemma {:induction false} LongCodeReads(data: seq<nat>, lim: nat, rd: Rd, h: HuffTbl, d: DTbl, code: nat, k: nat,
                         p: nat, l: nat, bytes: seq<nat>, m: nat, e: nat) returns (bytes': seq<nat>)
    requires lim <= |data| && e <= lim && PartialCode(h, d, code, k) && Ahead(data, rd, bytes, m, e)
    requires HasLen(h.bits, p, l) && k <= l && code == Val(CodeWord(h.bits, p, l)[..k])
    requires CodeWord(h.bits, p, l)[k..] <= Future(rd, bytes)
    ensures p < 256
    ensures Delivers(data, LongCode(data, lim, rd, h, d, code, k), h.huffval[p], Future(rd, bytes)[l - k..], bytes',
      m, e, rd.dry)
    decreases l - k
  {
    hide Ahead, Future, CodeWord, LongCode, Val, Decodes, Legal, Next;
    var f := Future(rd, bytes);
    if k < l {
      var rd1, code1, b1 := LongStepReads(data, lim, rd, h, d, code, k, p, l, bytes, m, e);
      bytes' := LongCodeReads(data, lim, rd1, h, d, code1, k + 1, p, l, b1, m, e);
      assert f[1..][l - k - 1..] == f[l - k..];
    } else {
      bytes' := bytes;
      LastBitOfCode(h, d, p, l);
      LongEnd(data, lim, rd, h, d, code, l);
      SameValues(h, d);
      assert f[0..] == f;
    }
  }

  lemma SameValues(h: HuffTbl, d: DTbl)
    requires TableOk(h, d)
    ensures d.huffval == h.huffval
  {}

  lemma LongStepReads(data: seq<nat>, lim: nat, rd: Rd, h: HuffTbl, d: DTbl, code: nat, k: nat,
                      p: nat, l: nat, bytes: seq<nat>, m: nat, e: nat)
    returns (rd1: Rd, code1: nat, bytes1: seq<nat>)
    requires lim <= |data| && e <= lim && PartialCode(h, d, code, k) && Ahead(data, rd, bytes, m, e)
    requires HasLen(h.bits, p, l) && k < l && code == Val(CodeWord(h.bits, p, l)[..k])
    requires CodeWord(h.bits, p, l)[k..] <= Future(rd, bytes)
    ensures PartialCode(h, d, code1, k + 1) && code1 == Val(CodeWord(h.bits, p, l)[..k + 1])
    ensures LongCode(data, lim, rd, h, d, code, k) == LongCode(data, lim, rd1, h, d, code1, k + 1)
    ensures Ahead(data, rd1, bytes1, m, e) && Future(rd1, bytes1) == Future(rd, bytes)[1..] && rd1.dry == rd.dry
    ensures CodeWord(h.bits, p, l)[k + 1..] <= Future(rd1, bytes1)
  {
    hide GetBits, LongCode;
    LengthFacts(h, d, k);
    LongCodePrefix(h.bits, p, l, k);
    LongStep(data, lim, rd, h, d, code, k);
    bytes1 := BitsRead(data, lim, rd, 1, bytes, m, e);
    NextBitOfCode(CodeWord(h.bits, p, l), Future(rd, bytes), k);
    rd1 := GetBits(data, lim, rd, 1).rd;
    code1 := 2 * code + GetBits(data, lim, rd, 1).v;
  }

  lemma NextBitOfCode(w: seq<bool>, f: seq<bool>, k: nat)
    requires k < |w| && w[k..] <= f
    ensures 2 * Val(w[..k]) + Val(f[..1]) == Val(w[..k + 1]) && w[k + 1..] <= f[1..]
  {
    OneBit(f[..1]);
    assert f[0] == w[k..][0] == w[k];
    assert w[..k + 1][..k] == w[..k] && w[..k + 1][k] == w[k];
    assert w[k + 1..] == w[k..][1..];
  }

  lemma LastBitOfCode(h: HuffTbl, d: DTbl, p: nat, l: nat)
    requires TableOk(h, d) && HasLen(h.bits, p, l)
    ensures var code := Val(CodeWord(h.bits, p, l)[..l]);
      code <= d.maxcode[l] && code + d.valoffset[l] == p < 256
  {
    CountMono(h.bits, l, 16);
    LengthFacts(h, d, l);
    assert CodeWord(h.bits, p, l)[..l] == CodeWord(h.bits, p, l);
    CodeFits(h.bits, p, l);
    ValBits(CodeOf(h.bits, p, l), l);
  }

  lemma {:induction false} OneBit(s: seq<bool>)
    requires |s| == 1
    ensures Val(s) == if s[0] then 1 else 0
  {
    assert Val(s[..0]) == 0;
  }

  /** A lookahead entry belongs to the code that the 8 bits start with. */
  lemma EntryCode(h: HuffTbl, d: DTbl, f: seq<bool>) returns (q: nat, n: nat)
    requires TableOk(h, d) && |f| >= 8 && d.lookNbits[Val8(f)] != 0
    ensures n == d.lookNbits[Val8(f)] && HasLen(h.bits, q, n) && q < 256
    ensures d.lookSym[Val8(f)] == h.huffval[q] && CodeWord(h.bits, q, n) <= f
  {
    var x := Val8(f);
    n := d.lookNbits[x];
    LookBits(h, d, x);
    q := Count(h.bits, n - 1) + Shr(x, 8 - n) - 2 * Next(h.bits, n - 1);
    assert CodeOf(h.bits, q, n) == Shr(x, 8 - n);
    BitsVal(f[..8]);
    BitsSplit(x, n, 8 - n);
    assert f[..8][..n] == f[..n];
  }

  /** At most one code word is a prefix of a bit string. */
  lemma OneCode(bits: seq<nat>, f: seq<bool>, p: nat, l: nat, q: nat, n: nat)
    requires |bits| == 17 && Legal(bits) && HasLen(bits, p, l) && HasLen(bits, q, n)
    requires CodeWord(bits, p, l) <= f && CodeWord(bits, q, n) <= f
    ensures p == q && l == n
  {
    if p == q {
      LenUnique(bits, p, l, n);
    } else if l <= n {
      PrefixFree(bits, p, l, q, n);
      assert false;
    } else {
      PrefixFree(bits, q, n, p, l);
      assert false;
    }
  }

  /** The first k bits of a string that starts with a code of length at most k. */
  lemma {:induction false} ShortCodeBelow(bits: seq<nat>, f: seq<bool>, p: nat, l: nat, k: nat)
    requires |bits| == 17 && Legal(bits) && HasLen(bits, p, l) && CodeWord(bits, p, l) <= f
    requires l <= k <= |f| && k <= 16
    ensures Val(f[..k]) < Next(bits, k)
  {
    var v := CodeOf(bits, p, l);
    var t := f[l..k];
    assert f[..k] == CodeWord(bits, p, l) + t;
    CodeFits(bits, p, l);
    ValBits(v, l);
    ValConcat(CodeWord(bits, p, l), t);
    BelowNext(bits, v, Val(t), l, k);
  }

  lemma BelowNext(bits: seq<nat>, v: nat, t: nat, l: nat, k: nat)
    requires l <= k < |bits| && v < Next(bits, l) && t < Pow2(k - l)
    ensures Shl(v, k - l) + t < Next(bits, k)
  {
    ShlAdd(v, 1, k - l);
    ShlOne(k - l);
    ShlMono(v + 1, Next(bits, l), k - l);
    NextGrows(bits, l, k);
  }

  lemma {:induction false} ShlMono(a: nat, b: nat, n: nat)
    requires a <= b
    ensures Shl(a, n) <= Shl(b, n)
  {
    if n > 0 { ShlMono(a, b, n - 1); }
  }

  /** HUFF_DECODE returns the symbol whose code comes next, by either path. */
  lemma SymRead(data: seq<nat>, lim: nat, rd: Rd, h: HuffTbl, d: DTbl, p: nat, l: nat, bytes: seq<nat>, m: nat, e: nat)
    returns (bytes': seq<nat>)
    requires lim <= |data| && e <= lim && TableOk(h, d) && Ahead(data, rd, bytes, m, e)
    requires HasLen(h.bits, p, l) && CodeWord(h.bits, p, l) <= Future(rd, bytes)
    ensures p < 256
    ensures Delivers(data, GetSym(data, lim, rd, h, d), h.huffval[p], Future(rd, bytes)[l..], bytes', m, e, rd.dry)
  {
    hide Fill, LookUp;
    if |rd.buf| < 8 {
      bytes' := FillKeepsFuture(data, lim, rd, 0, bytes, m, e);
      bytes' := LookUpRead(data, lim, Fill(data, lim, rd, 0).value, h, d, p, l, bytes', m, e);
    } else {
      bytes' := LookUpRead(data, lim, rd, h, d, p, l, bytes, m, e);
    }
  }

  lemma LookUpRead(data: seq<nat>, lim: nat, rd: Rd, h: HuffTbl, d: DTbl, p: nat, l: nat, bytes: seq<nat>, m: nat,
                   e: nat)
    returns (bytes': seq<nat>)
    requires lim <= |data| && e <= lim && TableOk(h, d) && Ahead(data, rd, bytes, m, e)
    requires HasLen(h.bits, p, l) && CodeWord(h.bits, p, l) <= Future(rd, bytes)
    ensures p < 256
    ensures Delivers(data, LookUp(data, lim, rd, h, d), h.huffval[p], Future(rd, bytes)[l..], bytes', m, e, rd.dry)
  {
    hide SlowSym, CodeWord, Legal, LengthEntry, Unpack, ByteVals, Stuff, CodeOf, Val;
    var f := Future(rd, bytes);
    if |rd.buf| < 8 {
      bytes' := SlowSymRead(data, lim, rd, h, d, 1, p, l, bytes, m, e);
    } else {
      assert f[..8] == rd.buf[..8];
      var nb := d.lookNbits[Val8(rd.buf)];
      if nb != 0 {
        bytes' := bytes;
        var q, n := EntryCode(h, d, f);
        OneCode(h.bits, f, p, l, q, n);
        assert f[l..] == rd.buf[l..] + Unpack(bytes');
      } else {
        if l <= 8 { ShortCodeBelow(h.bits, f, p, l, 8); }
        bytes' := SlowSymRead(data, lim, rd, h, d, 9, p, l, bytes, m, e);
      }
    }
  }

  lemma SlowSymRead(data: seq<nat>, lim: nat, rd: Rd, h: HuffTbl, d: DTbl, k: nat, p: nat, l: nat, bytes: seq<nat>,
                    m: nat, e: nat)
    returns (bytes': seq<nat>)
    requires lim <= |data| && e <= lim && TableOk(h, d) && Ahead(data, rd, bytes, m, e)
    requires HasLen(h.bits, p, l) && CodeWord(h.bits, p, l) <= Future(rd, bytes) && k <= l
    requires k == 1 || (k == 9 && |rd.buf| >= 8 && d.lookNbits[Val8(rd.buf)] == 0)
    ensures p < 256
    ensures Delivers(data, SlowSym(data, lim, rd, h, d, k), h.huffval[p], Future(rd, bytes)[l..], bytes', m, e, rd.dry)
  {
    var f, w := Future(rd, bytes), CodeWord(h.bits, p, l);
    bytes' := BitsRead(data, lim, rd, k, bytes, m, e);
    var Got(code, rd1) := GetBits(data, lim, rd, k);
    SlowStart(data, lim, rd, h, d, k);
    assert f[..k] == w[..k];
    assert w[k..] <= f[k..];
    bytes' := LongCodeReads(data, lim, rd1, h, d, code, k, p, l, bytes', m, e);
    assert f[k..][l - k..] == f[l..];
  }

  /** The bits that fill up the last byte are ones, and no code word of any table starts there, so that a decoder never
      takes them for a symbol. */
  lemma PaddingIsNoCode(table: seq<nat>, bits: seq<bool>, p: nat, l: nat)
    requires |table| == 17 && Legal(table) && HasLen(table, p, l)
    ensures |bits| <= |Pad(bits)| < |bits| + 8 && |Pad(bits)| % 8 == 0
    ensures forall i :: |bits| <= i < |Pad(bits)| ==> Pad(bits)[i]
    ensures !(CodeWord(table, p, l) <= Pad(bits)[|bits|..])
  {
    CodeFits(table, p, l);
    var w, pad := CodeWord(table, p, l), Pad(bits)[|bits|..];
    assert forall i :: 0 <= i < |pad| ==> pad[i];
    assert w <= pad ==> w == Ones(l);
  }
}
