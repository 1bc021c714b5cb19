/** Building the derived tables: jpeg_make_c_derived_tbl of jchuff.c and
    jpeg_make_d_derived_tbl of jdhuff.c. */
module DerivedTables {
  import opened Bits
  import opened HuffmanTables

  /** huffsize and huffcode hold the length and the value of every code, in code order. */
  ghost predicate CodesListed(bits: seq<nat>, huffsize: seq<nat>, huffcode: seq<nat>, upto: nat)
    requires |bits| == 17
  {
    && |huffsize| == 257 && |huffcode| == 257 && upto <= Count(bits, 16) <= 256
    && (forall p, l :: 0 <= p < Count(bits, 16) && HasLen(bits, p, l) ==> huffsize[p] == l)
    && (forall p, l :: 0 <= p < upto && HasLen(bits, p, l) ==> huffcode[p] == CodeOf(bits, p, l))
  }

  /** Figure C.1: the length of every code. */
  method ListSizes(bits: seq<nat>) returns (ok: bool, huffsize: array<nat>, lastp: nat)
    requires Counts(bits)
    ensures fresh(huffsize) && huffsize.Length == 257
    ensures ok <==> Count(bits, 16) <= 256
    ensures ok ==> SizesListed(bits, huffsize[..], lastp)
  {
    huffsize := new nat[257];
    var p := 0;
    for l := 1 to 17
      invariant p == Count(bits, l - 1) <= 256
      invariant forall q, m :: 0 <= q < p && HasLen(bits, q, m) ==> huffsize[q] == m
    {
      var i := bits[l];
      if p + i > 256 {
        CountMono(bits, l, 16);
        return false, huffsize, 0;
      }
      ghost var start := p;
      while i > 0
        invariant p + i == start + bits[l] <= 256
        invariant start <= p
        invariant forall q, m :: 0 <= q < start && HasLen(bits, q, m) ==> huffsize[q] == m
        invariant forall q :: start <= q < p ==> huffsize[q] == l
      {
        huffsize[p] := l;
        p := p + 1;
        i := i - 1;
      }
      forall q, m | 0 <= q < p && HasLen(bits, q, m) ensures huffsize[q] == m {
        if q >= start { LenUnique(bits, q, l, m); }
      }
    }
    huffsize[p] := 0;
    return true, huffsize, p;
  }

  ghost predicate SizesListed(bits: seq<nat>, huffsize: seq<nat>, lastp: nat)
    requires |bits| == 17
  {
    && |huffsize| == 257 && lastp == Count(bits, 16) <= 256 && huffsize[lastp] == 0
    && forall p, l :: 0 <= p < lastp && HasLen(bits, p, l) ==> huffsize[p] == l
  }

  ghost predicate CodesUpTo(bits: seq<nat>, huffcode: seq<nat>, p: nat)
    requires |bits| == 17 && |huffcode| == 257 && p <= 257
  {
    forall q, l :: 0 <= q < p && HasLen(bits, q, l) ==> huffcode[q] == CodeOf(bits, q, l)
  }

  /** Figure C.2: the code values; fails when some length has no room left for the all-ones code. */
  method ListCodes(bits: seq<nat>, huffsize: array<nat>, lastp: nat) returns (ok: bool, huffcode: array<nat>)
    requires Counts(bits) && SizesListed(bits, huffsize[..], lastp)
    ensures fresh(huffcode) && huffcode.Length == 257
    ensures ok <==> Legal(bits)
    ensures ok ==> CodesListed(bits, huffsize[..], huffcode[..], lastp)
  {
    hide SizesListed, CodesListed, CodesUpTo, Pow2, HasLen, Next, Count, Counts, Legal, Room;
    huffcode := new nat[257];
    ghost var sizes := huffsize[..];
    SizesShape(bits, sizes, lastp);
    var code: nat, p: nat := 0, 0;
    var si: int := huffsize[0];
    FirstSize(bits, sizes, lastp);
    NoCodes(bits, huffcode[..]);
    while huffsize[p] != 0
      invariant p <= lastp && huffsize[..] == sizes
      invariant lastp > 0 ==> 1 <= si <= 17 && p == Count(bits, si - 1) && code == 2 * Next(bits, si - 1)
      invariant lastp > 0 ==> Room(bits, si)
      invariant CodesUpTo(bits, huffcode[..], p)
      decreases 17 - si
    {
      NextSize(bits, sizes, lastp, p, si);
      while huffsize[p] == si
        invariant Count(bits, si - 1) <= p <= Count(bits, si) <= lastp && huffsize[..] == sizes
        invariant code == 2 * Next(bits, si - 1) + (p - Count(bits, si - 1))
        invariant CodesUpTo(bits, huffcode[..], p)
        decreases lastp - p
      {
        AddCode(bits, sizes, lastp, huffcode[..], p, si, code);
        ghost var codes := huffcode[..];
        huffcode[p] := code;
        assert huffcode[..] == codes[p := code];
        p := p + 1;
        code := code + 1;
      }
      EndOfSize(bits, sizes, lastp, p, si);
      if code >= Pow2(si) {
        return false, huffcode;
      }
      code := 2 * code;
      si := si + 1;
    }
    ok := true;
    AllSizesDone(bits, sizes, lastp, p, si, huffcode[..]);
  }

  lemma NoCodes(bits: seq<nat>, huffcode: seq<nat>)
    requires |bits| == 17 && |huffcode| == 257
    ensures CodesUpTo(bits, huffcode, 0)
  {}

  /** Lengths below si leave room for more codes. */
  ghost predicate Room(bits: seq<nat>, si: nat)
    requires |bits| == 17
  {
    forall l :: 0 <= l < si && l <= 16 ==> Next(bits, l) < Pow2(l)
  }

  lemma SizesShape(bits: seq<nat>, sizes: seq<nat>, lastp: nat)
    requires Counts(bits) && SizesListed(bits, sizes, lastp)
    ensures |bits| == 17 && |sizes| == 257 && lastp <= 256 && sizes[lastp] == 0
  {}

  /** The loop starts at the first used length, or does not run at all. */
  lemma {:induction false} FirstSize(bits: seq<nat>, sizes: seq<nat>, lastp: nat)
    requires |bits| == 17 && SizesListed(bits, sizes, lastp)
    ensures lastp > 0 ==>
      1 <= sizes[0] <= 16 && Count(bits, sizes[0] - 1) == 0 == Next(bits, sizes[0] - 1) && Room(bits, sizes[0])
    ensures lastp == 0 ==> sizes[0] == 0
  {
    if lastp > 0 {
      var first := LenExists(bits, 0, 16);
      NoneBelow(bits, first);
    }
  }

  /** While entries remain, the current length is at most 16. */
  lemma NextSize(bits: seq<nat>, sizes: seq<nat>, lastp: nat, p: nat, si: int)
    requires |bits| == 17 && SizesListed(bits, sizes, lastp) && p <= lastp && sizes[p] != 0
    requires 1 <= si <= 17 && p == Count(bits, si - 1)
    ensures si <= 16 && Count(bits, si - 1) <= Count(bits, si) <= lastp
  {
    var cur := LenExists(bits, p, 16);
    if cur < si { CountMono(bits, cur, si - 1); }
    CountMono(bits, si, 16);
  }

  lemma AddCode(bits: seq<nat>, sizes: seq<nat>, lastp: nat, huffcode: seq<nat>, p: nat, si: nat, code: nat)
    requires |bits| == 17 && SizesListed(bits, sizes, lastp) && p <= lastp && |huffcode| == 257
    requires 1 <= si <= 16 && Count(bits, si - 1) <= p <= Count(bits, si) && sizes[p] == si
    requires code == 2 * Next(bits, si - 1) + (p - Count(bits, si - 1)) && CodesUpTo(bits, huffcode, p)
    ensures p < Count(bits, si) && CodesUpTo(bits, huffcode[p := code], p + 1)
  {
    SameLen(bits, sizes, lastp, p, si);
    LenUniqueAll(bits, p, si);
  }

  lemma EndOfSize(bits: seq<nat>, sizes: seq<nat>, lastp: nat, p: nat, si: nat)
    requires |bits| == 17 && SizesListed(bits, sizes, lastp) && p <= lastp
    requires 1 <= si <= 16 && Count(bits, si - 1) <= p <= Count(bits, si) <= lastp && sizes[p] != si
    ensures p == Count(bits, si)
    ensures Next(bits, si) == 2 * Next(bits, si - 1) + (p - Count(bits, si - 1))
    ensures if Next(bits, si) < Pow2(si) then Room(bits, si) ==> Room(bits, si + 1) else !Legal(bits)
  {
    assert p < Count(bits, si) ==> HasLen(bits, p, si);
    hide Pow2;
  }

  lemma {:induction false} AllSizesDone(bits: seq<nat>, sizes: seq<nat>, lastp: nat, p: nat, si: int,
                                        huffcode: seq<nat>)
    requires |bits| == 17 && SizesListed(bits, sizes, lastp) && p <= lastp && sizes[p] == 0 && |huffcode| == 257
    requires lastp > 0 ==> 1 <= si <= 17 && p == Count(bits, si - 1)
    requires lastp > 0 ==> Room(bits, si)
    requires CodesUpTo(bits, huffcode, p)
    ensures Legal(bits) && CodesListed(bits, sizes, huffcode, lastp)
  {
    if p < lastp { var l := LenExists(bits, p, 16); }
    if lastp > 0 {
      SpaceAfterLast(bits, si - 1);
    } else {
      NoneBelow(bits, 17);
    }
  }

  lemma LenUniqueAll(bits: seq<nat>, p: nat, l: nat)
    requires |bits| == 17 && HasLen(bits, p, l)
    ensures forall m :: HasLen(bits, p, m) ==> m == l
  {
    forall m | HasLen(bits, p, m) ensures m == l { LenUnique(bits, p, l, m); }
  }

  /** An entry equal to si at or after the first code of length si is a code of length si. */
  lemma {:induction false} SameLen(bits: seq<nat>, sizes: seq<nat>, lastp: nat, p: nat, si: nat)
    requires |bits| == 17 && SizesListed(bits, sizes, lastp)
    requires 1 <= si <= 16 && Count(bits, si - 1) <= p <= lastp && sizes[p] == si
    ensures p < lastp && HasLen(bits, p, si)
  {
    var l := LenExists(bits, p, 16);
  }

  /** Before the first used length, every count and code is zero. */
  lemma {:induction false} NoneBelow(bits: seq<nat>, first: nat)
    requires |bits| == 17 && 1 <= first <= 17 && Count(bits, first - 1) == 0
    ensures forall l :: 0 <= l < first ==> Next(bits, l) == 0
  {
    if first > 1 { NoneBelow(bits, first - 1); }
  }

  /** Lengths past the longest code need no check. */
  lemma {:induction false} SpaceAfterLast(bits: seq<nat>, last: nat)
    requires |bits| == 17 && last <= 16 && Count(bits, last) == Count(bits, 16)
    requires forall l :: 0 <= l <= last ==> Next(bits, l) < Pow2(l)
    ensures forall l :: 0 <= l <= 16 ==> Next(bits, l) < Pow2(l)
    decreases 16 - last
  {
    if last < 16 {
      CountMono(bits, last + 1, 16);
      SpaceAfterLast(bits, last + 1);
    }
  }

  /** What jpeg_make_c_derived_tbl accepts: legal counts, symbols in range and listed once. */
  ghost predicate EncoderAccepts(h: HuffTbl, isDC: bool)
    requires h.WellTyped()
  {
    && Legal(h.bits)
    && Assignable(h, if isDC then 15 else 255, Count(h.bits, 16))
  }

  /** The encoder accepts the tables that the decoder accepts, unless a symbol is listed twice. */
  lemma EncoderIsStricter(h: HuffTbl, isDC: bool)
    requires h.WellTyped()
    ensures EncoderAccepts(h, isDC) <==>
      && DecoderAccepts(h, isDC)
      && forall p, q :: 0 <= p < q < Count(h.bits, 16) ==> h.huffval[p] != h.huffval[q]
  {
    hide Next, Pow2, Count;
  }

  /** The encoder's table gives each listed symbol its code, and no other symbol any code. */
  ghost predicate Encodes(h: HuffTbl, c: CTbl)
    requires h.WellTyped() && Count(h.bits, 16) <= 256
  {
    && |c.ehufco| == |c.ehufsi| == 256
    && (forall p, l :: 0 <= p < 256 && HasLen(h.bits, p, l) ==>
          c.ehufsi[h.huffval[p]] == l && c.ehufco[h.huffval[p]] == CodeOf(h.bits, p, l))
    && (forall s :: 0 <= s < 256 && c.ehufsi[s] != 0 ==>
          exists p :: 0 <= p < Count(h.bits, 16) && h.huffval[p] == s)
  }

  method MakeCDerived(h: HuffTbl, isDC: bool) returns (r: Option<CTbl>)
    requires h.WellTyped()
    ensures r.Some? <==> EncoderAccepts(h, isDC)
    ensures r.Some? ==> Encodes(h, r.value)
  {
    var ok, huffsize, lastp := ListSizes(h.bits);
    if !ok {
      return None;
    }
    var huffcode;
    ok, huffcode := ListCodes(h.bits, huffsize, lastp);
    if !ok {
      return None;
    }
    r := AssignCodes(h, if isDC then 15 else 255, huffsize[..], huffcode[..], lastp);
  }

  /** Figure C.3: code and size by symbol value. */
  method AssignCodes(h: HuffTbl, maxsymbol: nat, huffsize: seq<nat>, huffcode: seq<nat>, lastp: nat)
    returns (r: Option<CTbl>)
    requires h.WellTyped() && lastp == Count(h.bits, 16) && maxsymbol <= 255
    requires CodesListed(h.bits, huffsize, huffcode, lastp)
    ensures r.Some? <==> Assignable(h, maxsymbol, lastp)
    ensures r.Some? ==> Encodes(h, r.value)
  {
    hide Legal, Encodes, Next, Assignable;
    var co, si := new nat[256](_ => 0), new nat[256](_ => 0);
    NothingAssigned(h, maxsymbol);
    assert co[..] == si[..] == seq(256, _ => 0);
    for p := 0 to lastp
      invariant Assigned(h, co[..], si[..], p)
      invariant Assignable(h, maxsymbol, p)
    {
      var i := h.huffval[p];
      if i > maxsymbol || si[i] != 0 {
        NotAssignable(h, maxsymbol, co[..], si[..], p, lastp);
        return None;
      }
      AssignOne(h, maxsymbol, co[..], si[..], huffsize, huffcode, p);
      ghost var co0, si0 := co[..], si[..];
      co[i] := huffcode[p];
      si[i] := huffsize[p];
      assert co[..] == co0[i := huffcode[p]] && si[..] == si0[i := huffsize[p]];
    }
    AllAssigned(h, co[..], si[..]);
    r := Some(CTbl(co[..], si[..]));
  }

  lemma AllAssigned(h: HuffTbl, co: seq<nat>, si: seq<nat>)
    requires h.WellTyped() && Count(h.bits, 16) <= 256 && Assigned(h, co, si, Count(h.bits, 16))
    ensures Encodes(h, CTbl(co, si))
  {
    forall p, l | 0 <= p < 256 && HasLen(h.bits, p, l) ensures p < Count(h.bits, 16) { CountMono(h.bits, l, 16); }
  }

  /** A symbol that is out of range or already has a code spoils the whole table. */
  lemma NotAssignable(h: HuffTbl, maxsymbol: nat, co: seq<nat>, si: seq<nat>, p: nat, n: nat)
    requires h.WellTyped() && p < n <= 256 && Assigned(h, co, si, p)
    requires h.huffval[p] > maxsymbol || si[h.huffval[p]] != 0
    ensures !Assignable(h, maxsymbol, n)
  {}

  /** The first n listed symbols are in range and distinct. */
  ghost predicate Assignable(h: HuffTbl, maxsymbol: nat, n: nat)
    requires h.WellTyped() && n <= 256
  {
    && (forall p :: 0 <= p < n ==> h.huffval[p] <= maxsymbol)
    && (forall p, q :: 0 <= p < q < n ==> h.huffval[p] != h.huffval[q])
  }

  /** The first n listed symbols have their codes and nothing else has. */
  ghost predicate Assigned(h: HuffTbl, co: seq<nat>, si: seq<nat>, n: nat)
    requires h.WellTyped() && n <= 256
  {
    && |co| == |si| == 256
    && (forall q, l :: 0 <= q < n && HasLen(h.bits, q, l) ==>
          si[h.huffval[q]] == l && co[h.huffval[q]] == CodeOf(h.bits, q, l))
    && (forall q :: 0 <= q < n ==> si[h.huffval[q]] != 0)
    && (forall s :: 0 <= s < 256 && si[s] != 0 ==> exists q :: 0 <= q < n && h.huffval[q] == s)
  }

  lemma NothingAssigned(h: HuffTbl, maxsymbol: nat)
    requires h.WellTyped()
    ensures Assigned(h, seq(256, _ => 0), seq(256, _ => 0), 0) && Assignable(h, maxsymbol, 0)
  {}

  lemma AssignOne(h: HuffTbl, maxsymbol: nat, co: seq<nat>, si: seq<nat>, huffsize: seq<nat>, huffcode: seq<nat>,
                  p: nat)
    requires h.WellTyped() && Count(h.bits, 16) <= 256 && p < Count(h.bits, 16)
    requires CodesListed(h.bits, huffsize, huffcode, Count(h.bits, 16))
    requires Assigned(h, co, si, p) && si[h.huffval[p]] == 0
    requires Assignable(h, maxsymbol, p) && h.huffval[p] <= maxsymbol
    ensures Assigned(h, co[h.huffval[p] := huffcode[p]], si[h.huffval[p] := huffsize[p]], p + 1)
    ensures Assignable(h, maxsymbol, p + 1)
  {
    var l := LenExists(h.bits, p, 16);
    forall m | HasLen(h.bits, p, m) ensures m == l { LenUnique(h.bits, p, l, m); }
  }

  /** What jpeg_make_d_derived_tbl accepts; it does not look for duplicate symbols. */
  ghost predicate DecoderAccepts(h: HuffTbl, isDC: bool)
    requires h.WellTyped()
  {
    && Legal(h.bits)
    && (isDC ==> forall p :: 0 <= p < Count(h.bits, 16) ==> h.huffval[p] <= 15)
  }

  /** The entry of the lookahead tables for the 8-bit value x. */
  ghost predicate LookEntry(h: HuffTbl, x: nat, l: nat, sym: nat)
    requires h.WellTyped() && Count(h.bits, 16) <= 256
  {
    && 1 <= l <= 8
    && 2 * Next(h.bits, l - 1) <= Shr(x, 8 - l) < Next(h.bits, l)
    && (var p := Count(h.bits, l - 1) + Shr(x, 8 - l) - 2 * Next(h.bits, l - 1);
        p < 256 && sym == h.huffval[p])
  }

  ghost predicate LookFilled(h: HuffTbl, nbits: seq<nat>, syms: seq<nat>, upto: nat)
    requires h.WellTyped() && Count(h.bits, 16) <= 256
  {
    && |nbits| == |syms| == 256
    && (forall x :: 0 <= x < upto && x < 256 ==> LookEntry(h, x, nbits[x], syms[x]))
    && (forall x :: upto <= x < 256 ==> nbits[x] == 0)
  }

  ghost predicate LengthEntry(h: HuffTbl, l: nat, maxcode: int, valoffset: int)
    requires h.WellTyped() && 1 <= l <= 16
  {
    && maxcode == (if h.bits[l] > 0 then Next(h.bits, l) - 1 else -1)
    && (h.bits[l] > 0 ==> valoffset == Count(h.bits, l - 1) - 2 * Next(h.bits, l - 1))
  }

  ghost predicate Decodes(h: HuffTbl, d: DTbl)
    requires h.WellTyped() && Count(h.bits, 16) <= 256
  {
    && |d.maxcode| == 18 && |d.valoffset| == 17 && d.maxcode[17] == 0xFFFFF
    && (forall l :: 1 <= l <= 16 ==> LengthEntry(h, l, d.maxcode[l], d.valoffset[l]))
    && LookFilled(h, d.lookNbits, d.lookSym, Next(h.bits, 8))
    && d.huffval == h.huffval
  }

  method MakeDDerived(h: HuffTbl, isDC: bool) returns (r: Option<DTbl>)
    requires h.WellTyped()
    ensures r.Some? <==> DecoderAccepts(h, isDC)
    ensures r.Some? ==> Decodes(h, r.value)
  {
    var ok, huffsize, numsymbols := ListSizes(h.bits);
    if !ok {
      return None;
    }
    var huffcode;
    ok, huffcode := ListCodes(h.bits, huffsize, numsymbols);
    if !ok {
      return None;
    }
    var maxcode, valoffset := FindBounds(h, huffcode, huffsize[..]);
    var nbits, syms := FillLookahead(h, huffcode, huffsize[..]);
    if isDC {
      for i := 0 to numsymbols
        invariant forall p :: 0 <= p < i ==> h.huffval[p] <= 15
      {
        if h.huffval[i] > 15 {
          return None;
        }
      }
    }
    r := Some(DTbl(maxcode[..], valoffset[..], nbits[..], syms[..], h.huffval));
  }

  /** Figure F.15. */
  method FindBounds(h: HuffTbl, huffcode: array<nat>, ghost huffsize: seq<nat>)
    returns (maxcode: array<int>, valoffset: array<int>)
    requires h.WellTyped() && huffcode.Length == 257 && Count(h.bits, 16) <= 256
    requires CodesListed(h.bits, huffsize, huffcode[..], Count(h.bits, 16))
    ensures fresh(maxcode) && fresh(valoffset) && maxcode.Length == 18 && valoffset.Length == 17
    ensures maxcode[17] == 0xFFFFF
    ensures forall l :: 1 <= l <= 16 ==> LengthEntry(h, l, maxcode[l], valoffset[l])
  {
    maxcode, valoffset := new int[18], new int[17];
    ghost var codes := huffcode[..];
    var p := 0;
    for l := 1 to 17
      invariant p == Count(h.bits, l - 1) && huffcode[..] == codes
      invariant forall m :: 1 <= m < l ==> LengthEntry(h, m, maxcode[m], valoffset[m])
    {
      CountMono(h.bits, l, 16);
      if h.bits[l] > 0 {
        assert HasLen(h.bits, p, l) && HasLen(h.bits, p + h.bits[l] - 1, l);
        assert codes[p] == CodeOf(h.bits, p, l);
        assert codes[p + h.bits[l] - 1] == CodeOf(h.bits, p + h.bits[l] - 1, l);
        valoffset[l] := p - huffcode[p];
        p := p + h.bits[l];
        maxcode[l] := huffcode[p - 1];
      } else {
        maxcode[l] := -1;
      }
    }
    maxcode[17] := 0xFFFFF;
  }

  method FillLookahead(h: HuffTbl, huffcode: array<nat>, ghost huffsize: seq<nat>)
    returns (nbits: array<nat>, syms: array<nat>)
    requires h.WellTyped() && huffcode.Length == 257 && Legal(h.bits)
    requires CodesListed(h.bits, huffsize, huffcode[..], Count(h.bits, 16))
    ensures fresh(nbits) && fresh(syms)
    ensures LookFilled(h, nbits[..], syms[..], Next(h.bits, 8))
  {
    hide Legal, LookEntry;
    nbits, syms := new nat[256](_ => 0), new nat[256](_ => 0);
    ShlOne(8);
    var p := 0;
    for l := 1 to 9
      invariant p == Count(h.bits, l - 1)
      invariant CodesListed(h.bits, huffsize, huffcode[..], Count(h.bits, 16))
      invariant LookFilled(h, nbits[..], syms[..], Shl(Next(h.bits, l - 1), 9 - l))
    {
      ShlDouble(Next(h.bits, l - 1), 9 - l);
      FillLength(h, huffcode, huffsize, p, l, nbits, syms);
      p := p + h.bits[l];
    }
  }

  lemma {:induction false} ShlDouble(a: nat, n: nat)
    requires n > 0
    ensures Shl(a, n) == Shl(2 * a, n - 1)
  {
    if n > 1 { ShlDouble(a, n - 1); }
  }

  method FillLength(h: HuffTbl, huffcode: array<nat>, ghost huffsize: seq<nat>, start: nat, l: nat,
                    nbits: array<nat>, syms: array<nat>)
    requires h.WellTyped() && huffcode.Length == 257 && Legal(h.bits) && 1 <= l <= 8
    requires start == Count(h.bits, l - 1)
    requires CodesListed(h.bits, huffsize, huffcode[..], Count(h.bits, 16))
    requires huffcode != nbits && huffcode != syms && nbits != syms
    requires LookFilled(h, nbits[..], syms[..], Shl(2 * Next(h.bits, l - 1), 8 - l))
    modifies nbits, syms
    ensures LookFilled(h, nbits[..], syms[..], Shl(Next(h.bits, l), 8 - l))
  {
    hide Legal, LookFilled, Shl;
    ghost var codes := huffcode[..];
    CountMono(h.bits, l, 16);
    var p := start;
    for i := 1 to h.bits[l] + 1
      invariant p == start + i - 1 && huffcode[..] == codes
      invariant LookFilled(h, nbits[..], syms[..], Shl(2 * Next(h.bits, l - 1) + (i - 1), 8 - l))
    {
      assert HasLen(h.bits, p, l) && codes[p] == CodeOf(h.bits, p, l);
      CodeFits(h.bits, p, l);
      FillEntries(h, p, l, huffcode[p], nbits, syms);
      p := p + 1;
    }
  }

  /** All 8-bit strings that start with code p get its length and symbol. */
  method FillEntries(h: HuffTbl, p: nat, l: nat, code: nat, nbits: array<nat>, syms: array<nat>)
    requires h.WellTyped() && Legal(h.bits) && 1 <= l <= 8 && HasLen(h.bits, p, l) && p < 256
    requires code == CodeOf(h.bits, p, l) < Pow2(l)
    requires nbits != syms && LookFilled(h, nbits[..], syms[..], Shl(code, 8 - l))
    modifies nbits, syms
    ensures LookFilled(h, nbits[..], syms[..], Shl(code + 1, 8 - l))
  {
    var lookbits := Shl(code, 8 - l);
    ghost var first, last := lookbits, Shl(code + 1, 8 - l);
    var ctr: nat := Pow2(8 - l);
    LookRange(code, l, 8 - l);
    while ctr > 0
      invariant lookbits + ctr == last == first + Pow2(8 - l) <= 256 && first <= lookbits
      invariant LookFilled(h, nbits[..], syms[..], lookbits)
    {
      EntryInRange(h, p, l, lookbits);
      LookStep(h, nbits[..], syms[..], lookbits, l, h.huffval[p]);
      ghost var n0, s0 := nbits[..], syms[..];
      nbits[lookbits] := l;
      syms[lookbits] := h.huffval[p];
      assert nbits[..] == n0[lookbits := l] && syms[..] == s0[lookbits := h.huffval[p]];
      lookbits := lookbits + 1;
      ctr := ctr - 1;
    }
    assert lookbits == last;
  }

  lemma {:induction false} EntryInRange(h: HuffTbl, p: nat, l: nat, x: nat)
    requires h.WellTyped() && Legal(h.bits) && 1 <= l <= 8 && HasLen(h.bits, p, l) && p < 256
    requires Shl(CodeOf(h.bits, p, l), 8 - l) <= x < Shl(CodeOf(h.bits, p, l), 8 - l) + Pow2(8 - l)
    ensures LookEntry(h, x, l, h.huffval[p])
  {
    ShrShl(CodeOf(h.bits, p, l), x - Shl(CodeOf(h.bits, p, l), 8 - l), 8 - l);
  }

  lemma LookStep(h: HuffTbl, nbits: seq<nat>, syms: seq<nat>, x: nat, l: nat, sym: nat)
    requires h.WellTyped() && Count(h.bits, 16) <= 256 && x < 256
    requires LookFilled(h, nbits, syms, x) && LookEntry(h, x, l, sym)
    ensures LookFilled(h, nbits[x := l], syms[x := sym], x + 1)
  {}

  lemma LookRange(code: nat, l: nat, m: nat)
    requires l + m == 8 && code < Pow2(l)
    ensures Shl(code + 1, m) == Shl(code, m) + Pow2(m) <= 256
  {
    ShlBound(code, l, m);
    ShlAdd(code, 1, m);
    ShlOne(m);
    Pow2Values();
  }
}
