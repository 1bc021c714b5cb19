/** Canonical Huffman tables: the code assignment of Annex C of ITU-T T.81 and the
    derived tables that jchuff.c and jdhuff.c build from a table definition. */
module HuffmanTables {
  import opened Bits

  /** JHUFF_TBL: bits[l] codes of length l, and the symbols in order of code. */
  datatype HuffTbl = HuffTbl(bits: seq<nat>, huffval: seq<nat>) {
    ghost predicate WellTyped() {
      && Counts(bits)
      && |huffval| == 256 && forall i :: 0 <= i < 256 ==> huffval[i] < 256
    }
  }

  datatype Option<T> = None | Some(value: T)

  /** The encoder's table: code and size by symbol; size 0 means no code. */
  datatype CTbl = CTbl(ehufco: seq<nat>, ehufsi: seq<nat>)

  /** The decoder's table. */
  datatype DTbl = DTbl(maxcode: seq<int>, valoffset: seq<int>, lookNbits: seq<nat>, lookSym: seq<nat>,
    huffval: seq<nat>)

  ghost predicate Counts(bits: seq<nat>) {
    |bits| == 17 && forall l :: 0 <= l < 17 ==> bits[l] < 256
  }

  /** Number of codes of length at most l. */
  function Count(bits: seq<nat>, l: nat): nat
    requires l < |bits|
  {
    if l == 0 then 0 else Count(bits, l - 1) + bits[l]
  }

  /** One more than the last code of length l, whether or not there is one. */
  function Next(bits: seq<nat>, l: nat): nat
    requires l < |bits|
  {
    if l == 0 then 0 else 2 * Next(bits, l - 1) + bits[l]
  }

  /** Code p (in code order) has length l. */
  ghost predicate HasLen(bits: seq<nat>, p: nat, l: nat)
    requires |bits| == 17
  {
    1 <= l <= 16 && Count(bits, l - 1) <= p < Count(bits, l)
  }

  /** The value of code p, whose length is l. */
  function CodeOf(bits: seq<nat>, p: nat, l: nat): nat
    requires |bits| == 17 && HasLen(bits, p, l)
  {
    2 * Next(bits, l - 1) + (p - Count(bits, l - 1))
  }

  /** The code word of code p as a bit string. */
  function CodeWord(bits: seq<nat>, p: nat, l: nat): (w: seq<bool>)
    requires |bits| == 17 && HasLen(bits, p, l)
    ensures |w| == l
  {
    BitsOf(CodeOf(bits, p, l), l)
  }

  /** The counts fit the tables and leave the all-ones code of every length unused. */
  ghost predicate Legal(bits: seq<nat>)
    requires |bits| == 17
  {
    Count(bits, 16) <= 256 && forall l :: 0 <= l <= 16 ==> Next(bits, l) < Pow2(l)
  }

  /** The sum of bits[i] * 2^-i over 1 <= i <= l. */
  ghost function Kraft(bits: seq<nat>, l: nat): real
    requires l < |bits|
  {
    if l == 0 then 0.0 else Kraft(bits, l - 1) + bits[l] as real * Weight(l)
  }

  /** 2^-n */
  ghost function Weight(n: nat): (w: real)
    ensures w > 0.0
  {
    if n == 0 then 1.0 else Weight(n - 1) / 2.0
  }

  lemma {:induction false} CountMono(bits: seq<nat>, l: nat, m: nat)
    requires l <= m < |bits|
    ensures Count(bits, l) <= Count(bits, m)
  {
    if l < m { CountMono(bits, l, m - 1); }
  }

  /** Codes of different lengths occupy disjoint index ranges. */
  lemma LenUnique(bits: seq<nat>, p: nat, l: nat, m: nat)
    requires |bits| == 17 && HasLen(bits, p, l) && HasLen(bits, p, m)
    ensures l == m
  {
    if l < m { CountMono(bits, l, m - 1); }
    if m < l { CountMono(bits, m, l - 1); }
  }

  lemma {:induction false} LenExists(bits: seq<nat>, p: nat, n: nat) returns (l: nat)
    requires |bits| == 17 && n <= 16 && p < Count(bits, n)
    ensures HasLen(bits, p, l) && l <= n
  {
    if p < Count(bits, n - 1) {
      l := LenExists(bits, p, n - 1);
    } else {
      l := n;
    }
  }

  lemma {:induction false} NextGrows(bits: seq<nat>, l: nat, m: nat)
    requires l <= m < |bits|
    ensures Shl(Next(bits, l), m - l) <= Next(bits, m)
    ensures l < m ==> Shl(Next(bits, l), m - l) <= 2 * Next(bits, m - 1)
  {
    if l < m { NextGrows(bits, l, m - 1); }
  }

  /** A code value is below 2^l - 1: it fits and is never all ones. */
  lemma {:induction false} CodeFits(bits: seq<nat>, p: nat, l: nat)
    requires |bits| == 17 && Legal(bits) && HasLen(bits, p, l)
    ensures CodeOf(bits, p, l) < Next(bits, l) < Pow2(l)
    ensures CodeWord(bits, p, l) != Ones(l)
  {
    ValBits(CodeOf(bits, p, l), l);
    ValOnes(l);
  }

  lemma {:induction false} NextAcrossZeros(bits: seq<nat>, l: nat, m: nat)
    requires l <= m < |bits| && forall k :: l < k <= m ==> bits[k] == 0
    ensures Next(bits, m) == Shl(Next(bits, l), m - l) && Count(bits, m) == Count(bits, l)
  {
    if l < m {
      NextAcrossZeros(bits, l, m - 1);
      ShlNext(Next(bits, l), m - 1 - l);
    }
  }

  lemma {:induction false} ShlNext(v: nat, n: nat)
    ensures Shl(v, n + 1) == 2 * Shl(v, n)
  {
    if n > 0 { ShlNext(v, n - 1); }
  }

  lemma {:induction false} NoneBetween(bits: seq<nat>, l: nat, m: nat)
    requires l <= m < |bits| && Count(bits, m) == Count(bits, l)
    ensures forall k :: l < k <= m ==> bits[k] == 0
  {
    if l < m {
      CountMono(bits, l, m - 1);
      NoneBetween(bits, l, m - 1);
    }
  }

  /** The procedure of section C.2 of ITU-T T.81: the first code is all zeros; each code is the one before it plus one,
      with zeros appended if it is longer. */
  lemma CodesAscend(bits: seq<nat>, p: nat, l: nat, m: nat)
    requires |bits| == 17 && HasLen(bits, p, l)
    ensures p == 0 ==> CodeOf(bits, p, l) == 0
    ensures HasLen(bits, p + 1, m) ==> m >= l && CodeOf(bits, p + 1, m) == Shl(CodeOf(bits, p, l) + 1, m - l)
  {
    if p == 0 {
      CountMono(bits, 0, l - 1);
      NoneBetween(bits, 0, l - 1);
      NextAcrossZeros(bits, 0, l - 1);
      ShlZero(l - 1);
    }
    if HasLen(bits, p + 1, m) {
      if m < l {
        CountMono(bits, m, l - 1);
      } else if l < m {
        CountMono(bits, l, m - 1);
        NoneBetween(bits, l, m - 1);
        NextAcrossZeros(bits, l, m - 1);
        ShlNext(Next(bits, l), m - 1 - l);
      }
    }
  }

  lemma {:induction false} ShlZero(n: nat)
    ensures Shl(0, n) == 0
  {
    if n > 0 { ShlZero(n - 1); }
  }

  lemma {:induction false} ValOnes(n: nat)
    ensures Val(Ones(n)) == Pow2(n) - 1
  {
    if n > 0 {
      ValOnes(n - 1);
      assert Ones(n)[..n - 1] == Ones(n - 1);
    }
  }

  /** The first l bits of a longer code are at least Next(l), hence beyond every code of length l. */
  lemma {:induction false} LongCodePrefix(bits: seq<nat>, q: nat, m: nat, l: nat)
    requires |bits| == 17 && Legal(bits) && HasLen(bits, q, m) && l < m
    ensures Val(CodeWord(bits, q, m)[..l]) >= Next(bits, l)
  {
    CodeFits(bits, q, m);
    NextGrows(bits, l, m);
    PrefixVal(CodeOf(bits, q, m), m, l);
    ShrMono(CodeOf(bits, q, m), Next(bits, l), m - l);
  }

  lemma {:induction false} PrefixVal(v: nat, m: nat, l: nat)
    requires v < Pow2(m) && l <= m
    ensures Val(BitsOf(v, m)[..l]) == Shr(v, m - l)
  {
    FieldOfBits(v, m, l);
    ShrFits(v, l, m - l);
    LowSmall(Shr(v, m - l), l);
  }

  lemma {:induction false} ShrMono(v: nat, a: nat, n: nat)
    requires v >= Shl(a, n)
    ensures Shr(v, n) >= a
  {
    if n > 0 { ShrMono(v / 2, a, n - 1); }
  }

  lemma {:induction false} ShrFits(v: nat, k: nat, n: nat)
    requires v < Pow2(k + n)
    ensures Shr(v, n) < Pow2(k)
  {
    if n > 0 { ShrFits(v / 2, k, n - 1); }
  }

  /** The accepted codes are prefix-free. */
  lemma PrefixFree(bits: seq<nat>, p: nat, l: nat, q: nat, m: nat)
    requires |bits| == 17 && Legal(bits) && HasLen(bits, p, l) && HasLen(bits, q, m) && l <= m && p != q
    ensures CodeWord(bits, q, m)[..l] != CodeWord(bits, p, l)
  {
    CodeFits(bits, p, l);
    ValBits(CodeOf(bits, p, l), l);
    if l < m {
      LongCodePrefix(bits, q, m, l);
    } else {
      CodeFits(bits, q, m);
      ValBits(CodeOf(bits, q, m), m);
      assert CodeWord(bits, q, m)[..l] == CodeWord(bits, q, m);
    }
  }

  lemma {:induction false} KraftNext(bits: seq<nat>, l: nat)
    requires l < |bits|
    ensures Kraft(bits, l) == Next(bits, l) as real * Weight(l)
  {
    if l > 0 {
      KraftNext(bits, l - 1);
      HalfTwice(Next(bits, l - 1), bits[l], Weight(l - 1), Weight(l));
    }
  }

  lemma HalfTwice(x: nat, b: nat, w: real, h: real)
    requires h == w / 2.0
    ensures x as real * w + b as real * h == (2 * x + b) as real * h
  {
    assert x as real * w == (2 * x) as real * h;
  }

  lemma {:induction false} WeightPow2(l: nat)
    ensures Weight(l) * Pow2(l) as real == 1.0
  {
    if l > 0 {
      WeightPow2(l - 1);
      HalfTwice(Pow2(l - 1), 0, Weight(l - 1), Weight(l));
    }
  }

  lemma {:induction false} NextBound(bits: seq<nat>, l: nat, m: nat)
    requires l <= m < |bits| && Next(bits, m) < Pow2(m)
    ensures Next(bits, l) < Pow2(l)
  {
    if l < m { NextBound(bits, l, m - 1); }
  }

  /** The code-space check accepts exactly the counts whose Kraft sum is below 1. */
  lemma {:induction false} LegalIffKraft(bits: seq<nat>)
    requires |bits| == 17
    ensures Legal(bits) <==> Count(bits, 16) <= 256 && Kraft(bits, 16) < 1.0
  {
    KraftBelowOne(bits, 16);
    if Next(bits, 16) < Pow2(16) {
      forall l | 0 <= l <= 16 ensures Next(bits, l) < Pow2(l) { NextBound(bits, l, 16); }
    }
  }

  lemma {:induction false} KraftBelowOne(bits: seq<nat>, l: nat)
    requires l < |bits|
    ensures Kraft(bits, l) < 1.0 <==> Next(bits, l) < Pow2(l)
  {
    hide Pow2, Weight, Next, Kraft;
    KraftNext(bits, l);
    WeightPow2(l);
    RealOrder(Next(bits, l) as real, Pow2(l) as real, Weight(l));
  }

  lemma RealOrder(n: real, p: real, w: real)
    requires w > 0.0 && w * p == 1.0
    ensures n * w < 1.0 <==> n < p
  {
    if n < p {
      assert (p - n) * w > 0.0;
      assert (p - n) * w == w * p - n * w;
    } else {
      assert (n - p) * w >= 0.0;
      assert (n - p) * w == n * w - w * p;
    }
  }
}
