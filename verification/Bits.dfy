/** Fixed-width binary numbers, most significant bit first, and the C shift and
    mask operators on nonnegative numbers. The operators are defined bit by bit,
    which keeps every proof linear. */
module Bits {

  /** 1 << n */
  function Pow2(n: nat): (p: nat)
    ensures p >= 1
  {
    if n == 0 then 1 else 2 * Pow2(n - 1)
  }

  /** v << n, unbounded */
  function Shl(v: nat, n: nat): (r: nat)
    ensures r >= v
  {
    if n == 0 then v else 2 * Shl(v, n - 1)
  }

  /** v >> n */
  function Shr(v: nat, n: nat): (r: nat)
    ensures r <= v
  {
    if n == 0 then v else Shr(v / 2, n - 1)
  }

  /** v & ((1 << n) - 1) */
  function Low(v: nat, n: nat): (r: nat)
    ensures r < Pow2(n) && r <= v
  {
    if n == 0 then 0 else 2 * Low(v / 2, n - 1) + v % 2
  }

  /** a | b */
  function Or(a: nat, b: nat): nat {
    if a == 0 then b
    else if b == 0 then a
    else 2 * Or(a / 2, b / 2) + (if a % 2 == 1 || b % 2 == 1 then 1 else 0)
  }

  /** The n low-order bits of v. */
  function BitsOf(v: nat, n: nat): (s: seq<bool>)
    ensures |s| == n
  {
    if n == 0 then [] else BitsOf(v / 2, n - 1) + [v % 2 == 1]
  }

  /** The number a bit string denotes. */
  function Val(s: seq<bool>): (v: nat)
    ensures v < Pow2(|s|)
  {
    if s == [] then 0 else 2 * Val(s[..|s| - 1]) + (if s[|s| - 1] then 1 else 0)
  }

  function Ones(n: nat): (s: seq<bool>)
    ensures |s| == n
  {
    seq(n, _ => true)
  }

  function Zeros(n: nat): (s: seq<bool>)
    ensures |s| == n
  {
    seq(n, _ => false)
  }

  /** Number of bits in the magnitude of v: the loop "while (v) { nbits++; v >>= 1; }". */
  function NBits(v: nat): (n: nat)
    ensures v < Pow2(n)
    ensures v > 0 ==> n > 0 && Pow2(n - 1) <= v
  {
    if v == 0 then 0 else 1 + NBits(v / 2)
  }

  lemma Pow2Values()
    ensures Pow2(0) == 1 && Pow2(1) == 2 && Pow2(2) == 4 && Pow2(3) == 8 && Pow2(4) == 16
    ensures Pow2(5) == 32 && Pow2(6) == 64 && Pow2(7) == 128 && Pow2(8) == 256
    ensures Pow2(9) == 512 && Pow2(10) == 1024 && Pow2(11) == 2048 && Pow2(12) == 4096
    ensures Pow2(13) == 8192 && Pow2(14) == 16384 && Pow2(15) == 32768 && Pow2(16) == 65536
  {
    assert Pow2(8) == 256;
    assert Pow2(16) == 65536;
  }

  lemma {:induction false} Pow2Mono(m: nat, n: nat)
    requires m <= n
    ensures Pow2(m) <= Pow2(n)
  {
    if m < n { Pow2Mono(m, n - 1); }
  }

  lemma {:induction false} NBitsMax(v: nat, n: nat)
    requires v < Pow2(n)
    ensures NBits(v) <= n
  {
    if NBits(v) > n { Pow2Mono(n, NBits(v) - 1); }
  }

  lemma {:induction false} ShlAdd(a: nat, b: nat, n: nat)
    ensures Shl(a + b, n) == Shl(a, n) + Shl(b, n)
  {
    if n > 0 { ShlAdd(a, b, n - 1); }
  }

  lemma {:induction false} ShlShl(a: nat, m: nat, n: nat)
    ensures Shl(Shl(a, m), n) == Shl(a, m + n)
  {
    if n > 0 { ShlShl(a, m, n - 1); }
  }

  lemma {:induction false} ShlBound(a: nat, k: nat, n: nat)
    requires a < Pow2(k)
    ensures Shl(a, n) < Pow2(k + n)
    ensures Shl(a, n) + Pow2(n) <= Pow2(k + n)
  {
    if n > 0 { ShlBound(a, k, n - 1); }
  }

  lemma {:induction false} ShlOne(n: nat)
    ensures Shl(1, n) == Pow2(n) && Shl(0, n) == 0
  {
    if n > 0 { ShlOne(n - 1); }
  }

  lemma {:induction false} ShrShl(a: nat, low: nat, n: nat)
    requires low < Pow2(n)
    ensures Shr(Shl(a, n) + low, n) == a
    ensures Low(Shl(a, n) + low, n) == low
  {
    if n > 0 { ShrShl(a, low / 2, n - 1); }
  }

  lemma {:induction false} LowSmall(v: nat, n: nat)
    requires v < Pow2(n)
    ensures Low(v, n) == v
  {
    if n > 0 { LowSmall(v / 2, n - 1); }
  }

  lemma {:induction false} ValLow(v: nat, n: nat)
    ensures Val(BitsOf(v, n)) == Low(v, n)
  {
    if n > 0 {
      ValLow(v / 2, n - 1);
      assert BitsOf(v, n)[..n - 1] == BitsOf(v / 2, n - 1);
    }
  }

  lemma {:induction false} ValBits(v: nat, n: nat)
    requires v < Pow2(n)
    ensures Val(BitsOf(v, n)) == v
  {
    ValLow(v, n);
    LowSmall(v, n);
  }

  lemma {:induction false} BitsVal(s: seq<bool>)
    ensures BitsOf(Val(s), |s|) == s
  {
    if s != [] {
      BitsVal(s[..|s| - 1]);
    }
  }

  lemma {:induction false} ValConcat(a: seq<bool>, b: seq<bool>)
    ensures Val(a + b) == Shl(Val(a), |b|) + Val(b)
  {
    if b == [] {
      assert a + b == a;
    } else {
      ValConcat(a, b[..|b| - 1]);
      assert (a + b)[..|a + b| - 1] == a + b[..|b| - 1];
      assert (a + b)[|a + b| - 1] == b[|b| - 1];
    }
  }

  /** The low n + m bits of v are the low n bits of v >> m, then the low m bits of v. */
  lemma {:induction false} BitsSplit(v: nat, n: nat, m: nat)
    ensures BitsOf(v, n + m) == BitsOf(Shr(v, m), n) + BitsOf(v, m)
  {
    if m > 0 { BitsSplit(v / 2, n, m - 1); }
  }

  /** Shifting left and adding new low-order bits appends them. */
  lemma BitsConcat(a: nat, b: nat, n: nat, m: nat)
    requires b < Pow2(m)
    ensures BitsOf(Shl(a, m) + b, n + m) == BitsOf(a, n) + BitsOf(b, m)
  {
    BitsSplit(Shl(a, m) + b, n, m);
    ShrShl(a, b, m);
    BitsLow(Shl(a, m) + b, m, m);
  }

  /** Bits above position n are never looked at. */
  lemma {:induction false} BitsLow(v: nat, n: nat, m: nat)
    requires n <= m
    ensures BitsOf(Low(v, m), n) == BitsOf(v, n)
  {
    if n > 0 { BitsLow(v / 2, n - 1, m - 1); }
  }

  /** OR of operands with no bit in common is their sum. */
  lemma {:induction false} OrDisjoint(a: nat, b: nat, m: nat)
    requires b < Pow2(m)
    ensures Or(Shl(a, m), b) == Shl(a, m) + b
  {
    if m > 0 { OrDisjoint(a, b / 2, m - 1); }
    if a == 0 { ShlOne(m); }
  }

  lemma {:induction false} OrComm(a: nat, b: nat)
    ensures Or(a, b) == Or(b, a)
  {
    if a != 0 && b != 0 { OrComm(a / 2, b / 2); }
  }

  /** GET_BITS: shift down to the wanted field, then mask it. */
  lemma {:induction false} FieldOfBits(v: nat, left: nat, n: nat)
    requires n <= left
    ensures Low(Shr(v, left - n), n) == Val(BitsOf(v, left)[..n])
    ensures BitsOf(v, left)[n..] == BitsOf(v, left - n)
  {
    var m := left - n;
    BitsSplit(v, n, m);
    var hi, lo := BitsOf(Shr(v, m), n), BitsOf(v, m);
    assert (hi + lo)[..n] == hi && (hi + lo)[n..] == lo;
    ValLow(Shr(v, m), n);
  }

  lemma {:induction false} ValZeros(n: nat)
    ensures Val(Zeros(n)) == 0
  {
    if n > 0 {
      ValZeros(n - 1);
      assert Zeros(n)[..n - 1] == Zeros(n - 1);
    }
  }
}
