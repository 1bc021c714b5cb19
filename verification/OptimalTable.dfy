/** jpeg_gen_optimal_table of jchuff.c: code lengths from Huffman's procedure, limited to 16 bits,
    the pseudo-symbol removed, and the symbols listed by length (section K.2 of ITU-T T.81). */
module OptimalTable {
  import opened Bits
  import opened Coefficients
  import opened HuffmanTables
  import opened DerivedTables
  import opened HuffmanOptimal
  import opened HuffmanTree

  const MAX_CLEN: nat := 32

  // ---- Counting the lengths ----

  /** The weights of the symbols below n that have a code. */
  ghost function UsedSum(codesize: seq<nat>, n: nat): real
    requires n <= |codesize|
  {
    if n == 0 then 0.0 else UsedSum(codesize, n - 1) + if codesize[n - 1] > 0 then Weight(codesize[n - 1]) else 0.0
  }

  function Used(codesize: seq<nat>, n: nat): nat
    requires n <= |codesize|
  {
    if n == 0 then 0 else Used(codesize, n - 1) + if codesize[n - 1] > 0 then 1 else 0
  }

  /** How many symbols below n have length l. */
  function HowMany(codesize: seq<nat>, l: nat, n: nat): nat
    requires n <= |codesize|
  {
    if n == 0 then 0 else HowMany(codesize, l, n - 1) + if codesize[n - 1] == l then 1 else 0
  }

  lemma HowManyNext(codesize: seq<nat>, l: nat, i: nat)
    requires i < |codesize|
    ensures HowMany(codesize, l, 0) == 0
    ensures HowMany(codesize, l, i + 1) == HowMany(codesize, l, i) + if codesize[i] == l then 1 else 0
  {}

  /** bits holds the number of symbols below n of each length. */
  ghost predicate SizeCounts(bits: seq<nat>, codesize: seq<nat>, n: nat)
    requires n <= |codesize|
  {
    |bits| == MAX_CLEN + 1 && bits[0] == 0 && forall l :: 1 <= l <= MAX_CLEN ==> bits[l] == HowMany(codesize, l, n)
  }

  lemma CountsNext(bits: seq<nat>, codesize: seq<nat>, i: nat)
    requires i < |codesize| && SizeCounts(bits, codesize, i) && codesize[i] <= MAX_CLEN
    ensures codesize[i] == 0 ==> SizeCounts(bits, codesize, i + 1)
    ensures codesize[i] > 0 ==> SizeCounts(bits[codesize[i] := bits[codesize[i]] + 1], codesize, i + 1)
  {
    hide HowMany;
    forall l | 1 <= l <= MAX_CLEN
      ensures HowMany(codesize, l, i + 1) == HowMany(codesize, l, i) + if codesize[i] == l then 1 else 0
    {
      HowManyNext(codesize, l, i);
    }
  }

  lemma CountsStart(bits: seq<nat>, codesize: seq<nat>)
    requires |bits| == MAX_CLEN + 1 && forall i :: 0 <= i < |bits| ==> bits[i] == 0
    ensures SizeCounts(bits, codesize, 0)
  {}

  lemma {:induction false} UsedMono(codesize: seq<nat>, m: nat, n: nat)
    requires m <= n <= |codesize|
    ensures Used(codesize, m) <= Used(codesize, n)
  {
    if m < n { UsedMono(codesize, m, n - 1); }
  }

  lemma {:induction false} CountAdd(bits: seq<nat>, k: nat, L: nat)
    requires 1 <= k <= L < |bits|
    ensures var b := bits[k := bits[k] + 1];
      Kraft(b, L) == Kraft(bits, L) + Weight(k) && Count(b, L) == Count(bits, L) + 1
    decreases L
  {
    var b := bits[k := bits[k] + 1];
    if k < L {
      CountAdd(bits, k, L - 1);
    } else {
      SameBelow(bits, b, L - 1);
      Distribute(bits[k], Weight(k));
    }
  }

  lemma Distribute(n: nat, w: real)
    ensures (n + 1) as real * w == n as real * w + w
  {}

  lemma {:induction false} SameBelow(a: seq<nat>, b: seq<nat>, L: nat)
    requires L < |a| == |b| && forall i :: 0 <= i <= L ==> a[i] == b[i]
    ensures Kraft(a, L) == Kraft(b, L) && Count(a, L) == Count(b, L) && Next(a, L) == Next(b, L)
  {
    if L > 0 { SameBelow(a, b, L - 1); }
  }

  lemma {:induction false} ZeroCounts(bits: seq<nat>, L: nat)
    requires L < |bits| && forall i :: 0 <= i < |bits| ==> bits[i] == 0
    ensures Kraft(bits, L) == 0.0 && Count(bits, L) == 0
  {
    if L > 0 { ZeroCounts(bits, L - 1); }
  }

  lemma {:induction false} OneCount(bits: seq<nat>, k: nat, L: nat)
    requires 1 <= k <= L < |bits|
    ensures bits[k] <= Count(bits, L)
  {
    if k < L { OneCount(bits, k, L - 1); }
  }

  /** "Now count the number of symbols of each code length"; the counts are bytes. */
  method CountLengths(codesize: array<nat>, bits: array<nat>) returns (ok: bool)
    requires codesize.Length == SYMBOLS && bits.Length == MAX_CLEN + 1 && codesize != bits
    requires forall i :: 0 <= i < bits.Length ==> bits[i] == 0
    requires Used(codesize[..], SYMBOLS) <= 255
    modifies bits
    ensures ok <==> forall s :: 0 <= s < SYMBOLS ==> codesize[s] <= MAX_CLEN
    ensures ok ==> bits[0] == 0 && Kraft(bits[..], MAX_CLEN) == UsedSum(codesize[..], SYMBOLS)
    ensures ok ==> Count(bits[..], MAX_CLEN) == Used(codesize[..], SYMBOLS)
    ensures ok ==> SizeCounts(bits[..], codesize[..], SYMBOLS)
  {
    hide Kraft, Count, Used, UsedSum, SizeCounts;
    CountsStart(bits[..], codesize[..]);
    ZeroCounts(bits[..], MAX_CLEN);
    UsedNone(codesize[..]);
    for i := 0 to SYMBOLS
      invariant bits[0] == 0 && forall s :: 0 <= s < i ==> codesize[s] <= MAX_CLEN
      invariant Kraft(bits[..], MAX_CLEN) == UsedSum(codesize[..], i)
        && Count(bits[..], MAX_CLEN) == Used(codesize[..], i)
      invariant SizeCounts(bits[..], codesize[..], i)
    {
      ghost var before := bits[..];
      UsedNext(codesize[..], i);
      if codesize[i] != 0 {
        if codesize[i] > MAX_CLEN {
          return false;
        }
        UsedMono(codesize[..], i + 1, SYMBOLS);
        OneCount(bits[..], codesize[i], MAX_CLEN);
        CountAdd(bits[..], codesize[i], MAX_CLEN);
        bits[codesize[i]] := (bits[codesize[i]] + 1) % 256;
        assert bits[..] == before[codesize[i] := before[codesize[i]] + 1];
      }
      CountsNext(before, codesize[..], i);
    }
    ok := true;
  }

  lemma {:induction false} UsedNone(codesize: seq<nat>)
    ensures UsedSum(codesize, 0) == 0.0 && Used(codesize, 0) == 0
  {}

  lemma UsedNext(codesize: seq<nat>, i: nat)
    requires i < |codesize|
    ensures UsedSum(codesize, i + 1) == UsedSum(codesize, i) + if codesize[i] > 0 then Weight(codesize[i]) else 0.0
    ensures Used(codesize, i + 1) == Used(codesize, i) + if codesize[i] > 0 then 1 else 0
  {}

  // ---- Limiting the lengths ----

  /** A complete code: N codes of lengths 1 to 32, none longer than i, that use up the code space. */
  ghost predicate Complete(bits: seq<nat>, i: nat, N: nat) {
    && |bits| == MAX_CLEN + 1 && 1 <= i <= MAX_CLEN && bits[0] == 0 && N <= 255
    && (forall k :: i < k <= MAX_CLEN ==> bits[k] == 0)
    && Next(bits, i) == Pow2(i) && Count(bits, i) == N
  }

  lemma {:induction false} NextUpdate(bits: seq<nat>, k: nat, v: nat, L: nat)
    requires 1 <= k <= L < |bits|
    ensures var b := bits[k := v];
      && Next(b, L) == Next(bits, L) + Scale(v - bits[k], L - k)
      && Count(b, L) == Count(bits, L) + v - bits[k]
    decreases L
  {
    if k < L {
      NextUpdate(bits, k, v, L - 1);
    } else {
      SameBelow(bits, bits[k := v], L - 1);
    }
  }

  /** The longest codes come in pairs. */
  lemma LongestEven(bits: seq<nat>, i: nat, N: nat)
    requires Complete(bits, i, N)
    ensures bits[i] % 2 == 0
  {}

  /** If all codes have the two greatest lengths, there are at least 2^(i-1) of them. */
  lemma {:induction false} NothingShort(bits: seq<nat>, l: nat)
    requires l < |bits| && forall k :: 1 <= k <= l ==> bits[k] == 0
    ensures Next(bits, l) == 0 && Count(bits, l) == 0
  {
    if l > 0 { NothingShort(bits, l - 1); }
  }

  lemma TwoLengths(bits: seq<nat>, i: nat)
    requires 2 <= i < |bits| && forall k :: 1 <= k <= i - 2 ==> bits[k] == 0
    ensures Next(bits, i) == 2 * bits[i - 1] + bits[i] && Count(bits, i) == bits[i - 1] + bits[i]
  {
    NothingShort(bits, i - 2);
    assert Next(bits, i - 1) == bits[i - 1] && Count(bits, i - 1) == bits[i - 1];
  }

  /** Some code is short enough to become a prefix. */
  lemma DonorExists(bits: seq<nat>, i: nat, N: nat)
    requires Complete(bits, i, N) && i > 16
    ensures exists j :: 1 <= j <= i - 2 && bits[j] > 0
  {
    if forall k :: 1 <= k <= i - 2 ==> bits[k] == 0 {
      TwoLengths(bits, i);
      Pow2Mono(10, i);
      Pow2Values();
      assert false;
    }
  }

  /** Two codes of length i give way to one of length i - 1 and two of length j + 1, in place of one of length j. */
  ghost function Shortened(bits: seq<nat>, i: nat, j: nat): seq<nat>
    requires |bits| == MAX_CLEN + 1 && 1 <= j <= i - 2 && i <= MAX_CLEN && bits[i] >= 2 && bits[j] >= 1
  {
    var a := bits[i := bits[i] - 2];
    var b := a[i - 1 := a[i - 1] + 1];
    var c := b[j + 1 := b[j + 1] + 2];
    c[j := c[j] - 1]
  }

  lemma Balance(i: nat, j: nat)
    requires 1 <= j <= i - 2
    ensures Scale(-2, 0) + Scale(1, 1) + Scale(2, i - j - 1) + Scale(-1, i - j) == 0
  {
    ScaleTwice(1, i - j - 1);
    ScaleNeg(1, i - j);
  }

  lemma ShortenKeeps(bits: seq<nat>, i: nat, j: nat, N: nat)
    requires Complete(bits, i, N) && 1 <= j <= i - 2 && bits[i] >= 2 && bits[j] >= 1
    ensures Complete(Shortened(bits, i, j), i, N)
  {
    hide Next, Count, Pow2, Scale;
    var a := bits[i := bits[i] - 2];
    var b := a[i - 1 := a[i - 1] + 1];
    var c := b[j + 1 := b[j + 1] + 2];
    NextUpdate(bits, i, bits[i] - 2, i);
    NextUpdate(a, i - 1, a[i - 1] + 1, i);
    NextUpdate(b, j + 1, b[j + 1] + 2, i);
    NextUpdate(c, j, c[j] - 1, i);
    Balance(i, j);
  }

  /** A count never exceeds a byte. */
  lemma CountFits(bits: seq<nat>, i: nat, N: nat, k: nat)
    requires Complete(bits, i, N) && k <= MAX_CLEN
    ensures bits[k] <= N
  {
    if 1 <= k <= i { OneCount(bits, k, i); }
  }

  lemma LessLong(bits: seq<nat>, i: nat, N: nat)
    requires Complete(bits, i, N) && bits[i] == 0 && i > 1
    ensures Complete(bits, i - 1, N)
  {}

  /** The longest codes gave way: lengths below t have kept their codes, and lengths above t, up to `top`, were used
      up before t had to give one. */
  ghost predicate GaveWay(sizes: seq<nat>, bits: seq<nat>, t: nat, top: int) {
    && |sizes| == |bits| == MAX_CLEN + 1 && 1 <= t <= MAX_CLEN
    && (forall l :: 1 <= l < t ==> bits[l] == sizes[l])
    && (forall l :: t < l <= top && l <= MAX_CLEN ==> bits[l] <= 2)
    && (t <= 15 ==> bits[t] < sizes[t])
  }

  lemma GiveWay(sizes: seq<nat>, bits: seq<nat>, i: nat, j: nat, t: nat)
    requires GaveWay(sizes, bits, t, i - 2) && 16 < i <= MAX_CLEN && 1 <= j <= i - 2 && bits[i] >= 2 && bits[j] >= 1
    requires forall l :: j < l <= i - 2 ==> bits[l] == 0
    ensures GaveWay(sizes, Shortened(bits, i, j), if j < t then j else t, i - 2)
  {}

  /** What limiting makes of the counts. */
  ghost predicate Limited(sizes: seq<nat>, bits: seq<nat>) {
    && |sizes| == |bits| == MAX_CLEN + 1
    && (exists t :: GaveWay(sizes, bits, t, 15))
    && (Short(sizes) ==> bits == sizes)
  }

  /** No code is longer than 16 bits. */
  ghost predicate Short(sizes: seq<nat>) {
    forall l :: 16 < l < |sizes| ==> sizes[l] == 0
  }

  lemma StartLimit(sizes: seq<nat>)
    requires |sizes| == MAX_CLEN + 1
    ensures GaveWay(sizes, sizes, MAX_CLEN, MAX_CLEN - 1)
  {}

  lemma LowerTop(sizes: seq<nat>, bits: seq<nat>, t: nat, top: int, top': int)
    requires GaveWay(sizes, bits, t, top) && top' <= top
    ensures GaveWay(sizes, bits, t, top')
  {}

  lemma NotShort(sizes: seq<nat>, i: nat)
    requires 16 < i < |sizes| && sizes[i] > 0
    ensures !Short(sizes)
  {}

  /** "remove two symbols", and one code of length j becomes a prefix. */
  method Shorten(bits: array<nat>, i: nat, j: nat, ghost N: nat)
    requires bits.Length == MAX_CLEN + 1 && Complete(bits[..], i, N) && i <= MAX_CLEN
    requires 1 <= j <= i - 2 && bits[i] >= 2 && bits[j] >= 1
    modifies bits
    ensures bits[..] == Shortened(old(bits[..]), i, j) && bits[i] == old(bits[i]) - 2
  {
    hide Complete;
    NoWrap(bits[..], i, j, N);
    bits[i] := bits[i] - 2;
    bits[i - 1] := (bits[i - 1] + 1) % 256;
    bits[j + 1] := (bits[j + 1] + 2) % 256;
    bits[j] := bits[j] - 1;
  }

  /** The loop that limits the code lengths to 16. */
  method LimitLengths(bits: array<nat>, ghost N: nat)
    requires bits.Length == MAX_CLEN + 1 && Complete(bits[..], MAX_CLEN, N)
    modifies bits
    ensures Complete(bits[..], 16, N) && Limited(old(bits[..]), bits[..])
  {
    hide Complete, GaveWay, Short, Shortened;
    var i := MAX_CLEN;
    ghost var sizes, t: nat := bits[..], MAX_CLEN;
    StartLimit(sizes);
    while i > 16
      invariant 16 <= i <= MAX_CLEN && Complete(bits[..], i, N)
      invariant GaveWay(sizes, bits[..], t, i - 1) && (Short(sizes) ==> bits[..] == sizes)
    {
      LowerTop(sizes, bits[..], t, i - 1, i - 2);
      while bits[i] > 0
        invariant Complete(bits[..], i, N)
        invariant GaveWay(sizes, bits[..], t, i - 2) && (Short(sizes) ==> bits[..] == sizes)
        decreases bits[i]
      {
        if bits[..] == sizes { NotShort(sizes, i); }
        LongestEven(bits[..], i, N);
        DonorExists(bits[..], i, N);
        var j := i - 2;
        while bits[j] == 0
          invariant 1 <= j <= i - 2 && exists k :: 1 <= k <= j && bits[k] > 0
          invariant forall l :: j < l <= i - 2 ==> bits[l] == 0
          decreases j
        {
          j := j - 1;
        }
        ShortenKeeps(bits[..], i, j, N);
        GiveWay(sizes, bits[..], i, j, t);
        t := if j < t then j else t;
        Shorten(bits, i, j, N);
      }
      LessLong(bits[..], i, N);
      i := i - 1;
    }
  }

  /** The byte counts do not wrap around. */
  lemma NoWrap(bits: seq<nat>, i: nat, j: nat, N: nat)
    requires Complete(bits, i, N) && 1 <= j <= i - 2 && bits[i] >= 2 && bits[j] >= 1
    ensures bits[i - 1] + 1 <= 255 && bits[j + 1] + (if j + 1 == i - 1 then 1 else 0) + 2 <= 255
  {
    hide Complete;
    CompleteSize(bits, i, N);
    ShortenKeeps(bits, i, j, N);
    CountFits(Shortened(bits, i, j), i, N, i - 1);
    CountFits(Shortened(bits, i, j), i, N, j + 1);
  }

  lemma CompleteSize(bits: seq<nat>, i: nat, N: nat)
    requires Complete(bits, i, N)
    ensures |bits| == MAX_CLEN + 1 && i <= MAX_CLEN && N <= 255
  {}

  // ---- Removing the pseudo-symbol ----

  /** A code of the greatest length i in use is taken away. */
  ghost predicate LastDropped(bits: seq<nat>, fewer: seq<nat>, i: nat) {
    && |bits| == |fewer| == MAX_CLEN + 1 && 1 <= i <= 16 && bits[i] > 0
       && (forall k :: i < k <= MAX_CLEN ==> bits[k] == 0)
    && fewer == bits[i := bits[i] - 1]
  }

  /** "Remove the count for the pseudo-symbol 256 from the largest codelength" */
  method DropPseudoSymbol(bits: array<nat>, ghost N: nat)
    requires bits.Length == MAX_CLEN + 1 && Complete(bits[..], 16, N)
    modifies bits
    ensures exists i :: LastDropped(old(bits[..]), bits[..], i)
    ensures Counts(bits[..17]) && Legal(bits[..17]) && Count(bits[..17], 16) == N - 1
  {
    hide Complete, Counts, Legal;
    var i := 16;
    CodesInUse(bits[..], 16, N);
    while bits[i] == 0
      invariant 1 <= i <= 16 && Complete(bits[..], i, N) && N > 0 && (i == 1 ==> bits[1] > 0)
      invariant bits[..] == old(bits[..])
      decreases i
    {
      LessLong(bits[..], i, N);
      CodesInUse(bits[..], i - 1, N);
      i := i - 1;
    }
    Dropped(bits[..], i, N);
    ghost var before := bits[..];
    bits[i] := bits[i] - 1;
    assert bits[..] == before[i := before[i] - 1];
    IsLast(before, i, N);
    assert LastDropped(before, bits[..], i);
  }

  lemma IsLast(bits: seq<nat>, i: nat, N: nat)
    requires Complete(bits, i, N) && i <= 16
    ensures |bits| == MAX_CLEN + 1 && i >= 1 && forall k :: i < k <= MAX_CLEN ==> bits[k] == 0
  {}

  lemma CodesInUse(bits: seq<nat>, i: nat, N: nat)
    requires Complete(bits, i, N)
    ensures N > 0 && |bits| == MAX_CLEN + 1 && (i == 1 ==> bits[1] > 0)
  {
    assert i == 1 ==> Next(bits, 1) == bits[1] && Pow2(1) == 2;
    if N == 0 {
      NoCodesNoSpace(bits, i);
      assert false;
    }
  }

  lemma {:induction false} NoCodesNoSpace(bits: seq<nat>, i: nat)
    requires i < |bits| && Count(bits, i) == 0
    ensures Next(bits, i) == 0
  {
    if i > 0 { NoCodesNoSpace(bits, i - 1); }
  }

  /** One code fewer leaves the code space short of complete, so no code is all ones. */
  lemma Dropped(bits: seq<nat>, i: nat, N: nat)
    requires Complete(bits, i, N) && i <= 16 && bits[i] > 0
    ensures var b := bits[i := bits[i] - 1][..17]; Counts(b) && Legal(b) && Count(b, 16) == N - 1
  {
    hide Pow2;
    var c := bits[i := bits[i] - 1];
    var b := c[..17];
    NextUpdate(bits, i, bits[i] - 1, i);
    forall k | 0 <= k < 17 ensures b[k] < 256 { CountFits(bits, i, N, k); }
    SameCut(c, b, i);
    TailZeros(b, i, 16);
    forall l | 0 <= l <= 16 ensures Next(b, l) < Pow2(l) { NextBound(b, l, 16); }
  }

  lemma {:induction false} SameCut(c: seq<nat>, b: seq<nat>, l: nat)
    requires l < |b| <= |c| && b == c[..|b|]
    ensures Next(b, l) == Next(c, l) && Count(b, l) == Count(c, l)
  {
    if l > 0 { SameCut(c, b, l - 1); }
  }

  lemma {:induction false} TailZeros(b: seq<nat>, i: nat, L: nat)
    requires i <= L < |b| && (forall k :: i < k <= L ==> b[k] == 0) && Next(b, i) < Pow2(i)
    ensures Next(b, L) < Pow2(L) && Count(b, L) == Count(b, i)
  {
    if i < L { TailZeros(b, i, L - 1); }
  }

  // ---- Listing the symbols ----

  /** The symbols below n with code length i, in increasing order. */
  function OfLength(codesize: seq<nat>, i: nat, n: nat): seq<nat>
    requires n <= |codesize|
  {
    if n == 0 then [] else OfLength(codesize, i, n - 1) + if codesize[n - 1] == i then [n - 1] else []
  }

  /** The symbols below n with code lengths 1 to i, by length, then in increasing order. */
  function ByLength(codesize: seq<nat>, i: nat, n: nat): seq<nat>
    requires n <= |codesize|
  {
    if i == 0 then [] else ByLength(codesize, i - 1, n) + OfLength(codesize, i, n)
  }

  /** No symbol twice; longer codes later, and symbols of one length in increasing order. */
  ghost predicate Ordered(codesize: seq<nat>, t: seq<nat>) {
    && (forall a :: 0 <= a < |t| ==> t[a] < |codesize|)
    && (forall a, b :: 0 <= a < b < |t| ==>
          codesize[t[a]] < codesize[t[b]] || (codesize[t[a]] == codesize[t[b]] && t[a] < t[b]))
  }

  lemma OrderedConcat(codesize: seq<nat>, x: seq<nat>, y: seq<nat>, i: nat)
    requires Ordered(codesize, x) && Ordered(codesize, y)
    requires forall a :: 0 <= a < |x| ==> codesize[x[a]] < i
    requires forall b :: 0 <= b < |y| ==> codesize[y[b]] == i
    ensures Ordered(codesize, x + y)
  {
    var t := x + y;
    forall a, b | 0 <= a < b < |t|
      ensures codesize[t[a]] < codesize[t[b]] || (codesize[t[a]] == codesize[t[b]] && t[a] < t[b])
    {
      if a < |x| && b >= |x| { assert t[a] == x[a] && t[b] == y[b - |x|]; }
      else if a >= |x| { assert t[a] == y[a - |x|] && t[b] == y[b - |x|]; }
    }
  }

  lemma {:induction false} OfLengthAll(codesize: seq<nat>, i: nat, n: nat)
    requires n <= |codesize|
    ensures forall s: nat :: s in OfLength(codesize, i, n) <==> s < n && codesize[s] == i
    ensures Ordered(codesize, OfLength(codesize, i, n))
  {
    if n > 0 {
      OfLengthAll(codesize, i, n - 1);
      var t := OfLength(codesize, i, n - 1);
      forall a | 0 <= a < |t| ensures t[a] < n - 1 && codesize[t[a]] == i { assert t[a] in t; }
    }
  }

  /** Exactly the symbols with a code are listed, each once, and longer codes come later. */
  lemma {:induction false} ByLengthAll(codesize: seq<nat>, i: nat, n: nat)
    requires n <= |codesize|
    ensures forall s: nat :: s in ByLength(codesize, i, n) <==> s < n && 1 <= codesize[s] <= i
    ensures Ordered(codesize, ByLength(codesize, i, n))
  {
    hide OfLength, Ordered;
    if i > 0 {
      ByLengthAll(codesize, i - 1, n);
      OfLengthAll(codesize, i, n);
      var x, y := ByLength(codesize, i - 1, n), OfLength(codesize, i, n);
      forall a | 0 <= a < |x| ensures x[a] < n && 1 <= codesize[x[a]] < i { assert x[a] in x; }
      forall b | 0 <= b < |y| ensures y[b] < n && codesize[y[b]] == i { assert y[b] in y; }
      OrderedConcat(codesize, x, y, i);
    } else {
      NothingOrdered(codesize);
    }
  }

  lemma NothingOrdered(codesize: seq<nat>)
    ensures Ordered(codesize, [])
  {}

  lemma {:induction false} ByLengthNone(codesize: seq<nat>, i: nat)
    ensures ByLength(codesize, i, 0) == []
  {
    if i > 0 { ByLengthNone(codesize, i - 1); }
  }

  lemma {:induction false} ByLengthOne(codesize: seq<nat>, i: nat, n: nat)
    requires n < |codesize|
    ensures |ByLength(codesize, i, n + 1)| == |ByLength(codesize, i, n)| + if 1 <= codesize[n] <= i then 1 else 0
  {
    if i > 0 { ByLengthOne(codesize, i - 1, n); }
  }

  lemma {:induction false} ByLengthSize(codesize: seq<nat>, n: nat)
    requires n <= |codesize| && forall s :: 0 <= s < n ==> codesize[s] <= MAX_CLEN
    ensures |ByLength(codesize, MAX_CLEN, n)| == Used(codesize, n)
  {
    hide ByLength;
    if n == 0 {
      ByLengthNone(codesize, MAX_CLEN);
    } else {
      ByLengthSize(codesize, n - 1);
      ByLengthOne(codesize, MAX_CLEN, n - 1);
    }
  }

  lemma {:induction false} ByLengthPart(codesize: seq<nat>, i: nat, k: nat)
    requires i <= k && 256 <= |codesize|
    ensures |ByLength(codesize, i, 256)| <= |ByLength(codesize, k, 256)|
  {
    if i < k { ByLengthPart(codesize, i, k - 1); }
  }

  lemma {:induction false} OfLengthPart(codesize: seq<nat>, i: nat, m: nat, n: nat)
    requires m <= n <= |codesize|
    ensures |OfLength(codesize, i, m)| <= |OfLength(codesize, i, n)|
  {
    if m < n { OfLengthPart(codesize, i, m, n - 1); }
  }

  /** The symbols of one length, from position p. */
  method ListLength(codesize: array<nat>, huffval: array<nat>, i: nat, p0: nat) returns (p: nat)
    requires codesize.Length == SYMBOLS && huffval.Length == 256 && codesize != huffval
    requires p0 + |OfLength(codesize[..], i, 256)| <= 256
    modifies huffval
    ensures var t := OfLength(codesize[..], i, 256);
      p == p0 + |t| && huffval[..p] == old(huffval[..p0]) + t && huffval[p..] == old(huffval[p..])
  {
    hide OfLength;
    ghost var sizes, front := codesize[..], huffval[..p0];
    NoneListed(sizes, i);
    p := p0;
    assert front + [] == front;
    for j := 0 to 256
      invariant p == p0 + |OfLength(sizes, i, j)| <= 256 && codesize[..] == sizes
      invariant huffval[..p] == front + OfLength(sizes, i, j) && huffval[p..] == old(huffval[..])[p..]
    {
      OfLengthPart(sizes, i, j + 1, 256);
      OfLengthNext(sizes, i, j);
      if codesize[j] == i {
        huffval[p] := j;
        p := p + 1;
      }
    }
  }

  /** "Return a list of the symbols sorted by code length" */
  method ListSymbols(codesize: array<nat>, huffval: array<nat>)
    requires codesize.Length == SYMBOLS && huffval.Length == 256 && codesize != huffval
    requires |ByLength(codesize[..], MAX_CLEN, 256)| <= 256
    modifies huffval
    ensures var t := ByLength(codesize[..], MAX_CLEN, 256);
      huffval[..|t|] == t && huffval[|t|..] == old(huffval[..])[|t|..]
  {
    hide ByLength, OfLength;
    ghost var sizes := codesize[..];
    NothingListed(sizes);
    var p := 0;
    for i := 1 to MAX_CLEN + 1
      invariant p == |ByLength(sizes, i - 1, 256)| <= 256 && codesize[..] == sizes
      invariant huffval[..p] == ByLength(sizes, i - 1, 256) && huffval[p..] == old(huffval[..])[p..]
    {
      ListNext(sizes, i);
      p := ListLength(codesize, huffval, i, p);
    }
  }

  lemma {:induction false} NoneListed(sizes: seq<nat>, i: nat)
    ensures OfLength(sizes, i, 0) == []
  {}

  lemma {:induction false} NothingListed(sizes: seq<nat>)
    requires |sizes| == SYMBOLS
    ensures ByLength(sizes, 0, 256) == []
  {}

  lemma ListNext(sizes: seq<nat>, i: nat)
    requires |sizes| == SYMBOLS && 1 <= i <= MAX_CLEN
    ensures ByLength(sizes, i, 256) == ByLength(sizes, i - 1, 256) + OfLength(sizes, i, 256)
    ensures |ByLength(sizes, i, 256)| <= |ByLength(sizes, MAX_CLEN, 256)|
  {
    ByLengthPart(sizes, i, MAX_CLEN);
  }

  lemma OfLengthNext(sizes: seq<nat>, i: nat, j: nat)
    requires j < |sizes|
    ensures OfLength(sizes, i, j + 1) == OfLength(sizes, i, j) + if sizes[j] == i then [j] else []
  {}

  // ---- Every symbol has a code of its own length ----

  /** The finished counts: those of the lengths, limited, without one of the greatest length. */
  ghost predicate FromLengths(codesizes: seq<nat>, bits: seq<nat>)
    requires |codesizes| == SYMBOLS
  {
    exists sizes, limited, fewer, i ::
      (SizeCounts(sizes, codesizes, SYMBOLS) && Limited(sizes, limited) && LastDropped(limited, fewer, i)
       && bits == fewer[..17])
  }

  /** The table has as many codes of each length as symbols were given that length, and each symbol has one of
      them. */
  ghost predicate OwnLengths(codesizes: seq<nat>, h: HuffTbl)
    requires |codesizes| == SYMBOLS && h.WellTyped()
  {
    && (forall l :: 1 <= l <= 16 ==> h.bits[l] == HowMany(codesizes, l, 256))
    && (forall p, l :: 0 <= p < 256 && HasLen(h.bits, p, l) ==> codesizes[h.huffval[p]] == l)
  }

  lemma {:induction false} SomeOfLength(codesizes: seq<nat>, s: nat, n: nat)
    requires s < n <= |codesizes|
    ensures HowMany(codesizes, codesizes[s], n) > 0
  {
    if s < n - 1 { SomeOfLength(codesizes, s, n - 1); }
  }

  lemma {:induction false} NoneOfLength(codesizes: seq<nat>, l: nat, n: nat)
    requires n <= |codesizes| && forall s :: 0 <= s < n ==> codesizes[s] < l
    ensures HowMany(codesizes, l, n) == 0
  {
    if n > 0 { NoneOfLength(codesizes, l, n - 1); }
  }

  /** Without long codes, only the pseudo-symbol's own code goes. */
  lemma {:induction false} CountsAreOwn(codesizes: seq<nat>, bits: seq<nat>, l: nat)
    requires |codesizes| == SYMBOLS && FromLengths(codesizes, bits) && 1 <= l <= 16
    requires forall s :: 0 <= s < SYMBOLS ==> codesizes[s] <= codesizes[256] <= 16
    ensures |bits| == 17 && bits[l] == HowMany(codesizes, l, 256)
  {
    hide HowMany, GaveWay;
    var sizes, limited, fewer, i :|
      SizeCounts(sizes, codesizes, SYMBOLS) && Limited(sizes, limited) && LastDropped(limited, fewer, i)
      && bits == fewer[..17];
    forall k | codesizes[256] < k <= MAX_CLEN ensures sizes[k] == 0 { NoneOfLength(codesizes, k, SYMBOLS); }
    assert limited == sizes;
    SomeOfLength(codesizes, 256, SYMBOLS);
    HowManyNext(codesizes, l, 256);
    if codesizes[256] == 0 {
      NoneOfLength(codesizes, i, SYMBOLS);
      assert false;
    }
    assert i == codesizes[256];
  }

  lemma {:induction false} OfLengthSize(codesizes: seq<nat>, l: nat, n: nat)
    requires n <= |codesizes|
    ensures |OfLength(codesizes, l, n)| == HowMany(codesizes, l, n)
  {
    if n > 0 { OfLengthSize(codesizes, l, n - 1); }
  }

  lemma {:induction false} ByLengthCount(codesizes: seq<nat>, bits: seq<nat>, l: nat)
    requires |codesizes| == SYMBOLS && |bits| == 17 && l <= 16
    requires forall k :: 1 <= k <= 16 ==> bits[k] == HowMany(codesizes, k, 256)
    ensures |ByLength(codesizes, l, 256)| == Count(bits, l)
    ensures ByLength(codesizes, l, 256) <= ByLength(codesizes, MAX_CLEN, 256)
  {
    hide HowMany, OfLength;
    if l > 0 {
      ByLengthCount(codesizes, bits, l - 1);
      OfLengthSize(codesizes, l, 256);
    }
    ByLengthPrefix(codesizes, l, MAX_CLEN);
  }

  lemma {:induction false} ByLengthPrefix(codesizes: seq<nat>, i: nat, k: nat)
    requires |codesizes| == SYMBOLS && i <= k
    ensures ByLength(codesizes, i, 256) <= ByLength(codesizes, k, 256)
  {
    if i < k { ByLengthPrefix(codesizes, i, k - 1); }
  }

  lemma {:induction false} ListedAtOwnLength(codesizes: seq<nat>, h: HuffTbl, p: nat, l: nat)
    requires |codesizes| == SYMBOLS && h.WellTyped() && p < 256 && HasLen(h.bits, p, l)
    requires forall k :: 1 <= k <= 16 ==> h.bits[k] == HowMany(codesizes, k, 256)
    requires ByLength(codesizes, MAX_CLEN, 256) <= h.huffval
    ensures codesizes[h.huffval[p]] == l
  {
    hide HowMany, OfLength;
    ByLengthCount(codesizes, h.bits, l);
    ByLengthCount(codesizes, h.bits, l - 1);
    OfLengthAll(codesizes, l, 256);
    var t, u := ByLength(codesizes, l, 256), ByLength(codesizes, l - 1, 256);
    assert t == u + OfLength(codesizes, l, 256);
    assert h.huffval[p] == t[p] == OfLength(codesizes, l, 256)[p - |u|];
    assert h.huffval[p] in OfLength(codesizes, l, 256);
  }

  lemma {:induction false} OwnLengthsHold(codesizes: seq<nat>, h: HuffTbl)
    requires |codesizes| == SYMBOLS && h.WellTyped() && FromLengths(codesizes, h.bits)
    requires forall s :: 0 <= s < SYMBOLS ==> codesizes[s] <= codesizes[256] <= 16
    requires ByLength(codesizes, MAX_CLEN, 256) <= h.huffval
    ensures OwnLengths(codesizes, h)
  {
    hide HowMany, ByLength, FromLengths;
    forall l | 1 <= l <= 16 ensures h.bits[l] == HowMany(codesizes, l, 256) { CountsAreOwn(codesizes, h.bits, l); }
    forall p, l | 0 <= p < 256 && HasLen(h.bits, p, l) ensures codesizes[h.huffval[p]] == l {
      ListedAtOwnLength(codesizes, h, p, l);
    }
  }

  /** Then the derived table codes every counted symbol in as many bits as Huffman's procedure gave it. */
  lemma SentInOwnLength(freq: seq<nat>, codesizes: seq<nat>, h: HuffTbl, c: CTbl, s: nat)
    requires |freq| == |codesizes| == SYMBOLS && TableFor(freq, h) && Count(h.bits, 16) <= 256 && Encodes(h, c)
    requires OwnLengths(codesizes, h) && Counted(freq, s)
    ensures s < |c.ehufsi| && c.ehufsi[s] == codesizes[s]
  {
    hide Legal, HowMany;
    var n := Count(h.bits, 16);
    assert s in h.huffval[..n];
    var p :| 0 <= p < n && h.huffval[p] == s;
    var l := LenExists(h.bits, p, 16);
  }

  // ---- The whole routine ----

  /** The real symbols with nonzero counts. */
  ghost predicate Counted(freq: seq<nat>, s: nat)
    requires |freq| == SYMBOLS
  {
    s < 256 && freq[s] > 0
  }

  /** What the coders guarantee: some symbol was counted, at most 254 different ones, and not more
      than 10^9 in all. */
  ghost predicate Gathered(freq: seq<nat>) {
    |freq| == SYMBOLS && (exists s :: Counted(freq, s)) && Roots(freq, 256) <= 254 && SumTo(freq, 256) <= SENTINEL
  }

  /** The table is legal and lists exactly the counted symbols, each once. */
  ghost predicate TableFor(freq: seq<nat>, h: HuffTbl)
    requires |freq| == SYMBOLS
  {
    && h.WellTyped() && Legal(h.bits)
    && (forall p, q :: 0 <= p < q < Count(h.bits, 16) ==> h.huffval[p] != h.huffval[q])
    && (forall s: nat :: Counted(freq, s) <==> s in h.huffval[..Count(h.bits, 16)])
  }

  lemma {:induction false} RootsOfTree(init: seq<nat>, codesize: seq<nat>, n: nat)
    requires n <= |init| == |codesize| && forall s :: 0 <= s < n ==> (init[s] > 0 <==> codesize[s] > 0)
    ensures Used(codesize, n) == Roots(init, n)
  {
    if n > 0 { RootsOfTree(init, codesize, n - 1); }
  }

  /** The final tree: every counted symbol, and no other, has a code, and the weights sum to 1. */
  lemma {:induction false} TreeCodes(init: seq<nat>, freq: seq<nat>, codesize: seq<nat>, others: seq<int>,
                                     owner: seq<int>, ch: seq<seq<nat>>, root: nat)
    requires Forest(init, freq, codesize, others, owner, ch) && OneTree(freq, root)
    requires init[256] > 0 && exists s :: Counted(init, s)
    ensures |codesize| == SYMBOLS && forall s :: 0 <= s < SYMBOLS ==> (init[s] > 0 <==> codesize[s] > 0)
    ensures UsedSum(codesize, SYMBOLS) == 1.0
  {
    hide TreeSum, UsedSum, Chain, FreqSum;
    var other :| Counted(init, other);
    forall s | 0 <= s < SYMBOLS ensures (init[s] > 0 <==> codesize[s] > 0) {
      if init[s] > 0 && codesize[s] == 0 {
        var t := if s == 256 then other else 256;
        TwoWeights(owner, codesize, root, s, t, SYMBOLS);
        assert false;
      }
    }
    SameSums(owner, codesize, root, SYMBOLS);
  }

  lemma {:induction false} WeightIn(owner: seq<int>, codesize: seq<nat>, c: int, s: nat, n: nat)
    requires s < n <= |owner| && n <= |codesize| && owner[s] == c
    ensures TreeSum(owner, codesize, c, n) >= Weight(codesize[s])
  {
    if s < n - 1 { WeightIn(owner, codesize, c, s, n - 1); } else { NotNegative(owner, codesize, c, n - 1); }
  }

  lemma {:induction false} NotNegative(owner: seq<int>, codesize: seq<nat>, c: int, n: nat)
    requires n <= |owner| && n <= |codesize|
    ensures TreeSum(owner, codesize, c, n) >= 0.0
  {
    if n > 0 { NotNegative(owner, codesize, c, n - 1); }
  }

  lemma {:induction false} TwoWeights(owner: seq<int>, codesize: seq<nat>, c: int, s: nat, t: nat, n: nat)
    requires s < n <= |owner| && t < n <= |codesize| && s != t && owner[s] == c && owner[t] == c && codesize[s] == 0
    ensures TreeSum(owner, codesize, c, n) > 1.0
  {
    if s == n - 1 { WeightIn(owner, codesize, c, t, n - 1); }
    else if t == n - 1 { WeightIn(owner, codesize, c, s, n - 1); }
    else { TwoWeights(owner, codesize, c, s, t, n - 1); }
  }

  lemma {:induction false} SameSums(owner: seq<int>, codesize: seq<nat>, c: int, n: nat)
    requires n <= |owner| && n <= |codesize| && forall s :: 0 <= s < n ==> (owner[s] == c <==> codesize[s] > 0)
    ensures UsedSum(codesize, n) == TreeSum(owner, codesize, c, n)
  {
    if n > 0 { SameSums(owner, codesize, c, n - 1); }
  }

  /** Weights that sum to 1 are a complete code. */
  lemma {:induction false} CompleteCode(bits: seq<nat>, N: nat)
    requires |bits| == MAX_CLEN + 1 && bits[0] == 0 && Kraft(bits, MAX_CLEN) == 1.0 && Count(bits, MAX_CLEN) == N <= 255
    ensures Complete(bits, MAX_CLEN, N)
  {
    hide Kraft, Next, Pow2, Weight;
    KraftNext(bits, MAX_CLEN);
    WeightPow2(MAX_CLEN);
    SameFactor(Next(bits, MAX_CLEN) as real, Pow2(MAX_CLEN) as real, Weight(MAX_CLEN));
  }

  lemma SameFactor(a: real, b: real, w: real)
    requires w > 0.0 && a * w == 1.0 && w * b == 1.0
    ensures a == b
  {
    assert (a - b) * w == 0.0;
  }

  /** No prefix code for these counts gives less data in total. */
  ghost predicate ShortestCode(init: seq<nat>, codesize: seq<nat>) {
    |init| == |codesize| == SYMBOLS && forall words: seq<seq<bool>> :: PrefixCode(init, words) ==>
      |words| == SYMBOLS && Cost(init, codesize, SYMBOLS) <= Cost(init, WordLengths(words), SYMBOLS)
  }

  lemma {:induction false} AllPrefixCodes(init: seq<nat>, codesize: seq<nat>)
    requires |init| == |codesize| == SYMBOLS
    requires forall l: seq<nat> :: Lengths(init, l) ==>
      |l| == SYMBOLS && Cost(init, codesize, SYMBOLS) <= Cost(init, l, SYMBOLS)
    ensures ShortestCode(init, codesize)
  {
    hide Cost, KraftSum;
    forall words: seq<seq<bool>> | PrefixCode(init, words)
      ensures |words| == SYMBOLS && Cost(init, codesize, SYMBOLS) <= Cost(init, WordLengths(words), SYMBOLS)
    {
      PrefixCodeLengths(init, words);
    }
  }

  /** What the tree gives: exactly the counted symbols and the pseudo-symbol have codes, these use up
      the code space, no prefix code does better, and long codes need many symbols. */
  ghost predicate SizesFor(freq: seq<nat>, codesizes: seq<nat>)
    requires |freq| == SYMBOLS
  {
    && |codesizes| == SYMBOLS && codesizes[256] > 0 && UsedSum(codesizes, SYMBOLS) == 1.0
    && (forall s :: 0 <= s < 256 ==> (codesizes[s] > 0 <==> Counted(freq, s)))
    && (forall s :: 0 <= s < SYMBOLS ==> codesizes[s] <= codesizes[256])
    && Used(codesizes, SYMBOLS) <= 255 && ShortestCode(freq[256 := 1], codesizes)
    && (forall s :: 0 <= s < SYMBOLS && codesizes[s] > 0 ==> Fib(codesizes[s] + 2) <= SumTo(freq[256 := 1], SYMBOLS))
  }

  /** The first half of jpeg_gen_optimal_table: the code lengths. */
  method FindSizes(freq: array<nat>) returns (codesize: array<nat>)
    requires freq.Length == SYMBOLS && Gathered(freq[..])
    modifies freq
    ensures fresh(codesize) && codesize.Length == SYMBOLS && SizesFor(old(freq[..]), codesize[..])
  {
    hide SumTo, Roots, Forest, Used, UsedSum, Cost, Lengths, ShortestCode, Fib;
    ghost var freq0 := freq[..];
    codesize := new nat[SYMBOLS](_ => 0);
    var others := new int[SYMBOLS](_ => -1);
    freq[256] := 1;
    ghost var init := freq[..];
    assert init == freq0[256 := 1];
    WithPseudoSymbol(freq0, init);
    ghost var owner, ch, root := BuildTree(freq, codesize, others);
    TreeCodes(init, freq[..], codesize[..], others[..], owner, ch, root);
    AllPrefixCodes(init, codesize[..]);
    RootsOfTree(init, codesize[..], SYMBOLS);
  }

  /** jpeg_gen_optimal_table: fails only if a code length exceeds 32, which takes more than nine million
      symbols; otherwise the table it makes is legal and lists exactly the symbols that were counted,
      those with shorter codes first. */
  method GenOptimalTable(freq: array<nat>, htbl: HuffTbl) returns (ok: bool, h: HuffTbl, ghost codesizes: seq<nat>)
    requires freq.Length == SYMBOLS && Gathered(freq[..]) && htbl.WellTyped()
    modifies freq
    ensures |codesizes| == SYMBOLS && (ok <==> forall s :: 0 <= s < SYMBOLS ==> codesizes[s] <= MAX_CLEN)
    ensures forall s :: 0 <= s < 256 ==> (codesizes[s] > 0 <==> Counted(old(freq[..]), s))
    ensures codesizes[256] > 0 && UsedSum(codesizes, SYMBOLS) == 1.0
    ensures forall s :: 0 <= s < SYMBOLS ==> codesizes[s] <= codesizes[256]
    ensures ShortestCode(old(freq[..])[256 := 1], codesizes)
    ensures !ok ==> SumTo(old(freq[..]), 256) >= OVERFLOW_TOTAL
    ensures ok ==> TableFor(old(freq[..]), h) && Ordered(codesizes, h.huffval[..Count(h.bits, 16)])
    ensures ok ==> FromLengths(codesizes, h.bits)
    ensures ok && codesizes[256] <= 16 ==> OwnLengths(codesizes, h)
  {
    hide SumTo, Roots, Complete, Legal, Used, UsedSum, Kraft, Count, ByLength, ShortestCode, Fib;
    hide SizeCounts, Limited, LastDropped, OwnLengths;
    ghost var freq0 := freq[..];
    var bits := new nat[MAX_CLEN + 1](_ => 0);
    var codesize := FindSizes(freq);
    codesizes := codesize[..];
    ok := CountLengths(codesize, bits);
    h := htbl;
    if !ok {
      ghost var s :| 0 <= s < SYMBOLS && codesizes[s] > MAX_CLEN;
      OverflowTotal(freq0, codesizes[s]);
      return;
    }
    ghost var N := Used(codesizes, SYMBOLS);
    CompleteCode(bits[..], N);
    ghost var sizes := bits[..];
    LimitLengths(bits, N);
    ghost var limited := bits[..];
    DropPseudoSymbol(bits, N);
    assert FromLengths(codesizes, bits[..17]);
    var huffval := new nat[256](i requires 0 <= i < 256 => htbl.huffval[i]);
    ByLengthSize(codesizes, 256);
    UsedNext(codesizes, 256);
    ListSymbols(codesize, huffval);
    h := HuffTbl(bits[..17], huffval[..]);
    Finished(freq0, codesizes, htbl, h, N);
    if codesizes[256] <= 16 { OwnLengthsHold(codesizes, h); }
  }

  /** Fewer symbols than this never give a code of more than 32 bits. */
  const OVERFLOW_TOTAL: nat := 9227464

  lemma {:induction false} FibMono(m: nat, n: nat)
    requires m <= n
    ensures Fib(m) <= Fib(n)
  {
    if m < n { FibMono(m, n - 1); }
  }

  lemma OverflowTotal(freq: seq<nat>, size: nat)
    requires |freq| == SYMBOLS && size > MAX_CLEN && Fib(size + 2) <= SumTo(freq[256 := 1], SYMBOLS)
    ensures SumTo(freq, 256) >= OVERFLOW_TOTAL
  {
    hide Fib;
    SumSame(freq, freq[256 := 1], 256);
    FibMono(MAX_CLEN + 3, size + 2);
    Fib35();
  }

  lemma Fib35()
    ensures Fib(35) == 9227465
  {
    FibTen(5, 3, 5);
    FibTen(15, Fib(14), Fib(15));
    FibTen(25, Fib(24), Fib(25));
  }

  lemma FibTen(n: nat, a: nat, b: nat)
    requires n > 0 && Fib(n - 1) == a && Fib(n) == b
    ensures Fib(n + 9) == 34 * a + 55 * b
    ensures Fib(n + 10) == 55 * a + 89 * b
  {
    assert Fib(n + 1) == a + b && Fib(n + 2) == a + 2 * b;
    assert Fib(n + 3) == 2 * a + 3 * b && Fib(n + 4) == 3 * a + 5 * b;
    assert Fib(n + 5) == 5 * a + 8 * b && Fib(n + 6) == 8 * a + 13 * b;
    assert Fib(n + 7) == 13 * a + 21 * b && Fib(n + 8) == 21 * a + 34 * b;
  }

  lemma {:induction false} WithPseudoSymbol(freq: seq<nat>, init: seq<nat>)
    requires Gathered(freq) && init == freq[256 := 1]
    ensures Countable(init) && init[256] > 0 && Roots(init, SYMBOLS) <= 255 && exists s :: Counted(init, s)
  {
    SumSame(freq, init, 256);
    var s :| Counted(freq, s);
    assert Counted(init, s);
  }

  lemma {:induction false} SumSame(a: seq<nat>, b: seq<nat>, n: nat)
    requires n <= |a| && n <= |b| && forall i :: 0 <= i < n ==> a[i] == b[i]
    ensures SumTo(a, n) == SumTo(b, n) && Roots(a, n) == Roots(b, n)
  {
    if n > 0 { SumSame(a, b, n - 1); }
  }

  lemma {:induction false} Finished(freq: seq<nat>, codesize: seq<nat>, htbl: HuffTbl, h: HuffTbl, N: nat)
    requires |freq| == SYMBOLS == |codesize| && htbl.WellTyped() && |h.huffval| == 256
    requires forall s :: 0 <= s < SYMBOLS ==> codesize[s] <= MAX_CLEN
    requires forall s :: 0 <= s < 256 ==> (codesize[s] > 0 <==> Counted(freq, s))
    requires Counts(h.bits) && Legal(h.bits) && Count(h.bits, 16) == |ByLength(codesize, MAX_CLEN, 256)| <= 256
    requires var t := ByLength(codesize, MAX_CLEN, 256);
      h.huffval[..|t|] == t && h.huffval[|t|..] == htbl.huffval[|t|..]
    ensures TableFor(freq, h) && Ordered(codesize, h.huffval[..Count(h.bits, 16)])
  {
    hide ByLength, Legal, Count;
    var t := ByLength(codesize, MAX_CLEN, 256);
    ByLengthAll(codesize, MAX_CLEN, 256);
    forall i | 0 <= i < 256 ensures h.huffval[i] < 256 {
      if i < |t| { assert h.huffval[i] == t[i] && t[i] in t; } else {
        assert h.huffval[i] == htbl.huffval[|t|..][i - |t|];
      }
    }
    forall p, q | 0 <= p < q < |t| ensures h.huffval[p] != h.huffval[q] {
      assert h.huffval[p] == t[p] && h.huffval[q] == t[q];
    }
  }

  /** The encoder accepts the table, for a DC table if only symbols up to 15 were counted, and so does
      the decoder. */
  lemma TableAccepted(freq: seq<nat>, h: HuffTbl, isDC: bool)
    requires |freq| == SYMBOLS && TableFor(freq, h)
    requires isDC ==> forall s :: Counted(freq, s) ==> s <= 15
    ensures EncoderAccepts(h, isDC) && DecoderAccepts(h, isDC)
  {
    hide Legal;
    var n := Count(h.bits, 16);
    SomeCount(h.bits);
    forall p | 0 <= p < n ensures h.huffval[p] <= if isDC then 15 else 255 {
      assert h.huffval[p] in h.huffval[..n];
      assert Counted(freq, h.huffval[p]);
    }
  }

  lemma {:induction false} SomeCount(bits: seq<nat>)
    requires |bits| == 17 && Legal(bits)
    ensures Count(bits, 16) <= 256
  {}

  /** Every counted symbol has a code in the table derived from it. */
  lemma CountedSymbolsHaveCodes(freq: seq<nat>, h: HuffTbl, c: CTbl, s: nat)
    requires |freq| == SYMBOLS && TableFor(freq, h) && Count(h.bits, 16) <= 256 && Encodes(h, c)
    ensures Counted(freq, s) ==> s < |c.ehufsi| && c.ehufsi[s] > 0
  {
    hide Legal;
    if Counted(freq, s) {
      var n := Count(h.bits, 16);
      assert s in h.huffval[..n];
      var p :| 0 <= p < n && h.huffval[p] == s;
      var l := LenExists(h.bits, p, 16);
    }
  }
}
