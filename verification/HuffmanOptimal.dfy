/** Optimality of Huffman's procedure: no prefix code for the same counts is shorter in total. */
module HuffmanOptimal {
  import opened Bits
  import opened HuffmanTables

  /** The total length of the coded data: the sum of count times code length. */
  function Cost(f: seq<nat>, l: seq<nat>, n: nat): nat
    requires n <= |f| && n <= |l|
  {
    if n == 0 then 0 else Cost(f, l, n - 1) + f[n - 1] * l[n - 1]
  }

  /** The weights of the symbols with nonzero counts. */
  ghost function KraftSum(f: seq<nat>, l: seq<nat>, n: nat): real
    requires n <= |f| && n <= |l|
  {
    if n == 0 then 0.0 else KraftSum(f, l, n - 1) + if f[n - 1] > 0 then Weight(l[n - 1]) else 0.0
  }

  /** Lengths that a prefix code can have. */
  ghost predicate Lengths(f: seq<nat>, l: seq<nat>) {
    |f| == |l| && KraftSum(f, l, |f|) <= 1.0
  }

  lemma {:induction false} CostUpdate(f: seq<nat>, l: seq<nat>, i: nat, fv: nat, lv: nat, n: nat)
    requires n <= |f| == |l| && i < |f|
    ensures Cost(f[i := fv], l[i := lv], n) == Cost(f, l, n) + if i < n then fv * lv - f[i] * l[i] else 0
  {
    if n > 0 { CostUpdate(f, l, i, fv, lv, n - 1); }
  }

  lemma {:induction false} KraftUpdate(f: seq<nat>, l: seq<nat>, i: nat, fv: nat, lv: nat, n: nat)
    requires n <= |f| == |l| && i < |f|
    ensures KraftSum(f[i := fv], l[i := lv], n) == KraftSum(f, l, n)
      + if i < n then (if fv > 0 then Weight(lv) else 0.0) - (if f[i] > 0 then Weight(l[i]) else 0.0) else 0.0
  {
    if n > 0 { KraftUpdate(f, l, i, fv, lv, n - 1); }
  }

  // ---- Exchange ----

  function Swap(l: seq<nat>, i: nat, j: nat): (r: seq<nat>)
    requires i < |l| && j < |l|
    ensures |r| == |l|
  {
    l[i := l[j]][j := l[i]]
  }

  lemma Rearrange(a: nat, b: nat, x: nat, y: nat)
    requires a <= b && x <= y
    ensures a * y + b * x <= a * x + b * y
  {
    assert (b - a) * (y - x) >= 0;
    assert (b - a) * (y - x) == b * y - b * x - a * y + a * x;
  }

  /** Giving the longer code to the rarer symbol costs nothing. */
  lemma {:induction false} SwapImproves(f: seq<nat>, l: seq<nat>, i: nat, j: nat)
    requires Lengths(f, l) && i < |f| && j < |f| && i != j && 0 < f[i] <= f[j] && l[i] <= l[j]
    ensures Lengths(f, Swap(l, i, j)) && Cost(f, Swap(l, i, j), |f|) <= Cost(f, l, |f|)
  {
    var l1 := l[i := l[j]];
    assert f[i := f[i]] == f && f[j := f[j]] == f;
    CostUpdate(f, l, i, f[i], l[j], |f|);
    CostUpdate(f, l1, j, f[j], l[i], |f|);
    KraftUpdate(f, l, i, f[i], l[j], |f|);
    KraftUpdate(f, l1, j, f[j], l[i], |f|);
    Rearrange(f[i], f[j], l[i], l[j]);
  }

  // ---- The deepest symbols come in pairs ----

  /** s has the greatest code length. */
  ghost predicate Deepest(f: seq<nat>, l: seq<nat>, s: nat) {
    |f| == |l| && s < |f| && f[s] > 0 && forall i :: 0 <= i < |f| && f[i] > 0 ==> l[i] <= l[s]
  }

  /** A deepest symbol below n, or s0. */
  ghost function DeepestBelow(f: seq<nat>, l: seq<nat>, s0: nat, n: nat): (s: nat)
    requires n <= |f| == |l| && s0 < |f| && f[s0] > 0
    ensures s < |f| && f[s] > 0 && l[s0] <= l[s] && forall i :: 0 <= i < n && f[i] > 0 ==> l[i] <= l[s]
  {
    if n == 0 then s0
    else
      var s := DeepestBelow(f, l, s0, n - 1);
      if f[n - 1] > 0 && l[n - 1] > l[s] then n - 1 else s
  }

  /** The weights in units of 2^-k. */
  function Units(f: seq<nat>, l: seq<nat>, k: nat, n: nat): nat
    requires n <= |f| == |l|
  {
    if n == 0 then 0 else Units(f, l, k, n - 1) + if f[n - 1] > 0 && l[n - 1] <= k then Pow2(k - l[n - 1]) else 0
  }

  lemma {:induction false} WeightUnits(l: nat, k: nat)
    requires l <= k
    ensures Weight(l) == Pow2(k - l) as real * Weight(k)
  {
    if l < k {
      WeightUnits(l, k - 1);
      DoubleHalf(Pow2(k - 1 - l), Weight(k - 1));
    }
  }

  lemma DoubleHalf(p: nat, w: real)
    ensures p as real * w == (2 * p) as real * (w / 2.0)
  {}

  lemma {:induction false} KraftUnits(f: seq<nat>, l: seq<nat>, k: nat, n: nat)
    requires n <= |f| == |l| && forall i :: 0 <= i < n && f[i] > 0 ==> l[i] <= k
    ensures KraftSum(f, l, n) == Units(f, l, k, n) as real * Weight(k)
  {
    hide Weight, Pow2;
    NoWeight(k);
    if n > 0 {
      KraftUnits(f, l, k, n - 1);
      if f[n - 1] > 0 {
        WeightUnits(l[n - 1], k);
        AddUnits(Units(f, l, k, n - 1), Pow2(k - l[n - 1]), Weight(k));
      }
    }
  }

  lemma {:induction false} NoWeight(k: nat)
    ensures 0 as real * Weight(k) == 0.0
  {}

  lemma AddUnits(a: nat, b: nat, w: real)
    ensures a as real * w + b as real * w == (a + b) as real * w
  {}

  /** A symbol that is alone at the greatest length can do with one bit less. */
  lemma ShortenAlone(f: seq<nat>, l: seq<nat>, s: nat)
    requires Lengths(f, l) && Deepest(f, l, s) && l[s] > 0
    requires forall i :: 0 <= i < |f| && f[i] > 0 && i != s ==> l[i] < l[s]
    ensures Lengths(f, l[s := l[s] - 1]) && Cost(f, l[s := l[s] - 1], |f|) <= Cost(f, l, |f|)
  {
    hide Weight;
    var m := l[s] - 1;
    var g := f[s := 0];
    assert f[s := f[s]] == f && g == f[s := 0] && l[s := l[s]] == l;
    KraftUpdate(f, l, s, 0, l[s], |f|);
    KraftUpdate(f, l, s, f[s], m, |f|);
    CostUpdate(f, l, s, f[s], m, |f|);
    KraftUnits(g, l, m, |f|);
    WeightHalves(m);
    RoomForOne(Units(g, l, m, |f|), m);
    CostLess(f[s], m);
  }

  lemma WeightHalves(m: nat)
    ensures Weight(m + 1) == Weight(m) / 2.0
  {}

  lemma CostLess(f: nat, m: nat)
    ensures f * m <= f * (m + 1)
  {}

  /** Whole units below 1 leave room for one more unit. */
  lemma {:induction false} RoomForOne(u: nat, m: nat)
    requires u as real * Weight(m) + Weight(m) / 2.0 <= 1.0
    ensures u as real * Weight(m) + Weight(m) <= 1.0
  {
    WeightPow2(m);
    var w, p := Weight(m), Pow2(m);
    if u + 1 > p {
      TooMany(u, p, w);
      assert false;
    }
    Enough(u, p, w);
  }

  lemma TooMany(u: nat, p: nat, w: real)
    requires w > 0.0 && w * p as real == 1.0 && u >= p
    ensures u as real * w + w / 2.0 > 1.0
  {
    assert (u - p) as real * w >= 0.0;
    assert u as real * w == p as real * w + (u - p) as real * w;
  }

  lemma Enough(u: nat, p: nat, w: real)
    requires w > 0.0 && w * p as real == 1.0 && u + 1 <= p
    ensures u as real * w + w <= 1.0
  {
    assert (p - u - 1) as real * w >= 0.0;
    assert p as real * w == u as real * w + w + (p - u - 1) as real * w;
  }

  lemma {:induction false} OneAlone(f: seq<nat>, l: seq<nat>, s: nat, n: nat)
    requires s < n <= |f| == |l| && f[s] > 0
    ensures KraftSum(f, l, n) >= Weight(l[s]) && (n > 0 ==> KraftSum(f, l, n - 1) >= 0.0)
  {
    if s < n - 1 { OneAlone(f, l, s, n - 1); } else { KraftPositive(f, l, n - 1); }
  }

  lemma {:induction false} KraftPositive(f: seq<nat>, l: seq<nat>, n: nat)
    requires n <= |f| == |l|
    ensures KraftSum(f, l, n) >= 0.0
  {
    if n > 0 { KraftPositive(f, l, n - 1); }
  }

  /** With two symbols, the greatest length is not 0. */
  lemma NotBothEmpty(f: seq<nat>, l: seq<nat>, s: nat, t: nat)
    requires Lengths(f, l) && Deepest(f, l, s) && t < |f| && t != s && f[t] > 0
    ensures l[s] > 0
  {
    assert Weight(0) == 1.0;
    if l[s] == 0 {
      var g := f[t := 0];
      assert l[t := l[t]] == l;
      KraftUpdate(f, l, t, 0, l[t], |f|);
      OneAlone(g, l, s, |f|);
      assert false;
    }
  }

  /** Lengths no costlier, with two deepest symbols. */
  lemma {:induction false} TwoDeepest(f: seq<nat>, l: seq<nat>, a: nat, b: nat) returns (r: seq<nat>, x: nat, y: nat)
    requires Lengths(f, l) && a < |f| && b < |f| && a != b && f[a] > 0 && f[b] > 0
    ensures Lengths(f, r) && Cost(f, r, |f|) <= Cost(f, l, |f|)
    ensures x != y && Deepest(f, r, x) && Deepest(f, r, y) && r[x] == r[y] > 0
    decreases l[FirstDeepest(f, l, a)]
  {
    x := FirstDeepest(f, l, a);
    NotBothEmpty(f, l, x, if x == a then b else a);
    if other :| 0 <= other < |f| && f[other] > 0 && other != x && l[other] == l[x] {
      r, y := l, other;
    } else {
      ShortenAlone(f, l, x);
      DeepestFalls(f, l, a, x);
      r, x, y := TwoDeepest(f, l[x := l[x] - 1], a, b);
    }
  }

  ghost function FirstDeepest(f: seq<nat>, l: seq<nat>, s0: nat): (s: nat)
    requires |f| == |l| && s0 < |f| && f[s0] > 0
    ensures Deepest(f, l, s)
  {
    DeepestBelow(f, l, s0, |f|)
  }

  lemma DeepestFalls(f: seq<nat>, l: seq<nat>, a: nat, x: nat)
    requires |f| == |l| && a < |f| && f[a] > 0 && Deepest(f, l, x) && l[x] > 0
    requires forall i :: 0 <= i < |f| && f[i] > 0 && i != x ==> l[i] < l[x]
    ensures var r := l[x := l[x] - 1]; r[FirstDeepest(f, r, a)] < l[FirstDeepest(f, l, a)]
  {}

  // ---- Merging the two rarest symbols ----

  /** c1 and c2 have the smallest counts. */
  ghost predicate Rarest(f: seq<nat>, c1: nat, c2: nat) {
    && c1 < |f| && c2 < |f| && c1 != c2 && f[c1] > 0 && f[c2] > 0
    && (forall i :: 0 <= i < |f| && f[i] > 0 ==> f[c1] <= f[i])
    && (forall i :: 0 <= i < |f| && f[i] > 0 && i != c1 ==> f[c2] <= f[i])
  }

  ghost function Merged(f: seq<nat>, c1: nat, c2: nat): (g: seq<nat>)
    requires c1 < |f| && c2 < |f|
    ensures |g| == |f|
  {
    f[c1 := f[c1] + f[c2]][c2 := 0]
  }

  /** Lengths no costlier, with the two rarest symbols deepest. */
  lemma RarestDeepest(f: seq<nat>, l: seq<nat>, c1: nat, c2: nat) returns (r: seq<nat>)
    requires Lengths(f, l) && Rarest(f, c1, c2)
    ensures Lengths(f, r) && Cost(f, r, |f|) <= Cost(f, l, |f|) && r[c1] == r[c2] > 0
  {
    hide Lengths, Cost;
    LengthsSize(f, l);
    var l1, x, y := TwoDeepest(f, l, c1, c2);
    LengthsSize(f, l1);
    var m := l1[x];
    var l2, other := l1, if x == c1 then y else x;
    if l1[c1] != m {
      var d := if x == c2 then y else x;
      SwapImproves(f, l1, c1, d);
      l2, other := Swap(l1, c1, d), if d == x then y else x;
    }
    assert l2[c1] == m && other != c1 && l2[other] == m && f[other] > 0;
    r := l2;
    if l2[c2] != m {
      SwapImproves(f, l2, c2, other);
      r := Swap(l2, c2, other);
    }
  }

  lemma LengthsSize(f: seq<nat>, l: seq<nat>)
    requires Lengths(f, l)
    ensures |f| == |l|
  {}

  /** Any lengths for f give lengths for the merged counts that are cheaper by both counts. */
  lemma MergeBound(f: seq<nat>, l: seq<nat>, c1: nat, c2: nat) returns (r: seq<nat>)
    requires Lengths(f, l) && Rarest(f, c1, c2)
    ensures Lengths(Merged(f, c1, c2), r) && Cost(Merged(f, c1, c2), r, |f|) + f[c1] + f[c2] <= Cost(f, l, |f|)
  {
    var l2 := RarestDeepest(f, l, c1, c2);
    var m := l2[c1];
    r := l2[c1 := m - 1];
    var f1 := f[c1 := f[c1] + f[c2]];
    CostUpdate(f, l2, c1, f[c1] + f[c2], m - 1, |f|);
    KraftUpdate(f, l2, c1, f[c1] + f[c2], m - 1, |f|);
    assert r[c2 := m] == r;
    CostUpdate(f1, r, c2, 0, m, |f|);
    KraftUpdate(f1, r, c2, 0, m, |f|);
    WeightHalves(m - 1);
    Distribute(f[c1], f[c2], m);
  }

  lemma Distribute(a: nat, b: nat, m: nat)
    requires m > 0
    ensures (a + b) * (m - 1) == a * m + b * m - a - b
  {}

  /** No lengths for init cost less than cur plus some lengths for the present counts. */
  ghost predicate LowerBound(init: seq<nat>, f: seq<nat>, cur: nat) {
    |init| == |f| && forall l: seq<nat> :: Lengths(init, l) ==> Leaves(init, f, cur, l)
  }

  ghost predicate Leaves(init: seq<nat>, f: seq<nat>, cur: nat, l: seq<nat>)
    requires Lengths(init, l) && |init| == |f|
  {
    exists r: seq<nat> :: Lengths(f, r) && Cost(f, r, |f|) + cur <= Cost(init, l, |init|)
  }

  lemma StartBound(init: seq<nat>)
    ensures LowerBound(init, init, 0)
  {
    forall l: seq<nat> | Lengths(init, l) ensures Leaves(init, init, 0, l) {
      assert Cost(init, l, |init|) + 0 <= Cost(init, l, |init|);
    }
  }

  lemma MergeKeepsBound(init: seq<nat>, f: seq<nat>, cur: nat, c1: nat, c2: nat)
    requires LowerBound(init, f, cur) && Rarest(f, c1, c2)
    ensures LowerBound(init, Merged(f, c1, c2), cur + f[c1] + f[c2])
  {
    hide KraftSum, Cost, Merged, Rarest;
    RarestIn(f, c1, c2);
    forall l: seq<nat> | Lengths(init, l) ensures Leaves(init, Merged(f, c1, c2), cur + f[c1] + f[c2], l) {
      assert Leaves(init, f, cur, l);
      LengthsSize(init, l);
      var r: seq<nat> :| Lengths(f, r) && Cost(f, r, |f|) + cur <= Cost(init, l, |init|);
      LengthsSize(f, r);
      var r1 := MergeBound(f, r, c1, c2);
    }
  }

  lemma RarestIn(f: seq<nat>, c1: nat, c2: nat)
    requires Rarest(f, c1, c2)
    ensures c1 < |f| && c2 < |f|
  {}

  lemma {:induction false} BoundHolds(init: seq<nat>, f: seq<nat>, cur: nat, l: seq<nat>)
    requires LowerBound(init, f, cur) && Lengths(init, l)
    ensures |init| == |l| && cur <= Cost(init, l, |init|)
  {
    assert Leaves(init, f, cur, l);
  }

  // ---- Prefix codes ----

  /** No code word of a used symbol starts another one. */
  ghost predicate PrefixCode(f: seq<nat>, words: seq<seq<bool>>) {
    |f| == |words| && forall i, j :: 0 <= i < |f| && 0 <= j < |f| && i != j && f[i] > 0 && f[j] > 0 ==>
      !(words[i] <= words[j])
  }

  function WordLengths(words: seq<seq<bool>>): (l: seq<nat>)
    ensures |l| == |words|
  {
    seq(|words|, i requires 0 <= i < |words| => |words[i]|)
  }

  function TotalLength(f: seq<nat>, words: seq<seq<bool>>, n: nat): nat
    requires n <= |f| == |words|
  {
    if n == 0 then 0 else TotalLength(f, words, n - 1) + if f[n - 1] > 0 then |words[n - 1]| else 0
  }

  function Positive(f: seq<nat>, n: nat): nat
    requires n <= |f|
  {
    if n == 0 then 0 else Positive(f, n - 1) + if f[n - 1] > 0 then 1 else 0
  }

  /** The symbols whose code word starts with bit b, and the rest of their words. */
  ghost function Starting(f: seq<nat>, words: seq<seq<bool>>, b: bool): (g: seq<nat>)
    requires |f| == |words|
    ensures |g| == |f|
  {
    seq(|f|, i requires 0 <= i < |f| => if words[i] != [] && words[i][0] == b then f[i] else 0)
  }

  function Rests(words: seq<seq<bool>>): (r: seq<seq<bool>>)
    ensures |r| == |words|
  {
    seq(|words|, i requires 0 <= i < |words| => if words[i] == [] then [] else words[i][1..])
  }

  lemma {:induction false} SplitSum(f: seq<nat>, words: seq<seq<bool>>, n: nat)
    requires n <= |f| == |words| && forall i :: 0 <= i < n && f[i] > 0 ==> words[i] != []
    ensures KraftSum(f, WordLengths(words), n) ==
      (KraftSum(Starting(f, words, false), WordLengths(Rests(words)), n)
        + KraftSum(Starting(f, words, true), WordLengths(Rests(words)), n)) / 2.0
  {
    if n > 0 { SplitSum(f, words, n - 1); }
  }

  lemma {:induction false} ShorterRests(f: seq<nat>, words: seq<seq<bool>>, b: bool, n: nat)
    requires n <= |f| == |words| && forall i :: 0 <= i < n && f[i] > 0 ==> words[i] != []
    ensures TotalLength(Starting(f, words, b), Rests(words), n) + Positive(f, n) <= TotalLength(f, words, n)
  {
    if n > 0 { ShorterRests(f, words, b, n - 1); }
  }

  lemma StartingPrefixCode(f: seq<nat>, words: seq<seq<bool>>, b: bool)
    requires PrefixCode(f, words)
    ensures PrefixCode(Starting(f, words, b), Rests(words))
  {
    var g, r := Starting(f, words, b), Rests(words);
    forall i, j | 0 <= i < |g| && 0 <= j < |g| && i != j && g[i] > 0 && g[j] > 0 ensures !(r[i] <= r[j]) {
      assert !(words[i] <= words[j]);
      assert words[i] == [b] + r[i] && words[j] == [b] + r[j];
    }
  }

  lemma {:induction false} NoneUsed(f: seq<nat>, l: seq<nat>, n: nat)
    requires n <= |f| == |l| && Positive(f, n) == 0
    ensures KraftSum(f, l, n) == 0.0
  {
    if n > 0 { NoneUsed(f, l, n - 1); }
  }

  lemma {:induction false} OnlyOneUsed(f: seq<nat>, l: seq<nat>, s: nat, n: nat)
    requires n <= |f| == |l| && s < |f| && forall i :: 0 <= i < n && i != s ==> f[i] == 0
    ensures KraftSum(f, l, n) == if s < n && f[s] > 0 then Weight(l[s]) else 0.0
  {
    if n > 0 { OnlyOneUsed(f, l, s, n - 1); }
  }

  /** Kraft's inequality. */
  lemma {:induction false} PrefixCodeLengths(f: seq<nat>, words: seq<seq<bool>>)
    requires PrefixCode(f, words)
    ensures Lengths(f, WordLengths(words))
    decreases TotalLength(f, words, |f|)
  {
    hide KraftSum, TotalLength, Positive, Rests, Starting;
    var l := WordLengths(words);
    if Positive(f, |f|) == 0 {
      NoneUsed(f, l, |f|);
    } else if s :| 0 <= s < |f| && f[s] > 0 && words[s] == [] {
      forall i | 0 <= i < |f| && i != s ensures f[i] == 0 { assert words[s] <= words[i]; }
      OnlyOneUsed(f, l, s, |f|);
    } else {
      ShorterRests(f, words, false, |f|);
      ShorterRests(f, words, true, |f|);
      StartingPrefixCode(f, words, false);
      StartingPrefixCode(f, words, true);
      PrefixCodeLengths(Starting(f, words, false), Rests(words));
      PrefixCodeLengths(Starting(f, words, true), Rests(words));
      SplitSum(f, words, |f|);
    }
  }
}
