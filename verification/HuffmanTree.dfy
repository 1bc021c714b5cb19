/** The first half of jpeg_gen_optimal_table (jchuff.c): Huffman's procedure, with each tree kept as a
    chain of symbols linked through `others` (section K.2 of ITU-T T.81). */
module HuffmanTree {
  import opened HuffmanTables
  import opened HuffmanOptimal

  const SYMBOLS: nat := 257
  const SENTINEL: nat := 1000000000

  function SumTo(f: seq<nat>, n: nat): nat
    requires n <= |f|
  {
    if n == 0 then 0 else SumTo(f, n - 1) + f[n - 1]
  }

  lemma {:induction false} SumUpdate(f: seq<nat>, c: nat, v: nat, n: nat)
    requires c < |f| && n <= |f|
    ensures SumTo(f[c := v], n) == if c < n then SumTo(f, n) - f[c] + v else SumTo(f, n)
  {
    if n > 0 { SumUpdate(f, c, v, n - 1); }
  }

  lemma {:induction false} SumAtLeast(f: seq<nat>, c: nat, n: nat)
    requires c < n <= |f|
    ensures f[c] <= SumTo(f, n)
  {
    if c < n - 1 { SumAtLeast(f, c, n - 1); }
  }

  lemma {:induction false} SumOfTwo(f: seq<nat>, c: nat, d: nat)
    requires c < |f| && d < |f| && c != d
    ensures f[c] + f[d] <= SumTo(f, |f|)
  {
    SumUpdate(f, c, 0, |f|);
    SumAtLeast(f[c := 0], d, |f|);
  }

  /** How many counts are not zero. */
  function Roots(f: seq<nat>, n: nat): nat
    requires n <= |f|
  {
    if n == 0 then 0 else Roots(f, n - 1) + if f[n - 1] > 0 then 1 else 0
  }

  lemma {:induction false} RootsUpdate(f: seq<nat>, c: nat, v: nat, n: nat)
    requires c < |f| && n <= |f|
    ensures Roots(f[c := v], n) - Roots(f, n) == if c < n then (if v > 0 then 1 else 0) - (if f[c] > 0 then 1 else 0)
      else 0
  {
    if n > 0 { RootsUpdate(f, c, v, n - 1); }
  }

  /** The weight of a tree: the sum of 2^-codesize over the symbols that belong to root c. */
  ghost function TreeSum(owner: seq<int>, codesize: seq<nat>, c: int, n: nat): real
    requires n <= |owner| && n <= |codesize|
  {
    if n == 0 then 0.0 else TreeSum(owner, codesize, c, n - 1) + if owner[n - 1] == c then Weight(codesize[n - 1])
      else 0.0
  }

  /** The counts of the symbols that belong to root c. */
  ghost function FreqSum(owner: seq<int>, init: seq<nat>, c: int, n: nat): nat
    requires n <= |owner| && n <= |init|
  {
    if n == 0 then 0 else FreqSum(owner, init, c, n - 1) + if owner[n - 1] == c then init[n - 1] else 0
  }

  /** All symbols of tree c2 now belong to c1. */
  ghost function Rename(owner: seq<int>, c1: int, c2: int): (r: seq<int>)
    ensures |r| == |owner|
  {
    seq(|owner|, s requires 0 <= s < |owner| => if owner[s] == c2 then c1 else owner[s])
  }

  /** One bit more for every symbol of the given trees. */
  ghost function Deeper(owner: seq<int>, codesize: seq<nat>, c1: int, c2: int): (r: seq<nat>)
    requires |owner| == |codesize|
    ensures |r| == |codesize|
  {
    seq(|owner|, s requires 0 <= s < |owner| => if owner[s] == c1 || owner[s] == c2 then codesize[s] + 1
      else codesize[s])
  }

  /** Merging two trees of weight 1 gives a tree of weight 1, and adds their counts. */
  lemma {:induction false} MergeSums(owner: seq<int>, codesize: seq<nat>, init: seq<nat>, c1: int, c2: int, n: nat)
    requires |owner| == |codesize| == |init| && n <= |owner| && c1 != c2
    ensures var o, d := Rename(owner, c1, c2), Deeper(owner, codesize, c1, c2);
      && TreeSum(o, d, c1, n) == (TreeSum(owner, codesize, c1, n) + TreeSum(owner, codesize, c2, n)) / 2.0
      && FreqSum(o, init, c1, n) == FreqSum(owner, init, c1, n) + FreqSum(owner, init, c2, n)
  {
    if n > 0 { MergeSums(owner, codesize, init, c1, c2, n - 1); }
  }

  lemma {:induction false} OtherSums(owner: seq<int>, codesize: seq<nat>, init: seq<nat>, c1: int, c2: int, c: int,
                                     n: nat)
    requires |owner| == |codesize| == |init| && n <= |owner| && c != c1 && c != c2
    ensures var o, d := Rename(owner, c1, c2), Deeper(owner, codesize, c1, c2);
      && TreeSum(o, d, c, n) == TreeSum(owner, codesize, c, n)
      && FreqSum(o, init, c, n) == FreqSum(owner, init, c, n)
  {
    if n > 0 { OtherSums(owner, codesize, init, c1, c2, c, n - 1); }
  }

  lemma {:induction false} OneSymbol(owner: seq<int>, codesize: seq<nat>, init: seq<nat>, c: nat, n: nat)
    requires |owner| == |codesize| == |init| && n <= |owner|
    requires forall s :: 0 <= s < n ==> (owner[s] == c <==> s == c)
    requires c < n ==> codesize[c] == 0
    ensures TreeSum(owner, codesize, c, n) == if c < n then 1.0 else 0.0
    ensures FreqSum(owner, init, c, n) == if c < n then init[c] else 0
  {
    if n > 0 { OneSymbol(owner, codesize, init, c, n - 1); }
  }

  // ---- Chains ----

  /** The chain ch links exactly the symbols of root c, from c to a symbol without a link. */
  ghost predicate Chain(ch: seq<nat>, c: nat, owner: seq<int>, others: seq<int>) {
    && |owner| == |others| == SYMBOLS && ch != [] && ch[0] == c
    && (forall i :: 0 <= i < |ch| ==> ch[i] < SYMBOLS && owner[ch[i]] == c)
    && (forall i, j :: 0 <= i < j < |ch| ==> ch[i] != ch[j])
    && (forall i :: 0 <= i < |ch| - 1 ==> others[ch[i]] == ch[i + 1])
    && others[ch[|ch| - 1]] == -1
    && (forall s :: 0 <= s < SYMBOLS && owner[s] == c ==> s in ch)
  }

  ghost predicate Sizes(init: seq<nat>, freq: seq<nat>, codesize: seq<nat>, others: seq<int>, owner: seq<int>) {
    |init| == |freq| == |codesize| == |others| == |owner| == SYMBOLS
  }

  /** The forest: every symbol with a nonzero count is in the tree of one root; each tree has weight 1,
      and its root holds the sum of its counts. */
  ghost predicate Forest(init: seq<nat>, freq: seq<nat>, codesize: seq<nat>, others: seq<int>, owner: seq<int>,
                         ch: seq<seq<nat>>) {
    && Sizes(init, freq, codesize, others, owner) && |ch| == SYMBOLS
    && (forall s :: 0 <= s < SYMBOLS ==> if init[s] == 0 then owner[s] == -1 && codesize[s] == 0
                                         else 0 <= owner[s] < SYMBOLS && freq[owner[s]] > 0)
    && (forall c :: 0 <= c < SYMBOLS && freq[c] > 0 ==>
       Chain(ch[c], c, owner, others) && Balanced(init, freq, codesize, owner, c))
  }

  ghost predicate Balanced(init: seq<nat>, freq: seq<nat>, codesize: seq<nat>, owner: seq<int>, c: nat)
    requires |init| == |freq| == |codesize| == |owner| == SYMBOLS && c < SYMBOLS
  {
    TreeSum(owner, codesize, c, SYMBOLS) == 1.0 && freq[c] == FreqSum(owner, init, c, SYMBOLS)
  }

  ghost function StartOwner(init: seq<nat>): (owner: seq<int>)
    ensures |owner| == |init|
  {
    seq(|init|, s requires 0 <= s < |init| => if init[s] == 0 then -1 else s)
  }

  lemma StartForest(init: seq<nat>, codesize: seq<nat>, others: seq<int>)
    requires |init| == |codesize| == |others| == SYMBOLS
    requires forall s :: 0 <= s < SYMBOLS ==> codesize[s] == 0 && others[s] == -1
    ensures Forest(init, init, codesize, others, StartOwner(init), seq(SYMBOLS, c => [c]))
  {
    hide TreeSum, FreqSum;
    var owner := StartOwner(init);
    forall c | 0 <= c < SYMBOLS && init[c] > 0
      ensures Chain([c], c, owner, others) && Balanced(init, init, codesize, owner, c)
    {
      OneSymbol(owner, codesize, init, c, SYMBOLS);
    }
  }

  /** The chains after a merge. */
  ghost function JoinedChains(ch: seq<seq<nat>>, c1: nat, c2: nat): (r: seq<seq<nat>>)
    requires c1 < |ch| && c2 < |ch|
    ensures |r| == |ch|
  {
    ch[c1 := ch[c1] + ch[c2]]
  }

  lemma JoinChains(ch1: seq<nat>, ch2: seq<nat>, c1: nat, c2: nat, owner: seq<int>, others: seq<int>)
    requires Chain(ch1, c1, owner, others) && Chain(ch2, c2, owner, others) && c1 != c2
    ensures Chain(ch1 + ch2, c1, Rename(owner, c1, c2), others[ch1[|ch1| - 1] := c2])
  {
    var ch, o := ch1 + ch2, Rename(owner, c1, c2);
    var last := ch1[|ch1| - 1];
    forall i, j | 0 <= i < j < |ch| ensures ch[i] != ch[j] {
      if i < |ch1| <= j { assert owner[ch[i]] == c1 && owner[ch[j]] == c2; }
    }
    forall i | 0 <= i < |ch2| ensures ch2[i] != last { assert owner[ch2[i]] == c2; }
  }

  lemma OtherChain(ch1: seq<nat>, ch3: seq<nat>, c1: nat, c2: nat, c: nat, owner: seq<int>, others: seq<int>)
    requires Chain(ch1, c1, owner, others) && Chain(ch3, c, owner, others) && c != c1 && c != c2
    ensures Chain(ch3, c, Rename(owner, c1, c2), others[ch1[|ch1| - 1] := c2])
  {
    var last := ch1[|ch1| - 1];
    forall i | 0 <= i < |ch3| ensures ch3[i] != last { assert owner[ch3[i]] == c; }
  }

  /** One step of Huffman's procedure keeps the forest. */
  lemma MergeForest(init: seq<nat>, freq: seq<nat>, codesize: seq<nat>, others: seq<int>, owner: seq<int>,
                    ch: seq<seq<nat>>,
                    c1: nat, c2: nat)
    requires Forest(init, freq, codesize, others, owner, ch) && c1 < SYMBOLS && c2 < SYMBOLS && c1 != c2
    requires freq[c1] > 0 && freq[c2] > 0
    ensures ch[c1] != [] && ch[c1][|ch[c1]| - 1] < SYMBOLS
    ensures Forest(init, freq[c1 := freq[c1] + freq[c2]][c2 := 0], Deeper(owner, codesize, c1, c2),
                   others[ch[c1][|ch[c1]| - 1] := c2], Rename(owner, c1, c2), JoinedChains(ch, c1, c2))
  {
    hide TreeSum, FreqSum, Chain;
    ChainEnds(ch[c1], c1, owner, others);
    var f, d, o := freq[c1 := freq[c1] + freq[c2]][c2 := 0], Deeper(owner, codesize, c1, c2), Rename(owner, c1, c2);
    var links, ch' := others[ch[c1][|ch[c1]| - 1] := c2], JoinedChains(ch, c1, c2);
    MergeSums(owner, codesize, init, c1, c2, SYMBOLS);
    forall c | 0 <= c < SYMBOLS && f[c] > 0 ensures Chain(ch'[c], c, o, links) && Balanced(init, f, d, o, c) {
      if c == c1 {
        JoinChains(ch[c1], ch[c2], c1, c2, owner, others);
      } else {
        OtherChain(ch[c1], ch[c], c1, c2, c, owner, others);
        OtherSums(owner, codesize, init, c1, c2, c, SYMBOLS);
      }
    }
  }

  lemma ChainEnds(ch: seq<nat>, c: nat, owner: seq<int>, others: seq<int>)
    requires Chain(ch, c, owner, others)
    ensures ch != [] && ch[0] == c && ch[|ch| - 1] < SYMBOLS
  {}

  // ---- How deep a tree can be ----

  function Fib(n: nat): nat {
    if n < 2 then n else Fib(n - 1) + Fib(n - 2)
  }

  /** Each tree is at least as heavy as a Fibonacci tree of its depth, and no tree is lighter than the
      heavier half of the last merge, `floor`. */
  ghost predicate Deep(freq: seq<nat>, codesize: seq<nat>, owner: seq<int>, floor: nat) {
    && |freq| == |codesize| == |owner| == SYMBOLS
    && (forall s :: 0 <= s < SYMBOLS && 0 <= owner[s] < SYMBOLS ==>
          freq[owner[s]] >= Fib(codesize[s] + 2) && (codesize[s] > 0 ==> floor >= Fib(codesize[s] + 1)))
    && (forall c :: 0 <= c < SYMBOLS && freq[c] > 0 ==> freq[c] >= floor)
  }

  lemma StartDeep(init: seq<nat>, codesize: seq<nat>)
    requires |init| == |codesize| == SYMBOLS && forall s :: 0 <= s < SYMBOLS ==> codesize[s] == 0
    ensures Deep(init, codesize, StartOwner(init), 0)
  {
    assert Fib(2) == 1;
  }

  lemma MergeDeep(freq: seq<nat>, codesize: seq<nat>, owner: seq<int>, floor: nat, c1: nat, c2: nat)
    requires Deep(freq, codesize, owner, floor) && c1 < SYMBOLS && c2 < SYMBOLS && c1 != c2 && Rarest(freq, c1, c2)
    requires forall s :: 0 <= s < SYMBOLS && 0 <= owner[s] < SYMBOLS ==> freq[owner[s]] > 0
    ensures Deep(freq[c1 := freq[c1] + freq[c2]][c2 := 0], Deeper(owner, codesize, c1, c2), Rename(owner, c1, c2),
      freq[c2])
  {
    hide Fib;
    var f, d, o := freq[c1 := freq[c1] + freq[c2]][c2 := 0], Deeper(owner, codesize, c1, c2), Rename(owner, c1, c2);
    forall s | 0 <= s < SYMBOLS && 0 <= o[s] < SYMBOLS
      ensures f[o[s]] >= Fib(d[s] + 2) && (d[s] > 0 ==> freq[c2] >= Fib(d[s] + 1))
    {
      FibStep(codesize[s]);
    }
  }

  lemma FibStep(n: nat)
    ensures Fib(n + 3) == Fib(n + 2) + Fib(n + 1) && Fib(n + 1) <= Fib(n + 2) && Fib(1) == 1
  {}

  // ---- The pseudo-symbol has a longest code ----

  /** The search takes root c before root d. */
  ghost predicate Before(freq: seq<nat>, c: nat, d: nat)
    requires c < |freq| && d < |freq|
  {
    freq[c] < freq[d] || (freq[c] == freq[d] && c > d)
  }

  /** No symbol is deeper than symbol 256, and the search takes 256's tree before any other tree of that depth.
      The last tree that was merged into it, of count `half` and root `second`, came before all those left. */
  ghost predicate PseudoDeepest(freq: seq<nat>, codesize: seq<nat>, owner: seq<int>, half: nat, second: nat) {
    && |freq| == |codesize| == |owner| == SYMBOLS && 0 <= owner[256] < SYMBOLS && freq[owner[256]] > 0
    && (forall s :: 0 <= s < SYMBOLS ==> codesize[s] <= codesize[256])
    && (forall s :: 0 <= s < SYMBOLS && 0 <= owner[s] < SYMBOLS && owner[s] != owner[256] ==>
          codesize[s] == codesize[256] ==> Before(freq, owner[256], owner[s]))
    && (forall c :: 0 <= c < SYMBOLS && freq[c] > 0 && c != owner[256] ==>
          half < freq[c] || (half == freq[c] && second > c))
    && freq[owner[256]] <= 2 * half && (freq[owner[256]] == 2 * half ==> owner[256] > second)
  }

  lemma StartPseudo(init: seq<nat>, codesize: seq<nat>)
    requires |init| == |codesize| == SYMBOLS && init[256] == 1
    requires forall s :: 0 <= s < SYMBOLS ==> codesize[s] == 0
    ensures PseudoDeepest(init, codesize, StartOwner(init), 1, 256)
  {}

  /** What the two searches find: the first two roots in that order. */
  ghost predicate FirstTwo(freq: seq<nat>, c1: nat, c2: nat) {
    && |freq| == SYMBOLS && c1 < SYMBOLS && c2 < SYMBOLS && c1 != c2 && freq[c1] > 0 && freq[c2] > 0
    && Before(freq, c1, c2)
    && forall c :: 0 <= c < SYMBOLS && freq[c] > 0 && c != c1 && c != c2 ==> Before(freq, c2, c)
  }

  lemma MergePseudo(freq: seq<nat>, codesize: seq<nat>, owner: seq<int>, half: nat, second: nat, c1: nat, c2: nat)
    returns (half': nat, second': nat)
    requires PseudoDeepest(freq, codesize, owner, half, second) && FirstTwo(freq, c1, c2)
    requires forall s :: 0 <= s < SYMBOLS && 0 <= owner[s] < SYMBOLS ==> freq[owner[s]] > 0
    requires forall s :: 0 <= s < SYMBOLS && codesize[s] > 0 ==> 0 <= owner[s] < SYMBOLS
    ensures PseudoDeepest(freq[c1 := freq[c1] + freq[c2]][c2 := 0], Deeper(owner, codesize, c1, c2),
      Rename(owner, c1, c2), half', second')
  {
    var r := owner[256];
    half', second' := if r == c1 || r == c2 then freq[c2] else half, if r == c1 || r == c2 then c2 else second;
    if r != c1 && r != c2 {
      assert Before(freq, c2, r);
      forall s | 0 <= s < SYMBOLS && (owner[s] == c1 || owner[s] == c2) ensures codesize[s] < codesize[256] {}
    }
  }

  // ---- The procedure ----

  /** The smallest nonzero count that is not above the sentinel, other than that of symbol `skip`;
      in case of ties the larger symbol. */
  method FindSmallest(freq: array<nat>, skip: int) returns (c: int)
    requires freq.Length == SYMBOLS
    ensures c == -1 || (0 <= c < SYMBOLS && c != skip && 0 < freq[c] <= SENTINEL)
    ensures forall i :: 0 <= i < SYMBOLS && i != skip && 0 < freq[i] <= SENTINEL ==>
      c >= 0 && freq[c] <= freq[i] && (freq[c] == freq[i] ==> i <= c)
  {
    c := -1;
    var v := SENTINEL;
    for i := 0 to SYMBOLS
      invariant c == -1 ==> v == SENTINEL
      invariant c == -1 || (0 <= c < i && c != skip && 0 < freq[c] == v <= SENTINEL)
      invariant forall k :: 0 <= k < i && k != skip && 0 < freq[k] <= SENTINEL ==>
        c >= 0 && v <= freq[k] && (v == freq[k] ==> k <= c)
    {
      if freq[i] != 0 && freq[i] <= v && i != skip {
        v := freq[i];
        c := i;
      }
    }
  }

  /** "Increment the codesize of everything in the tree branch": follow the chain to its end. */
  method WalkChain(codesize: array<nat>, others: array<int>, c: nat, ghost ch: seq<nat>, ghost owner: seq<int>)
    returns (last: nat)
    requires codesize.Length == others.Length == |owner| == SYMBOLS && c < SYMBOLS
    requires Chain(ch, c, owner, others[..])
    modifies codesize
    ensures last == ch[|ch| - 1]
    ensures forall s :: 0 <= s < SYMBOLS ==> codesize[s] == old(codesize[s]) + if owner[s] == c then 1 else 0
  {
    last := c;
    codesize[last] := codesize[last] + 1;
    ghost var i := 0;
    LinkAt(ch, c, owner, others[..], 0);
    while others[last] >= 0
      invariant i < |ch| && last == ch[i] && (others[last] >= 0 <==> i < |ch| - 1)
      invariant forall s :: 0 <= s < SYMBOLS ==> codesize[s] == old(codesize[s]) + if s in ch[..i + 1] then 1 else 0
      decreases |ch| - i
    {
      assert i < |ch| - 1;
      assert ch[..i + 2] == ch[..i + 1] + [ch[i + 1]];
      last := others[last];
      assert last !in ch[..i + 1];
      codesize[last] := codesize[last] + 1;
      i := i + 1;
      LinkAt(ch, c, owner, others[..], i);
    }
    assert ch[..i + 1] == ch;
  }

  lemma LinkAt(ch: seq<nat>, c: nat, owner: seq<int>, others: seq<int>, i: nat)
    requires Chain(ch, c, owner, others) && i < |ch|
    ensures ch[i] < SYMBOLS && others[ch[i]] == if i < |ch| - 1 then ch[i + 1] else -1
  {}

  /** All real counts together stay below the search sentinel. */
  ghost predicate Countable(init: seq<nat>) {
    |init| == SYMBOLS && init[256] == 1 && SumTo(init, SYMBOLS) <= SENTINEL + 1
  }

  /** With two trees left, no count exceeds the sentinel. */
  lemma {:induction false} BelowSentinel(freq: seq<nat>, c: nat, d: nat)
    requires |freq| == SYMBOLS && SumTo(freq, SYMBOLS) <= SENTINEL + 1 && c < SYMBOLS && d < SYMBOLS && c != d
    requires freq[c] > 0 && freq[d] > 0
    ensures freq[c] <= SENTINEL && freq[d] <= SENTINEL
  {
    SumOfTwo(freq, c, d);
  }

  ghost predicate OneTree(freq: seq<nat>, root: nat) {
    |freq| == SYMBOLS && root < SYMBOLS && freq[root] > 0 && forall c :: 0 <= c < SYMBOLS && c != root ==> freq[c] == 0
  }

  lemma SomeRoot(freq: seq<nat>, n: nat) returns (root: nat)
    requires n <= |freq| && SumTo(freq, n) > 0
    ensures root < n && freq[root] > 0
  {
    if freq[n - 1] > 0 { root := n - 1; } else { root := SomeRoot(freq, n - 1); }
  }

  /** The search for a second tree fails only when one tree is left. */
  lemma OnlyOne(freq: seq<nat>, c1: int) returns (root: nat)
    requires |freq| == SYMBOLS && 0 < SumTo(freq, SYMBOLS) <= SENTINEL + 1
    requires forall i :: 0 <= i < SYMBOLS && 0 < freq[i] <= SENTINEL ==> i == c1
    ensures OneTree(freq, root)
  {
    root := SomeRoot(freq, SYMBOLS);
    forall c | 0 <= c < SYMBOLS && c != root ensures freq[c] == 0 {
      if freq[c] > 0 {
        BelowSentinel(freq, c, root);
        assert false;
      }
    }
  }

  /** What every step of Huffman's procedure keeps. */
  ghost predicate Progress(init: seq<nat>, freq: seq<nat>, codesize: seq<nat>, others: seq<int>, owner: seq<int>,
                           ch: seq<seq<nat>>, floor: nat)
  {
    && Forest(init, freq, codesize, others, owner, ch)
    && 0 < SumTo(freq, SYMBOLS) == SumTo(init, SYMBOLS) <= SENTINEL + 1
    && Deep(freq, codesize, owner, floor)
    && LowerBound(init, freq, Cost(init, codesize, SYMBOLS))
  }

  lemma {:induction false} StartProgress(init: seq<nat>, codesize: seq<nat>, others: seq<int>)
    requires Countable(init) && |codesize| == |others| == SYMBOLS
    requires forall s :: 0 <= s < SYMBOLS ==> codesize[s] == 0 && others[s] == -1
    ensures Progress(init, init, codesize, others, StartOwner(init), seq(SYMBOLS, c => [c]), 0)
  {
    hide Forest, SumTo, LowerBound, Cost, Deep;
    StartForest(init, codesize, others);
    CountPositive(init);
    StartBound(init);
    NoCost(init, codesize, SYMBOLS);
    StartDeep(init, codesize);
  }

  lemma {:induction false} MergeProgress(init: seq<nat>, freq: seq<nat>, codesize: seq<nat>, others: seq<int>,
                                         owner: seq<int>,
                                         ch: seq<seq<nat>>, floor: nat, c1: nat, c2: nat)
    requires Progress(init, freq, codesize, others, owner, ch, floor)
    requires |freq| == SYMBOLS && c1 < SYMBOLS && c2 < SYMBOLS && c1 != c2 && 0 < freq[c1] <= SENTINEL
      && 0 < freq[c2] <= SENTINEL
    requires forall i :: 0 <= i < SYMBOLS && 0 < freq[i] <= SENTINEL ==> freq[c1] <= freq[i]
    requires forall i :: 0 <= i < SYMBOLS && i != c1 && 0 < freq[i] <= SENTINEL ==> freq[c2] <= freq[i]
    ensures |owner| == |codesize| == |others| == |ch| == SYMBOLS && ch[c1] != [] && ch[c1][|ch[c1]| - 1] < SYMBOLS
    ensures Chain(ch[c1], c1, owner, others)
    ensures var last := ch[c1][|ch[c1]| - 1];
      var f, o := freq[c1 := freq[c1] + freq[c2]][c2 := 0], others[last := c2];
      && Chain(ch[c2], c2, owner, o) && Roots(f, SYMBOLS) < Roots(freq, SYMBOLS)
      && Progress(init, f, Deeper(owner, codesize, c1, c2), o, Rename(owner, c1, c2), JoinedChains(ch, c1, c2),
         freq[c2])
  {
    hide Forest, SumTo, Roots, Chain, LowerBound, Cost, Rarest, Fib, Deep, Deeper, Rename, JoinedChains;
    MergeForest(init, freq, codesize, others, owner, ch, c1, c2);
    ForestChains(init, freq, codesize, others, owner, ch, c1, c2);
    MergeCounts(freq, c1, c2);
    AreRarest(freq, c1, c2);
    MergeCosts(init, freq, codesize, others, owner, ch, c1, c2);
    ForestRoots(init, freq, codesize, others, owner, ch);
    MergeDeep(freq, codesize, owner, floor, c1, c2);
    ChainSurvives(ch[c1], ch[c2], c1, c2, owner, others);
  }

  lemma {:induction false} LastTree(init: seq<nat>, freq: seq<nat>, codesize: seq<nat>, others: seq<int>,
                                    owner: seq<int>,
                                    ch: seq<seq<nat>>, floor: nat, c1: int) returns (root: nat)
    requires |freq| == |init| == |codesize| == SYMBOLS && Progress(init, freq, codesize, others, owner, ch, floor)
    requires forall i :: 0 <= i < SYMBOLS && 0 < freq[i] <= SENTINEL ==> i == c1
    ensures OneTree(freq, root) && Forest(init, freq, codesize, others, owner, ch)
    ensures forall l: seq<nat> :: Lengths(init, l) ==>
      |l| == SYMBOLS && Cost(init, codesize, SYMBOLS) <= Cost(init, l, SYMBOLS)
    ensures forall s :: 0 <= s < SYMBOLS && codesize[s] > 0 ==> Fib(codesize[s] + 2) <= SumTo(init, SYMBOLS)
  {
    hide Forest, SumTo, LowerBound, Cost, Fib, Deep;
    root := OnlyOne(freq, c1);
    Optimal(init, freq, codesize);
    DeepEnough(init, freq, codesize, others, owner, ch, root, floor);
  }

  /** The loop of Huffman's procedure: in the end one tree holds all symbols with nonzero counts, the
      code costs no more than any other, and its longest code needs Fibonacci many symbols. */
  method BuildTree(freq: array<nat>, codesize: array<nat>, others: array<int>)
    returns (ghost owner: seq<int>, ghost ch: seq<seq<nat>>, ghost root: nat)
    requires freq.Length == codesize.Length == others.Length == SYMBOLS && freq != codesize
    requires Countable(freq[..])
    requires forall s :: 0 <= s < SYMBOLS ==> codesize[s] == 0 && others[s] == -1
    modifies freq, codesize, others
    ensures OneTree(freq[..], root)
    ensures Forest(old(freq[..]), freq[..], codesize[..], others[..], owner, ch)
    ensures forall l: seq<nat> :: Lengths(old(freq[..]), l) ==>
      |l| == SYMBOLS && Cost(old(freq[..]), codesize[..], SYMBOLS) <= Cost(old(freq[..]), l, SYMBOLS)
    ensures forall s :: 0 <= s < SYMBOLS && codesize[s] > 0 ==> Fib(codesize[s] + 2) <= SumTo(old(freq[..]), SYMBOLS)
    ensures forall s :: 0 <= s < SYMBOLS ==> codesize[s] <= codesize[256]
  {
    hide Forest, SumTo, Roots, Chain, Cost, Fib, Progress, Rename, JoinedChains, Lengths, PseudoDeepest, FirstTwo;
    ghost var init := freq[..];
    ch := seq(SYMBOLS, c => [c]);
    owner := StartOwner(init);
    StartProgress(init, codesize[..], others[..]);
    StartPseudo(init, codesize[..]);
    ghost var floor, half, second := 0, 1, 256;
    while true
      invariant Progress(init, freq[..], codesize[..], others[..], owner, ch, floor)
      invariant PseudoDeepest(freq[..], codesize[..], owner, half, second)
      decreases Roots(freq[..], SYMBOLS)
    {
      var c1 := FindSmallest(freq, -1);
      var c2 := FindSmallest(freq, c1);
      if c2 < 0 {
        root := LastTree(init, freq[..], codesize[..], others[..], owner, ch, floor, c1);
        LongestPseudo(freq[..], codesize[..], owner, half, second);
        break;
      }
      ghost var f, d, o := freq[..], codesize[..], others[..];
      MergeProgress(init, f, d, o, owner, ch, floor, c1, c2);
      InOrder(f, c1, c2);
      ProgressRoots(init, f, d, o, owner, ch, floor);
      half, second := MergePseudo(f, d, owner, half, second, c1, c2);
      freq[c1] := freq[c1] + freq[c2];
      freq[c2] := 0;
      assert freq[..] == f[c1 := f[c1] + f[c2]][c2 := 0];
      var last := WalkChain(codesize, others, c1, ch[c1], owner);
      others[last] := c2;
      assert others[..] == o[last := c2];
      var last2 := WalkChain(codesize, others, c2, ch[c2], owner);
      assert codesize[..] == Deeper(owner, d, c1, c2);
      owner, ch, floor := Rename(owner, c1, c2), JoinedChains(ch, c1, c2), f[c2];
    }
  }

  lemma LongestPseudo(freq: seq<nat>, codesize: seq<nat>, owner: seq<int>, half: nat, second: nat)
    requires PseudoDeepest(freq, codesize, owner, half, second)
    ensures |codesize| == SYMBOLS && forall s :: 0 <= s < SYMBOLS ==> codesize[s] <= codesize[256]
  {}

  lemma InOrder(freq: seq<nat>, c1: nat, c2: nat)
    requires |freq| == SYMBOLS && c1 < SYMBOLS && c2 < SYMBOLS && c1 != c2
    requires 0 < freq[c1] <= SENTINEL && 0 < freq[c2] <= SENTINEL
    requires forall i :: 0 <= i < SYMBOLS && 0 < freq[i] <= SENTINEL ==>
      freq[c1] <= freq[i] && (freq[c1] == freq[i] ==> i <= c1)
    requires forall i :: 0 <= i < SYMBOLS && i != c1 && 0 < freq[i] <= SENTINEL ==>
      freq[c2] <= freq[i] && (freq[c2] == freq[i] ==> i <= c2)
    ensures FirstTwo(freq, c1, c2)
  {}

  lemma ProgressRoots(init: seq<nat>, freq: seq<nat>, codesize: seq<nat>, others: seq<int>, owner: seq<int>,
                      ch: seq<seq<nat>>, floor: nat)
    requires Progress(init, freq, codesize, others, owner, ch, floor)
    ensures |owner| == |codesize| == |freq| == SYMBOLS
    ensures forall s :: 0 <= s < SYMBOLS && 0 <= owner[s] < SYMBOLS ==> freq[owner[s]] > 0
    ensures forall s :: 0 <= s < SYMBOLS && codesize[s] > 0 ==> 0 <= owner[s] < SYMBOLS
  {
    hide Forest, Deep, LowerBound, SumTo, Cost;
    ForestRoots(init, freq, codesize, others, owner, ch);
  }

  lemma ForestRoots(init: seq<nat>, freq: seq<nat>, codesize: seq<nat>, others: seq<int>, owner: seq<int>,
                    ch: seq<seq<nat>>)
    requires Forest(init, freq, codesize, others, owner, ch)
    ensures |init| == |owner| == |codesize| == |freq| == |others| == |ch| == SYMBOLS
    ensures forall s :: 0 <= s < SYMBOLS && 0 <= owner[s] < SYMBOLS ==> freq[owner[s]] > 0
    ensures forall s :: 0 <= s < SYMBOLS && codesize[s] > 0 ==> 0 <= owner[s] < SYMBOLS
  {
    hide Chain, Balanced;
  }

  /** The one tree that is left holds all counts, so no code is longer than a Fibonacci tree allows. */
  lemma {:induction false} DeepEnough(init: seq<nat>, freq: seq<nat>, codesize: seq<nat>, others: seq<int>,
                                      owner: seq<int>,
                     ch: seq<seq<nat>>, root: nat, floor: nat)
    requires Forest(init, freq, codesize, others, owner, ch) && OneTree(freq, root)
      && Deep(freq, codesize, owner, floor)
    requires SumTo(freq, SYMBOLS) == SumTo(init, SYMBOLS)
    ensures |codesize| == SYMBOLS
    ensures forall s :: 0 <= s < SYMBOLS && codesize[s] > 0 ==> Fib(codesize[s] + 2) <= SumTo(init, SYMBOLS)
  {
    hide Forest, Fib, SumTo;
    ForestRoots(init, freq, codesize, others, owner, ch);
    SumAtLeast(freq, root, SYMBOLS);
  }

  lemma {:induction false} CountPositive(init: seq<nat>)
    requires Countable(init)
    ensures SumTo(init, SYMBOLS) > 0
  {
    SumAtLeast(init, 256, SYMBOLS);
  }

  lemma ForestChains(init: seq<nat>, freq: seq<nat>, codesize: seq<nat>, others: seq<int>, owner: seq<int>,
                     ch: seq<seq<nat>>,
                     c1: nat, c2: nat)
    requires Forest(init, freq, codesize, others, owner, ch) && c1 < SYMBOLS && c2 < SYMBOLS && freq[c1] > 0
      && freq[c2] > 0
    ensures |owner| == SYMBOLS && |ch| == SYMBOLS && Chain(ch[c1], c1, owner, others)
      && Chain(ch[c2], c2, owner, others)
  {
    hide Chain;
  }

  /** Chaining c2's tree onto the end of c1's leaves c2's own chain alone. */
  lemma ChainSurvives(ch1: seq<nat>, ch2: seq<nat>, c1: nat, c2: nat, owner: seq<int>, others: seq<int>)
    requires Chain(ch1, c1, owner, others) && Chain(ch2, c2, owner, others) && c1 != c2
    ensures ch1 != [] && ch1[|ch1| - 1] < SYMBOLS && Chain(ch2, c2, owner, others[ch1[|ch1| - 1] := c2])
  {
    var last := ch1[|ch1| - 1];
    forall i | 0 <= i < |ch2| ensures ch2[i] != last { assert owner[ch2[i]] == c2; }
  }

  lemma MergeCounts(f: seq<nat>, c1: nat, c2: nat)
    requires |f| == SYMBOLS && c1 < SYMBOLS && c2 < SYMBOLS && c1 != c2 && f[c1] > 0 && f[c2] > 0
    ensures var g := f[c1 := f[c1] + f[c2]][c2 := 0];
      SumTo(g, SYMBOLS) == SumTo(f, SYMBOLS) && Roots(g, SYMBOLS) == Roots(f, SYMBOLS) - 1
  {
    var h := f[c1 := f[c1] + f[c2]];
    SumUpdate(f, c1, f[c1] + f[c2], SYMBOLS);
    SumUpdate(h, c2, 0, SYMBOLS);
    RootsUpdate(f, c1, f[c1] + f[c2], SYMBOLS);
    RootsUpdate(h, c2, 0, SYMBOLS);
  }

  lemma {:induction false} NoCost(init: seq<nat>, codesize: seq<nat>, n: nat)
    requires n <= |init| == |codesize| && forall s :: 0 <= s < n ==> codesize[s] == 0
    ensures Cost(init, codesize, n) == 0
  {
    if n > 0 { NoCost(init, codesize, n - 1); }
  }

  lemma AreRarest(f: seq<nat>, c1: nat, c2: nat)
    requires |f| == SYMBOLS && c1 < SYMBOLS && c2 < SYMBOLS && c1 != c2 && 0 < f[c1] <= SENTINEL
      && 0 < f[c2] <= SENTINEL
    requires forall i :: 0 <= i < SYMBOLS && 0 < f[i] <= SENTINEL ==> f[c1] <= f[i]
    requires forall i :: 0 <= i < SYMBOLS && i != c1 && 0 < f[i] <= SENTINEL ==> f[c2] <= f[i]
    ensures Rarest(f, c1, c2)
  {}

  lemma {:induction false} DeeperCost(init: seq<nat>, owner: seq<int>, codesize: seq<nat>, c1: int, c2: int, n: nat)
    requires n <= |init| == |owner| == |codesize| && c1 != c2
    ensures Cost(init, Deeper(owner, codesize, c1, c2), n) == Cost(init, codesize, n) + FreqSum(owner, init, c1, n)
      + FreqSum(owner, init, c2, n)
  {
    if n > 0 {
      DeeperCost(init, owner, codesize, c1, c2, n - 1);
      OneMore(init[n - 1], codesize[n - 1]);
    }
  }

  lemma OneMore(a: nat, b: nat)
    ensures a * (b + 1) == a * b + a
  {}

  /** Merging two trees adds both counts to the cost, and keeps the lower bound. */
  lemma {:induction false} MergeCosts(init: seq<nat>, freq: seq<nat>, codesize: seq<nat>, others: seq<int>,
                                      owner: seq<int>, ch: seq<seq<nat>>,
                   c1: nat, c2: nat)
    requires Forest(init, freq, codesize, others, owner, ch) && c1 < SYMBOLS && c2 < SYMBOLS && c1 != c2
      && Rarest(freq, c1, c2)
    requires LowerBound(init, freq, Cost(init, codesize, SYMBOLS))
    ensures |freq| == SYMBOLS && |owner| == |codesize| == SYMBOLS
    ensures LowerBound(init, freq[c1 := freq[c1] + freq[c2]][c2 := 0],
      Cost(init, Deeper(owner, codesize, c1, c2), SYMBOLS))
  {
    hide Chain, LowerBound, Cost, FreqSum, TreeSum, Deeper;
    DeeperCost(init, owner, codesize, c1, c2, SYMBOLS);
    MergeKeepsBound(init, freq, Cost(init, codesize, SYMBOLS), c1, c2);
  }

  lemma {:induction false} Optimal(init: seq<nat>, freq: seq<nat>, codesize: seq<nat>)
    requires |init| == |codesize| == SYMBOLS && LowerBound(init, freq, Cost(init, codesize, SYMBOLS))
    ensures forall l: seq<nat> :: Lengths(init, l) ==>
      |l| == SYMBOLS && Cost(init, codesize, SYMBOLS) <= Cost(init, l, SYMBOLS)
  {
    hide LowerBound, Cost, KraftSum;
    forall l: seq<nat> | Lengths(init, l)
      ensures |l| == SYMBOLS && Cost(init, codesize, SYMBOLS) <= Cost(init, l, SYMBOLS) {
      BoundHolds(init, freq, Cost(init, codesize, SYMBOLS), l);
    }
  }
}
