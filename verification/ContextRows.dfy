/** The "funny pointer" lists of jdmainct.c: two orders of the same workspace of M + 2 row groups, so
    that row groups of successive iMCU rows appear next to each other without being copied. */
module ContextRows {
  import opened McuGeometry

  /** Row `row` of an image that is continued above and below by its first and its last row. */
  function Clamp(row: int, height: nat): int {
    if row < 0 then 0 else if row >= height then height - 1 else row
  }

  /** A component as the main controller sees it: the height of a row group, and downsampled_height. */
  datatype Comp = Comp(rgroup: nat, height: nat)

  /** Which row group of the workspace entry g of list w stands for, in the normal state of the lists. */
  function PhysGroup(M: nat, w: nat, g: int): int {
    if g == -1 then (if w == 0 then M + 1 else M - 1)
    else if g == M + 2 then (if w == 0 || M > 2 then 0 else M)
    else if w == 0 || g < M - 2 then g
    else if g < M then g + 2
    else g - 2
  }

  /** The workspace row that slot s of list w points to; slots count sample rows and start at -rgroup. */
  function Slot(M: nat, rg: nat, w: nat, s: int): int
    requires rg > 0
  {
    PhysGroup(M, w, s / rg) * rg + s % rg
  }

  /** Entry s + rgroup of a list is slot s. */
  ghost predicate Normal(M: nat, rg: nat, w: nat, list: seq<int>, lo: int, hi: int)
    requires rg > 0 && 0 - rg <= lo && hi <= |list| - rg
  {
    forall j :: lo + rg <= j < hi + rg ==> list[j] == Slot(M, rg, w, j - rg)
  }

  // ---- Slots ----

  lemma SlotOf(M: nat, rg: nat, w: nat, g: int, t: nat)
    requires t < rg
    ensures Slot(M, rg, w, g * rg + t) == PhysGroup(M, w, g) * rg + t
  {
    GroupOf(g, rg, t);
  }

  lemma GroupOf(g: int, rg: nat, t: nat)
    requires t < rg
    ensures (g * rg + t) / rg == g && (g * rg + t) % rg == t
  {
    var n := g * rg + t;
    assert n == (n / rg) * rg + n % rg;
    SameDivision(n / rg, n % rg, g, t, rg);
  }

  lemma PhysInside(M: nat, w: nat, g: int)
    requires M >= 2 && w <= 1 && -1 <= g <= M + 2
    ensures 0 <= PhysGroup(M, w, g) < M + 2
  {}

  /** Within the workspace, no two slots of a list point to the same row. */
  lemma PhysOnce(M: nat, w: nat, g: int, h: int)
    requires M >= 2 && w <= 1 && 0 <= g < M + 2 && 0 <= h < M + 2 && PhysGroup(M, w, g) == PhysGroup(M, w, h)
    ensures g == h
  {}

  lemma SlotSplit(s: int, rg: nat)
    requires rg > 0
    ensures s == (s / rg) * rg + s % rg
  {}

  lemma GroupRange(s: int, rg: nat, lo: int, hi: int)
    requires rg > 0 && lo * rg <= s < hi * rg
    ensures lo <= s / rg < hi
  {
    SlotSplit(s, rg);
    var g := s / rg;
    if g < lo { Apart(g, lo, rg); }
    if g >= hi { MulMono(hi, g, rg); }
  }

  lemma SlotInside(M: nat, rg: nat, w: nat, s: int)
    requires M >= 2 && rg > 0 && w <= 1 && 0 - rg <= s < (M + 3) * rg
    ensures 0 <= Slot(M, rg, w, s) < (M + 2) * rg
  {
    GroupRange(s, rg, -1, M + 3);
    PhysInside(M, w, s / rg);
    MixedBound(PhysGroup(M, w, s / rg), rg, s % rg, M + 2);
  }

  lemma SlotOnce(M: nat, rg: nat, w: nat, s: int, s': int)
    requires M >= 2 && rg > 0 && w <= 1 && 0 <= s < (M + 2) * rg && 0 <= s' < (M + 2) * rg
    requires Slot(M, rg, w, s) == Slot(M, rg, w, s')
    ensures s == s'
  {
    GroupRange(s, rg, 0, M + 2);
    GroupRange(s', rg, 0, M + 2);
    SameDivision(PhysGroup(M, w, s / rg), s % rg, PhysGroup(M, w, s' / rg), s' % rg, rg);
    PhysOnce(M, w, s / rg, s' / rg);
    SlotSplit(s, rg);
    SlotSplit(s', rg);
  }

  /** The group above the first is the last one of the workspace, and the group below the last the first. */
  lemma SlotAround(M: nat, rg: nat, w: nat, u: nat)
    requires M >= 2 && w <= 1 && u < rg
    ensures Slot(M, rg, w, u - rg) == Slot(M, rg, w, (M + 1) * rg + u)
    ensures Slot(M, rg, w, (M + 2) * rg + u) == Slot(M, rg, w, u)
  {
    SlotOf(M, rg, w, -1, u);
    SlotOf(M, rg, w, M + 1, u);
    SlotOf(M, rg, w, M + 2, u);
    SlotOf(M, rg, w, 0, u);
    assert -1 * rg + u == u - rg;
    assert 0 * rg + u == u;
  }

  /** What one list calls its last two groups of an iMCU row, the other one keeps behind its own. */
  lemma SlotSwapped(M: nat, rg: nat, w: nat, u: nat)
    requires M >= 2 && w <= 1 && u < 2 * rg
    ensures Slot(M, rg, 1 - w, M * rg + u) == Slot(M, rg, w, (M - 2) * rg + u)
  {
    var e := if u < rg then 0 else 1;
    var t := if u < rg then u else u - rg;
    SlotOf(M, rg, 1 - w, M + e, t);
    SlotOf(M, rg, w, M - 2 + e, t);
    assert (M + e) * rg + t == M * rg + u;
    assert (M - 2 + e) * rg + t == (M - 2) * rg + u;
  }

  // ---- Building and changing the lists of one component ----

  /** make_funny_pointers: the workspace in two orders, and above it the first row of the image. */
  method MakeLists(M: nat, rg: nat) returns (xbuf0: seq<int>, xbuf1: seq<int>)
    requires M >= 2 && rg > 0
    ensures |xbuf0| == |xbuf1| == (M + 4) * rg
    ensures Normal(M, rg, 0, xbuf0, 0, (M + 2) * rg) && Normal(M, rg, 1, xbuf1, 0, (M + 2) * rg)
    ensures forall j :: 0 <= j < rg ==> xbuf0[j] == 0
  {
    hide Slot, PhysGroup;
    ListSizes(M, rg);
    xbuf0 := seq((M + 4) * rg, _ => 0);
    xbuf1 := xbuf0;
    for i := 0 to (M + 2) * rg
      invariant |xbuf0| == |xbuf1| == (M + 4) * rg
      invariant forall j :: rg <= j < i + rg ==> xbuf0[j] == j - rg
      invariant forall j :: rg <= j < i + rg ==> xbuf1[j] == j - rg
    {
      xbuf0, xbuf1 := xbuf0[i + rg := i], xbuf1[i + rg := i];
    }
    // in the second list, the last four row groups in swapped order
    for i := 0 to 2 * rg
      invariant |xbuf1| == (M + 4) * rg
      invariant forall j :: rg <= j < (M - 2) * rg + rg ==> xbuf1[j] == j - rg
      invariant forall j :: (M - 2) * rg + rg <= j < (M - 2) * rg + rg + i ==> xbuf1[j] == j - rg + 2 * rg
      invariant forall j :: M * rg + rg <= j < M * rg + rg + i ==> xbuf1[j] == j - rg - 2 * rg
    {
      xbuf1 := xbuf1[(M - 2) * rg + i + rg := M * rg + i];
      xbuf1 := xbuf1[M * rg + i + rg := (M - 2) * rg + i];
    }
    FirstListNormal(M, rg, xbuf0);
    SecondListNormal(M, rg, xbuf1);
    for i := 0 to rg
      invariant |xbuf0| == (M + 4) * rg && xbuf0[rg] == 0
      invariant Normal(M, rg, 0, xbuf0, 0, (M + 2) * rg)
      invariant forall j :: 0 <= j < i ==> xbuf0[j] == 0
    {
      xbuf0 := xbuf0[i := xbuf0[rg]];
    }
  }

  lemma ListSizes(M: nat, rg: nat)
    requires M >= 2
    ensures (M + 4) * rg == (M + 2) * rg + 2 * rg && (M + 2) * rg == M * rg + 2 * rg && M * rg == (M - 2) * rg + 2 * rg
    ensures (M + 3) * rg == (M + 2) * rg + rg && (M + 2) * rg == (M + 1) * rg + rg && (M - 2) * rg >= 0
  {}

  lemma FirstListNormal(M: nat, rg: nat, list: seq<int>)
    requires M >= 2 && rg > 0 && |list| == (M + 4) * rg && forall j :: rg <= j < (M + 2) * rg + rg ==> list[j] == j - rg
    ensures Normal(M, rg, 0, list, 0, (M + 2) * rg)
  {
    ListSizes(M, rg);
    forall j | rg <= j < (M + 2) * rg + rg ensures list[j] == Slot(M, rg, 0, j - rg) {
      GroupRange(j - rg, rg, 0, M + 2);
      SlotSplit(j - rg, rg);
    }
  }

  lemma SecondListNormal(M: nat, rg: nat, list: seq<int>)
    requires M >= 2 && rg > 0 && |list| == (M + 4) * rg
    requires forall j :: rg <= j < (M - 2) * rg + rg ==> j < |list| && list[j] == j - rg
    requires forall j :: (M - 2) * rg + rg <= j < M * rg + rg ==> j < |list| && list[j] == j - rg + 2 * rg
    requires forall j :: M * rg + rg <= j < (M + 2) * rg + rg ==> j < |list| && list[j] == j - rg - 2 * rg
    ensures Normal(M, rg, 1, list, 0, (M + 2) * rg)
  {
    ListSizes(M, rg);
    forall j | rg <= j < (M + 2) * rg + rg ensures list[j] == Slot(M, rg, 1, j - rg) {
      var s := j - rg;
      if s < (M - 2) * rg {
        GroupRange(s, rg, 0, M - 2);
        SlotSplit(s, rg);
      } else if s < M * rg {
        SwappedSlots(M, rg, s - (M - 2) * rg);
      } else {
        SwappedSlots(M, rg, s - M * rg);
      }
    }
  }

  lemma SwappedSlots(M: nat, rg: nat, u: nat)
    requires M >= 2 && u < 2 * rg
    ensures Slot(M, rg, 1, (M - 2) * rg + u) == M * rg + u && Slot(M, rg, 1, M * rg + u) == (M - 2) * rg + u
  {
    var e := if u < rg then 0 else 1;
    var t := if u < rg then u else u - rg;
    SlotOf(M, rg, 1, M - 2 + e, t);
    SlotOf(M, rg, 1, M + e, t);
    assert (M - 2 + e) * rg + t == (M - 2) * rg + u;
    assert (M + e) * rg + t == M * rg + u;
  }

  /** set_wraparound_pointers, for one component. */
  method SetWraparound(M: nat, rg: nat, list0: seq<int>, list1: seq<int>) returns (xbuf0: seq<int>, xbuf1: seq<int>)
    requires M >= 2 && rg > 0 && |list0| == |list1| == (M + 4) * rg && (M + 2) * rg <= |list0| - rg
      && (M + 3) * rg <= |list0| - rg
    ensures |xbuf0| == |xbuf1| == |list0|
    ensures Normal(M, rg, 0, list0, 0, (M + 2) * rg) ==> Normal(M, rg, 0, xbuf0, 0 - rg, (M + 3) * rg)
    ensures Normal(M, rg, 1, list1, 0, (M + 2) * rg) ==> Normal(M, rg, 1, xbuf1, 0 - rg, (M + 3) * rg)
  {
    hide Slot, PhysGroup;
    ListSizes(M, rg);
    xbuf0, xbuf1 := list0, list1;
    ghost var ok0, ok1 := Normal(M, rg, 0, list0, 0, (M + 2) * rg), Normal(M, rg, 1, list1, 0, (M + 2) * rg);
    for i := 0 to rg
      invariant |xbuf0| == |xbuf1| == (M + 4) * rg
      invariant ok0 ==> Normal(M, rg, 0, xbuf0, 0 - rg, i - rg) && Normal(M, rg, 0, xbuf0, 0, (M + 2) * rg + i)
      invariant ok1 ==> Normal(M, rg, 1, xbuf1, 0 - rg, i - rg) && Normal(M, rg, 1, xbuf1, 0, (M + 2) * rg + i)
    {
      SlotAround(M, rg, 0, i);
      SlotAround(M, rg, 1, i);
      xbuf0 := xbuf0[i := xbuf0[(M + 1) * rg + i + rg]];
      xbuf1 := xbuf1[i := xbuf1[(M + 1) * rg + i + rg]];
      xbuf0 := xbuf0[(M + 2) * rg + i + rg := xbuf0[i + rg]];
      xbuf1 := xbuf1[(M + 2) * rg + i + rg := xbuf1[i + rg]];
    }
  }

  /** set_bottom_pointers, for one component: the last real row stands in for the rows below it. */
  method SetBottom(M: nat, rg: nat, list: seq<int>, rows_left: nat) returns (xbuf: seq<int>)
    requires M >= 2 && rg > 0 && |list| == (M + 4) * rg && 1 <= rows_left <= M * rg
    ensures |xbuf| == |list|
    ensures rows_left - 1 + rg < |list|
    ensures forall j :: 0 <= j < |xbuf| ==>
      xbuf[j] == if rows_left + rg <= j < rows_left + 3 * rg then list[rows_left - 1 + rg] else list[j]
  {
    ListSizes(M, rg);
    xbuf := list;
    for i := 0 to 2 * rg
      invariant |xbuf| == |list|
      invariant forall j :: 0 <= j < |xbuf| ==>
        xbuf[j] == if rows_left + rg <= j < rows_left + rg + i then list[rows_left - 1 + rg] else list[j]
    {
      xbuf := xbuf[rows_left + i + rg := xbuf[rows_left - 1 + rg]];
    }
  }
}
