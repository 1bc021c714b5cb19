/** jpeg_natural_order of jutils.c, and blocks stored in natural order. */
module NaturalOrder {
  import opened Coefficients

  function Pick<T>(a: T, b: T, c: T, d: T, e: T, f: T, g: T, h: T, i: nat): T {
    match i
    case 0 => a
    case 1 => b
    case 2 => c
    case 3 => d
    case 4 => e
    case 5 => f
    case 6 => g
    case _ => h
  }

  /** jpeg_natural_order, the natural-order position of each element of zigzag order. */
  function NaturalOf(k: nat): (r: nat)
    requires k < 64
    ensures r < 64
  {
    match k / 8
    case 0 => Pick(0, 1, 8, 16, 9, 2, 3, 10, k % 8)
    case 1 => Pick(17, 24, 32, 25, 18, 11, 4, 5, k % 8)
    case 2 => Pick(12, 19, 26, 33, 40, 48, 41, 34, k % 8)
    case 3 => Pick(27, 20, 13, 6, 7, 14, 21, 28, k % 8)
    case 4 => Pick(35, 42, 49, 56, 57, 50, 43, 36, k % 8)
    case 5 => Pick(29, 22, 15, 23, 30, 37, 44, 51, k % 8)
    case 6 => Pick(58, 59, 52, 45, 38, 31, 39, 46, k % 8)
    case _ => Pick(53, 60, 61, 54, 47, 55, 62, 63, k % 8)
  }

  /** jpeg_zigzag_order, the zigzag position of each element of natural order. */
  function ZigzagOf(k: nat): (r: nat)
    requires k < 64
    ensures r < 64
  {
    match k / 8
    case 0 => Pick(0, 1, 5, 6, 14, 15, 27, 28, k % 8)
    case 1 => Pick(2, 4, 7, 13, 16, 26, 29, 42, k % 8)
    case 2 => Pick(3, 8, 12, 17, 25, 30, 41, 43, k % 8)
    case 3 => Pick(9, 11, 18, 24, 31, 40, 44, 53, k % 8)
    case 4 => Pick(10, 19, 23, 32, 39, 45, 52, 54, k % 8)
    case 5 => Pick(20, 22, 33, 38, 46, 51, 55, 60, k % 8)
    case 6 => Pick(21, 34, 37, 47, 50, 56, 59, 61, k % 8)
    case _ => Pick(35, 36, 48, 49, 57, 58, 62, 63, k % 8)
  }

  /** The table with its 16 spare entries, which lead to the last coefficient. */
  function JpegNaturalOrder(k: nat): (r: nat)
    requires k < 80
    ensures r < 64
  {
    if k < 64 then NaturalOf(k) else 63
  }

  /** The two tables are inverse to each other. */
  lemma OrdersInverse(k: nat)
    requires k < 64
    ensures ZigzagOf(NaturalOf(k)) == k
  {
    hide NaturalOf, ZigzagOf;
    if k < 16 { FirstRows(k); } else if k < 32 { SecondRows(k); } else if k < 48 { ThirdRows(k); } else { LastRows(k); }
  }

  lemma FirstRows(k: nat)
    requires k < 16
    ensures ZigzagOf(NaturalOf(k)) == k
  {}

  lemma SecondRows(k: nat)
    requires 16 <= k < 32
    ensures ZigzagOf(NaturalOf(k)) == k
  {}

  lemma ThirdRows(k: nat)
    requires 32 <= k < 48
    ensures ZigzagOf(NaturalOf(k)) == k
  {}

  lemma LastRows(k: nat)
    requires 48 <= k < 64
    ensures ZigzagOf(NaturalOf(k)) == k
  {}

  /** And the other way round. */
  lemma NaturalZigzag(k: nat)
    requires k < 64
    ensures NaturalOf(ZigzagOf(k)) == k
  {
    hide NaturalOf, ZigzagOf;
    if k < 16 { FirstNatural(k); } else if k < 32 { SecondNatural(k); }
    else if k < 48 { ThirdNatural(k); } else { LastNatural(k); }
  }

  lemma FirstNatural(k: nat)
    requires k < 16
    ensures NaturalOf(ZigzagOf(k)) == k
  {}

  lemma SecondNatural(k: nat)
    requires 16 <= k < 32
    ensures NaturalOf(ZigzagOf(k)) == k
  {}

  lemma ThirdNatural(k: nat)
    requires 32 <= k < 48
    ensures NaturalOf(ZigzagOf(k)) == k
  {}

  lemma LastNatural(k: nat)
    requires 48 <= k < 64
    ensures NaturalOf(ZigzagOf(k)) == k
  {}

  // ---- The zigzag walk ----

  /** From row r and column c, one place on: up and to the right on even diagonals, down and to the left on odd
      ones, and along the edge where the diagonal ends. */
  function StepFrom(r: int, c: int): (int, int) {
    if (r + c) % 2 == 0 then
      if c == 7 then (r + 1, c) else if r == 0 then (r, c + 1) else (r - 1, c + 1)
    else if r == 7 then (r, c + 1) else if c == 0 then (r + 1, c) else (r + 1, c - 1)
  }

  /** The order is the zigzag of Figure 5 of ITU-T T.81: it starts in the corner, and every step is one of the walk. */
  lemma ZigzagWalk(k: nat)
    requires k < 63
    ensures NaturalOf(0) == 0
    ensures StepFrom(NaturalOf(k) / 8, NaturalOf(k) % 8) == (NaturalOf(k + 1) / 8, NaturalOf(k + 1) % 8)
  {
    hide NaturalOf, StepFrom;
    FirstInPlace();
    if k < 16 { FirstSteps(k); } else if k < 32 { SecondSteps(k); } else if k < 48 { ThirdSteps(k); } else {
      LastSteps(k);
    }
  }

  lemma FirstInPlace()
    ensures NaturalOf(0) == 0
  {}

  lemma FirstSteps(k: nat)
    requires k < 16
    ensures StepFrom(NaturalOf(k) / 8, NaturalOf(k) % 8) == (NaturalOf(k + 1) / 8, NaturalOf(k + 1) % 8)
  {}

  lemma SecondSteps(k: nat)
    requires 16 <= k < 32
    ensures StepFrom(NaturalOf(k) / 8, NaturalOf(k) % 8) == (NaturalOf(k + 1) / 8, NaturalOf(k + 1) % 8)
  {}

  lemma ThirdSteps(k: nat)
    requires 32 <= k < 48
    ensures StepFrom(NaturalOf(k) / 8, NaturalOf(k) % 8) == (NaturalOf(k + 1) / 8, NaturalOf(k + 1) % 8)
  {}

  lemma LastSteps(k: nat)
    requires 48 <= k < 63
    ensures StepFrom(NaturalOf(k) / 8, NaturalOf(k) % 8) == (NaturalOf(k + 1) / 8, NaturalOf(k + 1) % 8)
  {}

  /** The block in zigzag order that an array in natural order holds. */
  function Zigzag(a: seq<int>): Block
    requires |a| == 64
  {
    seq(64, k requires 0 <= k < 64 => a[NaturalOf(k)])
  }

  /** Storing through jpeg_natural_order stores at that place of zigzag order. */
  lemma StoreZigzag(a: seq<int>, k: nat, v: int)
    requires |a| == 64 && k < 80
    ensures Zigzag(a[JpegNaturalOrder(k) := v]) == Zigzag(a)[(if k < 64 then k else 63) := v]
    ensures Zigzag(a)[if k < 64 then k else 63] == a[JpegNaturalOrder(k)]
  {
    hide NaturalOf, ZigzagOf;
    var j := if k < 64 then k else 63;
    assert NaturalOf(63) == 63 by { LastInPlace(); }
    forall i | 0 <= i < 64 ensures i != j ==> NaturalOf(i) != NaturalOf(j) {
      OrdersInverse(i);
      OrdersInverse(j);
    }
  }

  lemma LastInPlace()
    ensures NaturalOf(63) == 63
  {}
}
