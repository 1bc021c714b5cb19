/** The coefficient arrays of an image, and the order in which a scan visits their blocks. */
module Frames {
  import opened Coefficients

  /** The coefficient arrays of all components, padding blocks included. */
  type Frame = seq<seq<Block>>

  datatype Pos = Pos(comp: nat, idx: nat)

  /** Which block each block of each MCU of a scan is. */
  type Layout = seq<seq<Pos>>

  predicate In(p: Pos, f: Frame) {
    p.comp < |f| && p.idx < |f[p.comp]|
  }

  function At(f: Frame, p: Pos): Block
    requires In(p, f)
  {
    f[p.comp][p.idx]
  }

  ghost predicate SameSizes(f: Frame, g: Frame) {
    |f| == |g| && forall c :: 0 <= c < |f| ==> |f[c]| == |g[c]|
  }

  function ZeroBlock(): Block {
    seq(64, _ => 0)
  }

  function Zeros(cs: Frame): Frame {
    seq(|cs|, c requires 0 <= c < |cs| => seq(|cs[c]|, _ => ZeroBlock()))
  }

  ghost predicate Visits(layout: Layout, p: Pos) {
    exists i, j :: 0 <= i < |layout| && 0 <= j < |layout[i]| && layout[i][j] == p
  }

  ghost predicate Fits(layout: Layout, f: Frame) {
    forall i, j :: 0 <= i < |layout| && 0 <= j < |layout[i]| ==> In(layout[i][j], f)
  }

  ghost predicate NoBlockTwice(layout: Layout) {
    forall i, j, i', j' :: 0 <= i < |layout| && 0 <= j < |layout[i]| && 0 <= i' < |layout| && 0 <= j' < |layout[i']| ==>
      layout[i][j] == layout[i'][j'] ==> i == i' && j == j'
  }

  /** The MCUs of a scan. */
  ghost function Collect(layout: Layout, f: Frame): (mcus: seq<seq<Block>>)
    requires Fits(layout, f)
    ensures |mcus| == |layout| && forall i :: 0 <= i < |mcus| ==> |mcus[i]| == |layout[i]|
  {
    seq(|layout|,
      i requires 0 <= i < |layout| => seq(|layout[i]|, j requires 0 <= j < |layout[i]| => At(f, layout[i][j])))
  }

  /** The blocks of the MCUs put back. */
  ghost function Scatter(layout: Layout, outs: seq<seq<Block>>, f: Frame): (g: Frame)
    ensures SameSizes(g, f)
  {
    seq(|f|, c requires 0 <= c < |f| => seq(|f[c]|, idx requires 0 <= idx < |f[c]| =>
      if Visits(layout, Pos(c, idx)) then Placed(layout, outs, Pos(c, idx), f[c][idx]) else f[c][idx]))
  }

  ghost function Placed(layout: Layout, outs: seq<seq<Block>>, p: Pos, b: Block): Block
    requires Visits(layout, p)
  {
    var i, j :| 0 <= i < |layout| && 0 <= j < |layout[i]| && layout[i][j] == p;
    if i < |outs| && j < |outs[i]| then outs[i][j] else b
  }

  lemma InSame(f: Frame, cs: Frame, q: Pos)
    requires SameSizes(f, cs)
    ensures In(q, f) <==> In(q, cs)
  {}

  lemma FitsSame(layout: Layout, cs: Frame, f: Frame)
    requires Fits(layout, cs) && SameSizes(f, cs)
    ensures Fits(layout, f)
  {}

  /** What Scatter puts at each position. */
  lemma ScatterAt(layout: Layout, outs: seq<seq<Block>>, f: Frame, q: Pos)
    requires Fits(layout, f) && NoBlockTwice(layout) && In(q, f)
    requires |outs| == |layout| && forall i :: 0 <= i < |outs| ==> |outs[i]| == |layout[i]|
    ensures In(q, Scatter(layout, outs, f))
    ensures !Visits(layout, q) ==> At(Scatter(layout, outs, f), q) == At(f, q)
    ensures forall i, j :: 0 <= i < |layout| && 0 <= j < |layout[i]| && layout[i][j] == q ==>
      At(Scatter(layout, outs, f), q) == outs[i][j]
  {
    hide Fits;
  }

  lemma FindVisit(layout: Layout, q: Pos) returns (i: nat, j: nat)
    requires Visits(layout, q)
    ensures i < |layout| && j < |layout[i]| && layout[i][j] == q
  {
    i, j :| 0 <= i < |layout| && 0 <= j < |layout[i]| && layout[i][j] == q;
  }
}
