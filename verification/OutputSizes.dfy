/** jpeg_calc_output_dimensions of jdmaster.c: the IDCT scaling of each component, and why all components
    come to the same number of row groups. */
module OutputSizes {
  import opened McuGeometry
  import opened ContextRows
  import opened MainController

  /** The sizes that one IDCT may have. */
  predicate Scale(s: nat) {
    s == 1 || s == 2 || s == 4 || s == 8
  }

  /** A component may be scaled to s if it then needs no more samples than the least scaled component. */
  predicate MayScale(img: Image, c: nat, M: nat, s: nat)
    requires img.Ok() && c < |img.comps|
  {
    img.comps[c].hSamp * s <= img.MaxH() * M && img.comps[c].vSamp * s <= img.MaxV() * M
  }

  /** The size that repeated doubling from s reaches. */
  function Doubled(img: Image, c: nat, M: nat, s: nat): (r: nat)
    requires img.Ok() && c < |img.comps| && Scale(s)
    ensures Scale(r) && r % s == 0 && r >= s
    ensures r == s || MayScale(img, c, M, r)
    ensures r == 8 || !MayScale(img, c, M, 2 * r)
    decreases 8 - s
  {
    if s < 8 && MayScale(img, c, M, 2 * s) then Doubled(img, c, M, 2 * s) else s
  }

  /** DCT_scaled_size */
  function ScaledSize(img: Image, c: nat, M: nat): nat
    requires img.Ok() && c < |img.comps| && Scale(M)
  {
    Doubled(img, c, M, M)
  }

  /** M / 8 is the least of 1/8, 1/4, 1/2 and 1 that is not below num / denom, or M is 8. */
  predicate LeastScale(M: nat, num: nat, denom: nat) {
    (M * denom >= 8 * num || M == 8) && (M == 1 || (M / 2) * denom < 8 * num)
  }

  /** The size of the smallest IDCT for a scaling of num / denom. */
  function MinScaledSize(num: nat, denom: nat): (M: nat)
    ensures Scale(M) && LeastScale(M, num, denom)
  {
    if num * 8 <= denom then 1 else if num * 4 <= denom then 2 else if num * 2 <= denom then 4 else 8
  }

  /** downsampled_height */
  function ScaledHeight(img: Image, c: nat, M: nat): nat
    requires img.Ok() && c < |img.comps| && Scale(M)
  {
    DivRoundUp(img.height * (SampV(img, c) * ScaledSize(img, c, M)), img.MaxV() * 8)
  }

  function ScaledWidth(img: Image, c: nat, M: nat): nat
    requires img.Ok() && c < |img.comps| && Scale(M)
  {
    DivRoundUp(img.width * (SampH(img, c) * ScaledSize(img, c, M)), img.MaxH() * 8)
  }

  function SampV(img: Image, c: nat): (v: nat)
    requires img.Ok() && c < |img.comps|
    ensures v == img.comps[c].vSamp >= 1
  {
    SampFits(img, c);
    img.comps[c].vSamp
  }

  function SampH(img: Image, c: nat): (h: nat)
    requires img.Ok() && c < |img.comps|
    ensures h == img.comps[c].hSamp >= 1
  {
    SampFits(img, c);
    img.comps[c].hSamp
  }

  /** The components as the main controller sees them. */
  function Comps(img: Image, M: nat): (comps: seq<Comp>)
    requires img.Ok() && Scale(M)
    ensures |comps| == |img.comps|
  {
    seq(|img.comps|, c requires 0 <= c < |img.comps| => CompFor(img, c, M))
  }

  function CompFor(img: Image, c: nat, M: nat): Comp
    requires img.Ok() && c < |img.comps| && Scale(M)
  {
    Comp(SampV(img, c) * ScaledSize(img, c, M) / M, ScaledHeight(img, c, M))
  }

  /** The number of row groups of the image. */
  function RowGroups(img: Image, M: nat): nat
    requires img.Ok()
  {
    DivRoundUp(img.height * M, img.MaxV() * 8)
  }

  /** The loop over the components. */
  method CalcOutputDimensions(img: Image, scale_num: nat, scale_denom: nat)
    returns (M: nat, output_width: nat, output_height: nat, sizes: seq<nat>, widths: seq<nat>, heights: seq<nat>)
    requires img.Ok()
    ensures M == MinScaledSize(scale_num, scale_denom) && Scale(M) && LeastScale(M, scale_num, scale_denom)
    ensures output_width == DivRoundUp(img.width * M, 8) && output_height == DivRoundUp(img.height * M, 8)
    ensures |sizes| == |widths| == |heights| == |img.comps|
    ensures forall c :: 0 <= c < |img.comps| ==> sizes[c] == ScaledSize(img, c, M)
    ensures forall c :: 0 <= c < |img.comps| ==>
      widths[c] == ScaledWidth(img, c, M) && heights[c] == ScaledHeight(img, c, M)
  {
    hide DivRoundUp, Image.Ok, ScaledSize, ScaledWidth, ScaledHeight;
    if scale_num * 8 <= scale_denom {
      M, output_width, output_height := 1, DivRoundUp(img.width, 8), DivRoundUp(img.height, 8);
    } else if scale_num * 4 <= scale_denom {
      M, output_width, output_height := 2, DivRoundUp(img.width, 4), DivRoundUp(img.height, 4);
    } else if scale_num * 2 <= scale_denom {
      M, output_width, output_height := 4, DivRoundUp(img.width, 2), DivRoundUp(img.height, 2);
    } else {
      M, output_width, output_height := 8, img.width, img.height;
    }
    Fraction(img.width, M);
    Fraction(img.height, M);
    sizes := ScaleComponents(img, M);
    widths, heights := DownsampledSizes(img, M, sizes);
  }

  /** The doubling loop of each component. */
  method ScaleComponents(img: Image, M: nat) returns (sizes: seq<nat>)
    requires img.Ok() && Scale(M)
    ensures |sizes| == |img.comps| && forall c :: 0 <= c < |img.comps| ==> sizes[c] == ScaledSize(img, c, M)
  {
    hide Image.Ok, Image.MaxH, Image.MaxV, MayScale;
    sizes := [];
    for ci := 0 to |img.comps|
      invariant |sizes| == ci && forall c :: 0 <= c < ci ==> sizes[c] == ScaledSize(img, c, M)
    {
      var ssize := M;
      while ssize < 8 && MayScale(img, ci, M, 2 * ssize)
        invariant Scale(ssize) && Doubled(img, ci, M, ssize) == Doubled(img, ci, M, M)
        decreases 8 - ssize
      {
        ssize := ssize * 2;
      }
      sizes := sizes + [ssize];
    }
  }

  method DownsampledSizes(img: Image, M: nat, sizes: seq<nat>) returns (widths: seq<nat>, heights: seq<nat>)
    requires img.Ok() && Scale(M) && |sizes| == |img.comps|
    requires forall c :: 0 <= c < |img.comps| ==> sizes[c] == ScaledSize(img, c, M)
    ensures |widths| == |heights| == |img.comps|
    ensures forall c :: 0 <= c < |img.comps| ==>
      widths[c] == ScaledWidth(img, c, M) && heights[c] == ScaledHeight(img, c, M)
  {
    hide ScaledSize, DivRoundUp, Image.Ok, Image.MaxH, Image.MaxV, SampH, SampV, ScaledWidth, ScaledHeight;
    widths, heights := [], [];
    for ci := 0 to |img.comps|
      invariant |widths| == |heights| == ci
      invariant forall c :: 0 <= c < ci ==> widths[c] == ScaledWidth(img, c, M) && heights[c] == ScaledHeight(img, c, M)
    {
      var width, height := DownsampledSize(img, ci, M, sizes[ci]);
      widths, heights := widths + [width], heights + [height];
    }
  }

  method DownsampledSize(img: Image, c: nat, M: nat, size: nat) returns (width: nat, height: nat)
    requires img.Ok() && c < |img.comps| && Scale(M) && size == ScaledSize(img, c, M)
    ensures width == ScaledWidth(img, c, M) && height == ScaledHeight(img, c, M)
  {
    hide ScaledSize, DivRoundUp, Image.Ok, Image.MaxH, Image.MaxV, SampH, SampV;
    width := DivRoundUp(img.width * (SampH(img, c) * size), img.MaxH() * 8);
    height := DivRoundUp(img.height * (SampV(img, c) * size), img.MaxV() * 8);
  }

  /** Scaling by M / 8 in lowest terms. */
  lemma Fraction(n: nat, M: nat)
    requires Scale(M)
    ensures DivRoundUp(n * M, 8) == if M == 1 then DivRoundUp(n, 8) else if M == 2 then DivRoundUp(n, 4)
                                    else if M == 4 then DivRoundUp(n, 2) else n
  {}

  // ---- Components at the size of the output ----

  /** No component is scaled beyond the size of the output, and one that is subsampled by the same power of two in
      both directions is scaled to exactly that size if one IDCT can do it: no upsampling is then needed. */
  lemma ScaledToOutput(img: Image, c: nat, M: nat)
    requires img.Ok() && c < |img.comps| && Scale(M)
    ensures ScaledWidth(img, c, M) <= DivRoundUp(img.width * M, 8)
    ensures ScaledHeight(img, c, M) <= DivRoundUp(img.height * M, 8)
    ensures forall k :: k == 1 || k == 2 || k == 4 || k == 8 ==>
      (M * k <= 8 && img.comps[c].hSamp * k == img.MaxH() && img.comps[c].vSamp * k == img.MaxV() ==>
       && ScaledSize(img, c, M) == M * k
       && ScaledWidth(img, c, M) == DivRoundUp(img.width * M, 8)
       && ScaledHeight(img, c, M) == DivRoundUp(img.height * M, 8))
  {
    hide DivRoundUp, Image.Ok, Image.MaxH, Image.MaxV, ScaledSize, SampH, SampV;
    var S := ScaledSize(img, c, M);
    ScaledFits(img, c, M);
    SizeBound(img.width, SampH(img, c) * S, img.MaxH(), M);
    SizeBound(img.height, SampV(img, c) * S, img.MaxV(), M);
    forall k | (k == 1 || k == 2 || k == 4 || k == 8) && M * k <= 8
      && img.comps[c].hSamp * k == img.MaxH() && img.comps[c].vSamp * k == img.MaxV()
      ensures S == M * k && SampH(img, c) * S == img.MaxH() * M && SampV(img, c) * S == img.MaxV() * M
    {
      SizeReached(img, c, M, k);
    }
  }

  lemma ScaledFits(img: Image, c: nat, M: nat)
    requires img.Ok() && c < |img.comps| && Scale(M)
    ensures SampH(img, c) * ScaledSize(img, c, M) <= img.MaxH() * M
    ensures SampV(img, c) * ScaledSize(img, c, M) <= img.MaxV() * M
  {
    hide Image.Ok, Image.MaxH, Image.MaxV, Doubled;
    MulMono(SampH(img, c), img.MaxH(), M);
    MulMono(SampV(img, c), img.MaxV(), M);
  }

  /** Samples of a component against samples of the output. */
  lemma SizeBound(n: nat, vs: nat, m: nat, M: nat)
    requires m > 0 && vs <= m * M
    ensures DivRoundUp(n * vs, m * 8) <= DivRoundUp(n * M, 8)
    ensures vs == m * M ==> DivRoundUp(n * vs, m * 8) == DivRoundUp(n * M, 8)
  {
    hide DivRoundUp;
    MulMono(vs, m * M, n);
    assert m * M * n == n * M * m;
    CeilingMono(n * vs, n * M * m, m * 8);
    CancelCeiling(n * M, 8, m);
  }

  lemma CeilingMono(a: nat, a': nat, b: nat)
    requires b > 0 && a <= a'
    ensures DivRoundUp(a, b) <= DivRoundUp(a', b)
  {
    hide DivRoundUp;
    var p, q := DivRoundUp(a, b), DivRoundUp(a', b);
    CeilingIs(a, b, p);
    CeilingIs(a', b, q);
    if p > q { MulMono(q, p - 1, b); }
  }

  lemma CancelCeiling(a: nat, b: nat, m: nat)
    requires b > 0 && m > 0
    ensures DivRoundUp(a * m, m * b) == DivRoundUp(a, b)
  {
    hide DivRoundUp;
    var q := DivRoundUp(a, b);
    CeilingIs(a, b, q);
    CeilingIs(a * m, m * b, q);
    MulLess(q - 1, b, m, a);
    MulMono(a, q * b, m);
    assert (q - 1) * m * b == (q - 1) * (m * b) && q * b * m == q * (m * b);
  }

  /** The doubling goes on up to k times the least size. */
  lemma {:induction false} PowerReached(img: Image, c: nat, M: nat, s: nat, k: nat)
    requires img.Ok() && c < |img.comps| && Scale(M) && Scale(s) && (k == 1 || k == 2 || k == 4 || k == 8) && M * k <= 8
    requires img.comps[c].hSamp * k == img.MaxH() && img.comps[c].vSamp * k == img.MaxV()
    requires M <= s <= M * k
    ensures Doubled(img, c, M, s) == M * k
    decreases 8 - s
  {
    hide Image.Ok, Image.MaxH, Image.MaxV;
    SampFits(img, c);
    var h, v := img.comps[c].hSamp, img.comps[c].vSamp;
    Grouped(h, k, M);
    Grouped(v, k, M);
    if s == M * k {
      Larger(h, 2 * s, M * k);
    } else {
      MulMono(2 * s, M * k, h);
      MulMono(2 * s, M * k, v);
      PowerReached(img, c, M, 2 * s, k);
    }
  }

  lemma SizeReached(img: Image, c: nat, M: nat, k: nat)
    requires img.Ok() && c < |img.comps| && Scale(M) && (k == 1 || k == 2 || k == 4 || k == 8) && M * k <= 8
    requires img.comps[c].hSamp * k == img.MaxH() && img.comps[c].vSamp * k == img.MaxV()
    ensures ScaledSize(img, c, M) == M * k
    ensures SampH(img, c) * (M * k) == img.MaxH() * M && SampV(img, c) * (M * k) == img.MaxV() * M
  {
    hide Image.Ok, Image.MaxH, Image.MaxV, Doubled;
    PowerReached(img, c, M, M, k);
    Grouped(SampH(img, c), k, M);
    Grouped(SampV(img, c), k, M);
  }

  lemma Grouped(h: nat, k: nat, M: nat)
    ensures h * k * M == h * (M * k) == M * k * h
  {}

  lemma Larger(h: nat, a: nat, b: nat)
    requires h >= 1 && a > b
    ensures h * a > h * b
  {
    MulMono(1, h, a - b);
    assert h * a == h * b + h * (a - b);
  }

  /** The height of a row group is a whole number of sample rows. */
  lemma WholeRowGroup(img: Image, c: nat, M: nat)
    requires img.Ok() && c < |img.comps| && Scale(M)
    ensures var rg := SampV(img, c) * ScaledSize(img, c, M) / M;
      rg > 0 && rg * M == SampV(img, c) * ScaledSize(img, c, M)
  {
    hide ScaledSize, Image.Ok;
    var S := ScaledSize(img, c, M);
    SizeMultiple(img, c, M);
    Multiple(S, M);
    WholeQuotient(SampV(img, c), S / M, M);
  }

  lemma SizeMultiple(img: Image, c: nat, M: nat)
    requires img.Ok() && c < |img.comps| && Scale(M)
    ensures ScaledSize(img, c, M) % M == 0 && ScaledSize(img, c, M) >= M >= 1
  {
    hide Doubled;
  }

  lemma Multiple(S: nat, M: nat)
    requires M >= 1 && S % M == 0 && S >= M
    ensures S == (S / M) * M && S / M >= 1
  {}

  lemma WholeQuotient(v: nat, q: nat, M: nat)
    requires v >= 1 && q >= 1 && M >= 1
    ensures v * (q * M) / M > 0 && v * (q * M) / M * M == v * (q * M)
  {
    MulMono(1, v, q);
    assert v * (q * M) == v * q * M;
    DivMod(v * q, M, 0);
  }

  /** The nested ceilings agree: every component has the same number of row groups, which fill the interleaved
      MCU rows of the image, for every image size, sampling factors and scaling. */
  lemma RowGroupsAgree(img: Image, M: nat)
    requires img.Ok() && Scale(M) && M >= 2
    ensures Fixed(M, img.McusDown(), RowGroups(img, M), Comps(img, M))
  {
    hide Image.MaxV, DivRoundUp, CompFor, CompOk, Image.McusDown, RowGroups;
    DownPositive(img);
    forall c | 0 <= c < |img.comps|
      ensures CompFor(img, c, M).rgroup > 0 && CompOk(M, img.McusDown(), RowGroups(img, M), CompFor(img, c, M))
    {
      CompAgrees(img, c, M);
    }
  }

  lemma DownPositive(img: Image)
    requires img.Ok()
    ensures img.McusDown() >= 1
  {
    hide Image.Across, Image.Down, Image.BlocksAcross, Image.BlocksDown, Image.McusDown, Image.McusAcross;
    PaddedSizes(img, 0);
  }

  lemma CompAgrees(img: Image, c: nat, M: nat)
    requires img.Ok() && c < |img.comps| && Scale(M) && M >= 2
    ensures CompFor(img, c, M).rgroup > 0 && CompOk(M, img.McusDown(), RowGroups(img, M), CompFor(img, c, M))
  {
    hide DivRoundUp, ScaledSize, SampV, Image.MaxV, CompOk;
    WholeRowGroup(img, c, M);
    CeilingGroups(img.height, M, SampV(img, c) * ScaledSize(img, c, M) / M, img.MaxV() * 8);
  }

  lemma CeilingGroups(height: nat, M: nat, rg: nat, b: nat)
    requires rg > 0 && M > 0 && b > 0 && height > 0
    ensures CompOk(M, DivRoundUp(height, b), DivRoundUp(height * M, b), Comp(rg, DivRoundUp(height * (rg * M), b)))
  {
    hide DivRoundUp;
    var total, groups, rows := DivRoundUp(height, b), DivRoundUp(height * M, b), DivRoundUp(height * (rg * M), b);
    CeilingPositive(height, b);
    MulMono(1, rg, M);
    NestedCeilings(height, b, rg * M);
    CeilingIs(rows, rg * M, total);
    GroupsNested(height, M, rg, b);
    CeilingIs(rows, rg, groups);
    BaseIs(M, rg, total);
  }

  lemma CeilingPositive(a: nat, b: nat)
    requires a > 0 && b > 0
    ensures DivRoundUp(a, b) >= 1
  {
    CeilingIs(a, b, 0);
  }

  lemma GroupsNested(height: nat, M: nat, rg: nat, b: nat)
    requires rg > 0 && b > 0
    ensures DivRoundUp(DivRoundUp(height * (rg * M), b), rg) == DivRoundUp(height * M, b)
  {
    hide DivRoundUp;
    assert height * (rg * M) == height * M * rg;
    NestedCeilings(height * M, b, rg);
  }

  lemma BaseIs(M: nat, rg: nat, total: nat)
    ensures Base(M, rg, total) == (total - 1) * (rg * M) && Base(M, rg, total + 1) == total * (rg * M)
  {}

  /** The whole image: once enough calls found input and room for output, every row group has been handed on once,
      in order, and every sample row with the rows above and below it, repeated at the edges of the image. */
  method FeedWholeImage(img: Image, M: nat, calls: seq<Call>) returns (main: ContextController)
    requires img.Ok() && Scale(M) && M >= 2
    ensures Productives(calls) >= RowGroups(img, M) ==>
      |main.fed| == RowGroups(img, M) && forall G :: 0 <= G < RowGroups(img, M) ==>
        GroupNeighbours(Comps(img, M), G, main.fed[G])
    ensures Feeds(main, img, M) && (Productives(calls) >= RowGroups(img, M) ==> main.Finished())
  {
    hide Image.Ok, Image.McusDown, RowGroups, Comps, Fixed, GroupNeighbours, ContextController.Valid;
    RowGroupsAgree(img, M);
    main := new ContextController(M, img.McusDown(), RowGroups(img, M), Comps(img, M));
    ProcessImage(main, calls);
    if main.Finished() {
      main.AllHandedOn();
    }
  }

  /** A controller that works on the image. */
  ghost predicate Feeds(main: ContextController, img: Image, M: nat)
    requires img.Ok() && Scale(M)
    reads main
  {
    && main.Valid() && main.M == M && main.total == img.McusDown() && main.groups == RowGroups(img, M)
    && main.comps == Comps(img, M)
  }

  // ---- An image that shows padding ----

  /** 16 x 20 samples in two components, the second subsampled by 2 in each direction. */
  function PaddingImage(): (img: Image)
    ensures img.Ok()
  {
    Image(16, 20, [Component(2, 2), Component(1, 1)])
  }

  /** Scaled to 2/8 it has two iMCU rows, three row groups, and five sample rows in its first component; the
      context below row group 1 is row 5, which does not exist, instead of row 4. */
  lemma PaddingShows(main: ContextController)
    requires Feeds(main, PaddingImage(), 2) && main.Finished()
    ensures main.comps[0] == Comp(2, 5) && |main.fed| == 3 && |main.fed[1]| == 2 && |main.fed[1][0]| == 6
    ensures main.fed[1][0][5] == 5 && Clamp(5, 5) == 4
  {
    hide ContextController.Valid, CompOk, ViewOk;
    PaddingSizes();
    main.HandedOn(1);
    RowExact(2, 2, 3, main.comps[0], 1, main.fed[1][0], 5);
  }

  /** Three calls that find input and room bring the controller there. */
  method PaddingRun() returns (main: ContextController)
    ensures main.Valid() && main.Finished() && |main.fed| == 3 && |main.fed[1]| == 2 && |main.fed[1][0]| == 6
    ensures main.fed[1][0][5] == 5
  {
    hide ContextController.Valid;
    var call := Call(true, 1, true, 1);
    var calls := [call, call, call];
    assert calls[..2] == [call, call] && [call, call][..1] == [call] && [call][..0] == [];
    assert Productives([call]) == 1 && Productives([call, call]) == 2 && Productives(calls) == 3;
    PaddingSizes();
    main := FeedWholeImage(PaddingImage(), 2, calls);
    PaddingShows(main);
  }

  lemma PaddingSizes()
    ensures var img := PaddingImage();
      img.MaxH() == img.MaxV() == 2 && img.McusDown() == 2 && RowGroups(img, 2) == 3 && CompFor(img, 0, 2) == Comp(2, 5)
  {
    var img := PaddingImage();
    assert img.comps[0].vSamp == 2 && img.comps[1].vSamp == 1;
    assert img.MaxV() == 2 && img.MaxH() == 2;
    assert !MayScale(img, 0, 2, 4) && Doubled(img, 0, 2, 2) == 2;
  }
}
