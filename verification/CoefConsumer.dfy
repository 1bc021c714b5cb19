/** consume_data of jdcoefct.c: the decoded blocks of a scan go straight to their places in the
    coefficient arrays, whatever pieces the input arrives in. */
module CoefConsumer {
  import opened HuffmanTables
  import opened Coefficients
  import opened BitReader
  import opened Coding
  import opened Decoding
  import opened McuDecoding
  import opened NaturalOrder
  import opened Suspension
  import opened McuDecoder
  import opened Frames
  import opened McuGeometry
  import opened McuLayout
  import opened McuFilling
  import opened EncoderFeed

  /** The virtual arrays: a 64-entry block for every block of the padded components, no two the same. */
  type Arrays = seq<seq<array<int>>>

  ghost predicate ArraysFor(img: Image, whole: Arrays)
    requires img.Ok()
  {
    && |whole| == |img.comps| && (forall c :: 0 <= c < |whole| ==> |whole[c]| == img.Down(c) * img.Across(c))
    && (forall c, i :: 0 <= c < |whole| && 0 <= i < |whole[c]| ==> whole[c][i].Length == 64)
    && (forall c, i, c', i' :: 0 <= c < |whole| && 0 <= i < |whole[c]| && 0 <= c' < |whole| && 0 <= i' < |whole[c']| ==>
          whole[c][i] == whole[c'][i'] ==> c == c' && i == i')
  }

  ghost function AllBlocks(whole: Arrays): (s: set<array<int>>)
    ensures forall c, i :: 0 <= c < |whole| && 0 <= i < |whole[c]| ==> whole[c][i] in s
  {
    set c, i | 0 <= c < |whole| && 0 <= i < |whole[c]| :: whole[c][i]
  }

  /** The coefficients in the arrays. */
  ghost function Contents(img: Image, whole: Arrays): (f: Frame)
    requires img.Ok() && ArraysFor(img, whole)
    reads AllBlocks(whole)
    ensures FrameFor(img, f)
  {
    seq(|whole|, c requires 0 <= c < |whole| reads AllBlocks(whole) =>
      seq(|whole[c]|, i requires 0 <= i < |whole[c]| reads AllBlocks(whole) => Zigzag(whole[c][i][..])))
  }

  predicate InArrays(whole: Arrays, p: Pos) {
    p.comp < |whole| && p.idx < |whole[p.comp]|
  }

  predicate AllIn(whole: Arrays, ps: seq<Pos>) {
    forall j :: 0 <= j < |ps| ==> InArrays(whole, ps[j])
  }

  /** Pointers to the blocks at the given places. */
  function Pointers(whole: Arrays, ps: seq<Pos>): (m: seq<array<int>>)
    requires AllIn(whole, ps)
    ensures |m| == |ps|
  {
    seq(|ps|, j requires 0 <= j < |ps| && InArrays(whole, ps[j]) => whole[ps[j].comp][ps[j].idx])
  }

  // ---- Decoding in place ----

  function After(outs: seq<seq<Block>>, r: Option<ScanOut>): Option<ScanOut> {
    match r
    case None => None
    case Some(so) => Some(so.(outs := outs + so.outs))
  }

  /** One call of decode_mcu, complete or not, leaves the outcome of the rest of the scan as it was. */
  lemma {:induction false} WholeStep(scan: Scan, data: seq<nat>, lim: nat, tabs: seq<Tab>, d: Dec,
                                     outs: seq<seq<Block>>, rest: seq<seq<Block>>)
    requires DecOk(scan, d) && TabsOk(scan, tabs) && Bytes(data) && lim <= |data| && Sized(scan, rest) && rest != []
    ensures var o := DecodeMcu(scan, data, lim, tabs, d, rest[0]);
      && DecOk(scan, o.dec) && |o.blocks| == |scan.members| && Sized(scan, rest[1..])
         && Sized(scan, [o.blocks] + rest[1..])
      && (o.Complete? ==>
         After(outs, DecodeWhole(scan, data, tabs, d, rest)) == After(outs + [o.blocks],
         DecodeWhole(scan, data, tabs, o.dec, rest[1..])))
      && (o.Suspended? ==>
         DecodeWhole(scan, data, tabs, d, rest) == DecodeWhole(scan, data, tabs, o.dec, [o.blocks] + rest[1..]))
  {
    hide DecodeMcu, TabsOk, Bytes, DecOk, Shorts;
    var o := DecodeMcu(scan, data, lim, tabs, d, rest[0]);
    McuShorts(scan, data, lim, tabs, d, rest[0]);
    RetryIsTransparent(scan, data, lim, |data|, tabs, d, rest[0]);
    if o.Complete? {
      var r := DecodeWhole(scan, data, tabs, o.dec, rest[1..]);
      if r.Some? {
        assert outs + ([o.blocks] + r.value.outs) == outs + [o.blocks] + r.value.outs;
      }
    } else {
      var again := [o.blocks] + rest[1..];
      assert again[0] == o.blocks && again[1..] == rest[1..];
    }
  }

  /** Replacing the blocks of one MCU. */
  lemma ScatterStep(layout: Layout, cur: seq<seq<Block>>, start: Frame, f: Frame, n: nat, new': seq<Block>)
    requires Fits(layout, start) && NoBlockTwice(layout) && n < |layout| == |cur| && |new'| == |layout[n]|
      && SameSizes(f, start)
    requires forall i :: 0 <= i < |cur| ==> |cur[i]| == |layout[i]|
    requires forall j :: 0 <= j < |layout[n]| ==> In(layout[n][j], f) && At(f, layout[n][j]) == new'[j]
    requires forall p :: In(p, start) && In(p, f) && p !in layout[n] ==> At(f, p) == At(Scatter(layout, cur, start), p)
    ensures f == Scatter(layout, cur[n := new'], start)
  {
    hide Scatter, Fits, NoBlockTwice, Visits;
    var g := Scatter(layout, cur[n := new'], start);
    forall c, idx | 0 <= c < |f| && 0 <= idx < |f[c]| ensures f[c][idx] == g[c][idx] {
      StepAt(layout, cur, start, f, n, new', Pos(c, idx));
    }
    forall c | 0 <= c < |f| ensures f[c] == g[c] {}
  }

  lemma StepAt(layout: Layout, cur: seq<seq<Block>>, start: Frame, f: Frame, n: nat, new': seq<Block>, p: Pos)
    requires Fits(layout, start) && NoBlockTwice(layout) && n < |layout| == |cur| && |new'| == |layout[n]|
      && SameSizes(f, start)
    requires forall i :: 0 <= i < |cur| ==> |cur[i]| == |layout[i]|
    requires forall j :: 0 <= j < |layout[n]| ==> In(layout[n][j], f) && At(f, layout[n][j]) == new'[j]
    requires forall p :: In(p, start) && In(p, f) && p !in layout[n] ==> At(f, p) == At(Scatter(layout, cur, start), p)
    requires In(p, start)
    ensures In(p, f) && In(p, Scatter(layout, cur[n := new'], start))
      && At(f, p) == At(Scatter(layout, cur[n := new'], start), p)
  {
    hide Scatter, Fits, NoBlockTwice, Visits;
    ScatterAt(layout, cur, start, p);
    ScatterAt(layout, cur[n := new'], start, p);
    if Visits(layout, p) {
      var i, j := FindVisit(layout, p);
      if p in layout[n] {
        var j' :| 0 <= j' < |layout[n]| && layout[n][j'] == p;
      } else {
        assert i != n;
      }
    }
  }

  lemma ScatterStart(layout: Layout, start: Frame)
    requires Fits(layout, start) && NoBlockTwice(layout)
    ensures Scatter(layout, Collect(layout, start), start) == start
  {
    hide Scatter, Fits, NoBlockTwice, Visits;
    var cur := Collect(layout, start);
    var g := Scatter(layout, cur, start);
    forall c, idx | 0 <= c < |start| && 0 <= idx < |start[c]| ensures g[c][idx] == start[c][idx] {
      var p := Pos(c, idx);
      ScatterAt(layout, cur, start, p);
      if Visits(layout, p) {
        var i, j := FindVisit(layout, p);
        CollectAt(layout, start, i, j);
      }
    }
    forall c | 0 <= c < |start| ensures g[c] == start[c] {}
  }

  lemma CollectAt(layout: Layout, f: Frame, i: nat, j: nat)
    requires Fits(layout, f) && i < |layout| && j < |layout[i]|
    ensures In(layout[i][j], f) && Collect(layout, f)[i][j] == At(f, layout[i][j])
  {}

  // ---- The block list of an MCU ----

  /** ps lists the first k components of an MCU and n blocks of the next one. */
  ghost predicate Listed(img: Image, scan: seq<nat>, whole: Arrays, r: nat, yoffset: nat, X: nat, ps: seq<Pos>,
                         k: nat, n: nat) {
    && AtMcu(img, scan, r, yoffset, X) && ArraysFor(img, whole) && AllIn(whole, ps) && k <= |scan|
    && var comps, R := CompsOf(img, scan), RowStart(img, scan, r) + yoffset;
    && CompsOk(img, comps)
    && (if k < |scan| then n <= McuSize(comps[k]) else n == 0)
    && ps == McuBlocks(img, comps[..k], R, X) + if k < |scan| then CompBlocks(img, comps[k], R, X)[..n] else []
  }

  lemma ListedNothing(img: Image, scan: seq<nat>, whole: Arrays, r: nat, yoffset: nat, X: nat)
    requires AtMcu(img, scan, r, yoffset, X) && ArraysFor(img, whole)
    ensures Listed(img, scan, whole, r, yoffset, X, [], 0, 0)
  {
    hide Image.Ok, Image.Across, Image.Down, Image.McusDown, Membership, RowStart, CompBlocks, ArraysFor;
    assert CompsOf(img, scan)[..0] == [];
  }

  /** The block that comes next is the one that the loops point to. */
  lemma ListedOne(img: Image, scan: seq<nat>, whole: Arrays, r: nat, yoffset: nat, X: nat, ps: seq<Pos>, k: nat,
                  y: nat, x: nat)
    requires Spot(img, scan, k, r, yoffset, X, y, x)
    requires Listed(img, scan, whole, r, yoffset, X, ps, k, Mixed(y, CompsOf(img, scan)[k].mcuWidth, x))
    ensures var p := PosAt(img, scan[k], Mixed(r, img.comps[scan[k]].vSamp, y + yoffset),
      Mixed(X, CompsOf(img, scan)[k].mcuWidth, x));
      InArrays(whole, p)
        && Listed(img, scan, whole, r, yoffset, X, ps + [p], k, Mixed(y, CompsOf(img, scan)[k].mcuWidth, x) + 1)
  {
    hide Spot, AtMcu, Image.Ok, Image.Across, Image.Down, Image.McusDown, Membership, RowStart, RowsIn, GeometryOf,
         CompsOf, McuBlocks, PosAt, Mixed;
    SpotFacts(img, scan, k, r, yoffset, X, y, x);
    SpotPlace(img, scan, k, r, yoffset, X, y, x);
    var sc, R, n := CompsOf(img, scan)[k], RowStart(img, scan, r) + yoffset,
      Mixed(y, CompsOf(img, scan)[k].mcuWidth, x);
    var row, col := Mixed(r, img.comps[scan[k]].vSamp, y + yoffset), Mixed(X, sc.mcuWidth, x);
    InsideArrays(img, whole, scan[k], row, col);
    var s := CompBlocks(img, sc, R, X);
    assert s[..n + 1] == s[..n] + [s[n]];
  }

  lemma InsideArrays(img: Image, whole: Arrays, c: nat, row: nat, col: nat)
    requires img.Ok() && ArraysFor(img, whole) && c < |img.comps| && row < img.Down(c) && col < img.Across(c)
    ensures InArrays(whole, PosAt(img, c, row, col))
  {
    hide Image.Ok, Image.Across, Image.Down;
    MixedBound(row, img.Across(c), col, img.Down(c));
  }

  lemma ListedComp(img: Image, scan: seq<nat>, whole: Arrays, r: nat, yoffset: nat, X: nat, ps: seq<Pos>, k: nat)
    requires k < |scan| && img.Ok() && Selects(img, scan)
      && Listed(img, scan, whole, r, yoffset, X, ps, k, McuSize(CompsOf(img, scan)[k]))
    ensures Listed(img, scan, whole, r, yoffset, X, ps, k + 1, 0)
  {
    hide AtMcu, ArraysFor, CompsOf, CompBlocks;
    var comps := CompsOf(img, scan);
    assert comps[..k + 1][..k] == comps[..k];
  }

  /** The complete list is the MCU of the layout. */
  lemma ListedAll(img: Image, scan: seq<nat>, whole: Arrays, r: nat, yoffset: nat, X: nat, ps: seq<Pos>)
    requires ScanReady(img, scan) && Listed(img, scan, whole, r, yoffset, X, ps, |scan|, 0)
    ensures CompsOk(img, GeometryOf(img, scan).comps) && GeometryOf(img, scan).mcusPerRow >= 1
    ensures McusBefore(img, scan, r, yoffset, X) < |ScanLayout(img, GeometryOf(img, scan))|
    ensures ps == ScanLayout(img, GeometryOf(img, scan))[McusBefore(img, scan, r, yoffset, X)]
  {
    hide Image.Ok, Image.Across, Image.Down, Image.McusDown, Image.McusAcross, Image.BlocksAcross, Image.BlocksDown,
         Membership, McuBlocks, ArraysFor, CompsOf, RowStart;
    var g, R := GeometryOf(img, scan), RowStart(img, scan, r) + yoffset;
    RowsAddUp(img, scan, r);
    MixedBound(R, g.mcusPerRow, X, g.mcuRows);
    DivMod(R, g.mcusPerRow, X);
    assert CompsOf(img, scan)[..|scan|] == g.comps;
  }

  // ---- Arrays and their contents ----

  lemma ContentsAt(img: Image, whole: Arrays, p: Pos)
    requires img.Ok() && ArraysFor(img, whole) && InArrays(whole, p)
    ensures In(p, Contents(img, whole)) && At(Contents(img, whole), p) == Zigzag(whole[p.comp][p.idx][..])
  {
    hide Image.Ok, Image.Across, Image.Down, Zigzag;
  }

  lemma PointersFit(img: Image, whole: Arrays, ps: seq<Pos>)
    requires img.Ok() && ArraysFor(img, whole) && AllIn(whole, ps)
    requires forall j, j' :: 0 <= j < |ps| && 0 <= j' < |ps| && ps[j] == ps[j'] ==> j == j'
    ensures McuData(Pointers(whole, ps))
    ensures forall j :: 0 <= j < |ps| ==> Pointers(whole, ps)[j] in AllBlocks(whole)
    ensures forall p :: InArrays(whole, p) && p !in ps ==> whole[p.comp][p.idx] !in Pointers(whole, ps)
  {
    hide Image.Ok, Image.Across, Image.Down;
  }

  lemma BlocksAt(img: Image, whole: Arrays, ps: seq<Pos>, j: nat)
    requires img.Ok() && ArraysFor(img, whole) && AllIn(whole, ps) && McuData(Pointers(whole, ps)) && j < |ps|
    ensures In(ps[j], Contents(img, whole)) && Blocks(Pointers(whole, ps))[j] == At(Contents(img, whole), ps[j])
  {
    hide Image.Ok, Image.Across, Image.Down, Zigzag;
    ContentsAt(img, whole, ps[j]);
  }

  lemma ContentsAre(img: Image, whole: Arrays, f: Frame)
    requires img.Ok() && ArraysFor(img, whole) && FrameFor(img, f)
    requires forall p :: InArrays(whole, p) && In(p, f) ==> At(f, p) == Zigzag(whole[p.comp][p.idx][..])
    ensures Contents(img, whole) == f
  {
    hide Image.Ok, Image.Across, Image.Down, Zigzag;
    var g := Contents(img, whole);
    forall c, i | 0 <= c < |whole| && 0 <= i < |whole[c]| ensures f[c][i] == g[c][i] {
      assert At(f, Pos(c, i)) == Zigzag(whole[c][i][..]);
    }
    forall c | 0 <= c < |whole| ensures f[c] == g[c] {}
  }

  // ---- The state between two MCUs ----

  /** The order in which the scan visits the blocks. */
  ghost function Order(img: Image, cur: seq<nat>): (layout: Layout)
    requires ScanReady(img, cur)
  {
    var g := GeometryOf(img, cur);
    GeometryWithin(img, cur);
    WithinShape(img, g);
    ScanLayout(img, g)
  }

  lemma OrderFacts(img: Image, cur: seq<nat>, f: Frame)
    requires ScanReady(img, cur) && FrameFor(img, f)
    ensures NoBlockTwice(Order(img, cur)) && Fits(Order(img, cur), f)
    ensures |Order(img, cur)| == GeometryOf(img, cur).mcuRows * GeometryOf(img, cur).mcusPerRow
    ensures forall i :: 0 <= i < |Order(img, cur)| ==> |Order(img, cur)[i]| == |GeometryOf(img, cur).membership|
  {
    hide ScanLayout, Within, Image.Ok, Membership, FrameFor, NoBlockTwice, Fits, CompsOf;
    var g := GeometryOf(img, cur);
    GeometryWithin(img, cur);
    WithinShape(img, g);
    TilesOnce(img, g);
    TilesFit(img, g, f);
    forall i | 0 <= i < |ScanLayout(img, g)| ensures |ScanLayout(img, g)[i]| == |Membership(g.comps)| {
      TileSize(img, g, i);
    }
  }

  /** What stays fixed during a scan: the frame at its start, and the decoder's state there. */
  datatype Source = Source(scan: Scan, tabs: seq<Tab>, data: seq<nat>, d0: Dec, start: Frame)

  ghost predicate SourceOk(img: Image, cur: seq<nat>, src: Source) {
    && ScanReady(img, cur) && FrameFor(img, src.start) && DecOk(src.scan, src.d0) && TabsOk(src.scan, src.tabs)
       && Bytes(src.data)
    && src.scan.members == GeometryOf(img, cur).membership
    && Fits(Order(img, cur), src.start) && Sized(src.scan, Collect(Order(img, cur), src.start))
  }

  /** After MCUs outs: the arrays hold outs and, for the rest, whatever attempts have left behind, and
      decoding the rest from here completes the decoding of the scan. */
  ghost predicate Midway(img: Image, cur: seq<nat>, src: Source, d: Dec, f: Frame, outs: seq<seq<Block>>,
                         rest: seq<seq<Block>>)
    requires SourceOk(img, cur, src)
  {
    && DecOk(src.scan, d) && Sized(src.scan, rest)
    && |outs| + |rest| == |Order(img, cur)|
    && (forall i :: 0 <= i < |outs| ==> |outs[i]| == |src.scan.members|)
    && f == Scatter(Order(img, cur), outs + rest, src.start)
    && DecodeWhole(src.scan, src.data, src.tabs, src.d0, Collect(Order(img, cur), src.start)) ==
       After(outs, DecodeWhole(src.scan, src.data, src.tabs, d, rest))
  }

  lemma MidwayStart(img: Image, cur: seq<nat>, src: Source)
    requires SourceOk(img, cur, src)
    ensures Midway(img, cur, src, src.d0, src.start, [], Collect(Order(img, cur), src.start))
  {
    hide ScanReady, FrameFor, Order, Fits, Sized, NoBlockTwice, Scatter, DecodeWhole, TabsOk, Bytes, DecOk;
    var all := Collect(Order(img, cur), src.start);
    OrderFacts(img, cur, src.start);
    ScatterStart(Order(img, cur), src.start);
    assert [] + all == all;
    var r := DecodeWhole(src.scan, src.data, src.tabs, src.d0, all);
    if r.Some? { assert [] + r.value.outs == r.value.outs; }
  }

  /** The blocks that the next MCU starts from. */
  lemma MidwayBlocks(img: Image, cur: seq<nat>, src: Source, d: Dec, f: Frame, outs: seq<seq<Block>>,
                     rest: seq<seq<Block>>, j: nat)
    requires SourceOk(img, cur, src) && Midway(img, cur, src, d, f, outs, rest) && rest != []
      && j < |Order(img, cur)[|outs|]|
    ensures |rest[0]| == |Order(img, cur)[|outs|]| && In(Order(img, cur)[|outs|][j], f)
      && At(f, Order(img, cur)[|outs|][j]) == rest[0][j]
  {
    hide ScanReady, FrameFor, Order, NoBlockTwice, Scatter, DecodeWhole, TabsOk, Bytes, DecOk;
    OrderFacts(img, cur, src.start);
    CurShape(img, cur, src, d, f, outs, rest);
    var p := Order(img, cur)[|outs|][j];
    ScatterAt(Order(img, cur), outs + rest, src.start, p);
    assert (outs + rest)[|outs|] == rest[0];
  }

  lemma CurShape(img: Image, cur: seq<nat>, src: Source, d: Dec, f: Frame, outs: seq<seq<Block>>, rest: seq<seq<Block>>)
    requires SourceOk(img, cur, src) && Midway(img, cur, src, d, f, outs, rest)
    ensures |outs + rest| == |Order(img, cur)|
    ensures forall i :: 0 <= i < |outs + rest| ==> |(outs + rest)[i]| == |Order(img, cur)[i]|
  {
    hide ScanReady, FrameFor, NoBlockTwice, Scatter, DecodeWhole, TabsOk, Bytes, DecOk, Fits, Order;
    OrderFacts(img, cur, src.start);
  }

  /** One call of decode_mcu. */
  lemma MidwayStep(img: Image, cur: seq<nat>, src: Source, lim: nat, d: Dec, f: Frame, f': Frame,
                   outs: seq<seq<Block>>, rest: seq<seq<Block>>)
    requires SourceOk(img, cur, src) && Midway(img, cur, src, d, f, outs, rest) && rest != [] && lim <= |src.data|
    requires FrameFor(img, f) && FrameFor(img, f')
      && |DecodeMcu(src.scan, src.data, lim, src.tabs, d, rest[0]).blocks| == |src.scan.members|
    requires var ps := Order(img, cur)[|outs|]; var o := DecodeMcu(src.scan, src.data, lim, src.tabs, d, rest[0]);
      forall j :: 0 <= j < |ps| ==> In(ps[j], f') && At(f', ps[j]) == o.blocks[j]
    requires forall p :: In(p, f) && In(p, f') && p !in Order(img, cur)[|outs|] ==> At(f', p) == At(f, p)
    ensures var o := DecodeMcu(src.scan, src.data, lim, src.tabs, d, rest[0]);
      && (o.Complete? ==> Midway(img, cur, src, o.dec, f', outs + [o.blocks], rest[1..]))
      && (o.Suspended? ==> Midway(img, cur, src, o.dec, f', outs, [o.blocks] + rest[1..]))
  {
    hide ScanReady, FrameFor, Order, NoBlockTwice, Scatter, DecodeWhole, TabsOk, Bytes, DecOk, Fits, DecodeMcu, Sized,
         After, SourceOk;
    SourceFacts(img, cur, src);
    OrderFacts(img, cur, src.start);
    CurShape(img, cur, src, d, f, outs, rest);
    SizedHead(src.scan, rest);
    var o := DecodeMcu(src.scan, src.data, lim, src.tabs, d, rest[0]);
    WholeStep(src.scan, src.data, lim, src.tabs, d, outs, rest);
    SameFrameSize(img, f', src.start);
    MidwayPut(Order(img, cur), src.start, f, f', outs, rest, o.blocks);
    assert (outs + [o.blocks]) + rest[1..] == outs + ([o.blocks] + rest[1..]);
  }

  /** The complete input ends within the scan. */
  ghost predicate Undecodable(img: Image, cur: seq<nat>, src: Source) {
    SourceOk(img, cur, src) &&
    DecodeWhole(src.scan, src.data, src.tabs, src.d0, Collect(Order(img, cur), src.start)) == None
  }

  lemma MidwayStuck(img: Image, cur: seq<nat>, src: Source, d: Dec, f: Frame, outs: seq<seq<Block>>,
                    rest: seq<seq<Block>>)
    requires SourceOk(img, cur, src) && Midway(img, cur, src, d, f, outs, rest) && rest != []
    requires |rest[0]| == |src.scan.members|
      && DecodeMcu(src.scan, src.data, |src.data|, src.tabs, d, rest[0]).Suspended?
    ensures Undecodable(img, cur, src)
  {
    hide SourceOk, Order, Scatter, Collect, DecodeMcu, TabsOk, Bytes, DecOk, Sized;
  }

  /** Putting new blocks into the next MCU. */
  lemma MidwayPut(layout: Layout, start: Frame, f: Frame, f': Frame, outs: seq<seq<Block>>, rest: seq<seq<Block>>,
                  new': seq<Block>)
    requires Fits(layout, start) && NoBlockTwice(layout) && |outs| + |rest| == |layout| && rest != []
      && |new'| == |layout[|outs|]|
    requires forall i :: 0 <= i < |outs + rest| ==> |(outs + rest)[i]| == |layout[i]|
    requires SameSizes(f', start) && f == Scatter(layout, outs + rest, start)
    requires forall j :: 0 <= j < |layout[|outs|]| ==> In(layout[|outs|][j], f') && At(f', layout[|outs|][j]) == new'[j]
    requires forall p :: In(p, f) && In(p, f') && p !in layout[|outs|] ==> At(f', p) == At(f, p)
    ensures f' == Scatter(layout, outs + ([new'] + rest[1..]), start)
  {
    hide Scatter, Fits, NoBlockTwice;
    ScatterStep(layout, outs + rest, start, f', |outs|, new');
    assert (outs + rest)[|outs| := new'] == outs + ([new'] + rest[1..]);
  }

  lemma SizedHead(scan: Scan, rest: seq<seq<Block>>)
    requires Sized(scan, rest) && rest != []
    ensures |rest[0]| == |scan.members|
  {}

  lemma SourceFacts(img: Image, cur: seq<nat>, src: Source)
    requires SourceOk(img, cur, src)
    ensures TabsOk(src.scan, src.tabs) && Bytes(src.data) && ScanReady(img, cur) && FrameFor(img, src.start)
    ensures src.scan.members == GeometryOf(img, cur).membership && Fits(Order(img, cur), src.start)
  {}

  lemma SameFrameSize(img: Image, f: Frame, g: Frame)
    requires img.Ok() && FrameFor(img, f) && FrameFor(img, g)
    ensures SameSizes(f, g)
  {}

  // ---- The controller ----

  datatype Consumed = JpegSuspended | JpegRowCompleted | JpegScanCompleted

  class CoefficientConsumer {
    const img: Image
    const cur_comp_info: seq<nat>
    const g: ScanGeometry
    const whole_image: Arrays
    const entropy: EntropyDecoder
    var input_iMCU_row: nat
    var MCU_ctr: nat
    var MCU_vert_offset: nat
    var MCU_rows_per_iMCU_row: nat
    // the scan as it was found, the MCUs decoded, and the blocks of the others
    ghost const src: Source
    ghost var outs: seq<seq<Block>>
    ghost var rest: seq<seq<Block>>

    ghost predicate Fixed() {
      && SourceOk(img, cur_comp_info, src) && g == GeometryOf(img, cur_comp_info) && ArraysFor(img, whole_image)
      && entropy.scan == src.scan && entropy.tabs == src.tabs && entropy.data == src.data
    }

    ghost predicate Going()
      reads this`outs, this`rest, entropy, AllBlocks(whole_image)
    {
      && Fixed() && entropy.Valid()
      && Midway(img, cur_comp_info, src, entropy.State(), Contents(img, whole_image), outs, rest)
    }

    ghost predicate Valid()
      reads this, entropy, AllBlocks(whole_image)
    {
      && Going() && MCU_vert_offset < MCU_rows_per_iMCU_row && MCU_ctr < g.mcusPerRow
         && input_iMCU_row <= img.McusDown()
      && if input_iMCU_row < img.McusDown() then
           && MCU_rows_per_iMCU_row == RowsIn(img, cur_comp_info, input_iMCU_row)
           && |outs| == McusBefore(img, cur_comp_info, input_iMCU_row, MCU_vert_offset, MCU_ctr)
         else rest == []
    }

    lemma GoingFacts()
      requires Going()
      ensures Fixed() && ScanReady(img, cur_comp_info)
    {
      hide Midway, ScanReady;
    }

    lemma GoingEnd()
      requires Going() && ScanReady(img, cur_comp_info)
        && |outs| == McusBefore(img, cur_comp_info, img.McusDown(), 0, 0)
      ensures rest == [] && SourceOk(img, cur_comp_info, src) && ArraysFor(img, whole_image)
      ensures DecodeWhole(src.scan, src.data, src.tabs, src.d0, Collect(Order(img, cur_comp_info), src.start)) ==
        Some(ScanOut(entropy.State(), outs))
      ensures Contents(img, whole_image) == Scatter(Order(img, cur_comp_info), outs, src.start)
    {
      hide FrameFor, RowsIn, RowStart, Image.Ok, Image.Across, Image.Down, Image.McusDown, ArraysFor, Membership,
           TabsOk, Bytes, DecOk, Order, McusBefore, GeometryOf, Contents, Scatter, Collect, AllBlocks, Sized, Fits,
           ScanReady;
      OrderEnd(img, cur_comp_info, src.start);
      assert rest == [];
      assert outs + rest == outs;
      assert outs + [] == outs;
    }

    /** start_input_pass: the arrays hold what earlier scans have left in them. */
    constructor (img: Image, cur_comp_info: seq<nat>, whole_image: Arrays, entropy: EntropyDecoder)
      requires ScanReady(img, cur_comp_info) && ArraysFor(img, whole_image) && entropy.Valid()
      requires entropy.scan.members == GeometryOf(img, cur_comp_info).membership
      requires Fits(Order(img, cur_comp_info), Contents(img, whole_image))
      requires Sized(entropy.scan, Collect(Order(img, cur_comp_info), Contents(img, whole_image)))
      ensures Valid() && input_iMCU_row == 0
      ensures src == Source(entropy.scan, entropy.tabs, entropy.data, entropy.State(), Contents(img, whole_image))
      ensures this.img == img && this.cur_comp_info == cur_comp_info && this.whole_image == whole_image
        && this.entropy == entropy
    {
      hide FrameFor, RowsIn, McusBefore, GeometryOf, Image.Ok, Image.McusDown, Midway, Contents, Order, Sized, Fits,
           TabsOk, Bytes, DecOk, Collect, Zigzag, Image.Across, Image.Down;
      ghost var source := Source(entropy.scan, entropy.tabs, entropy.data, entropy.State(), Contents(img, whole_image));
      forall p | InArrays(whole_image, p) ensures In(p, source.start)
        && At(source.start, p) == Zigzag(whole_image[p.comp][p.idx][..]) {
        ContentsAt(img, whole_image, p);
      }
      ScanStart(img, cur_comp_info);
      MidwayStart(img, cur_comp_info, source);
      this.img, this.cur_comp_info, this.whole_image, this.entropy := img, cur_comp_info, whole_image, entropy;
      g := GeometryOf(img, cur_comp_info);
      src, outs, rest := source, [], Collect(Order(img, cur_comp_info), Contents(img, whole_image));
      input_iMCU_row, MCU_ctr, MCU_vert_offset := 0, 0, 0;
      MCU_rows_per_iMCU_row := RowsIn(img, cur_comp_info, 0);
      new;
      ContentsAre(img, whole_image, source.start);
    }

    /** start_iMCU_row */
    method StartIMcuRow()
      requires ScanReady(img, cur_comp_info) && g == GeometryOf(img, cur_comp_info)
      modifies this`MCU_ctr, this`MCU_vert_offset, this`MCU_rows_per_iMCU_row
      ensures MCU_ctr == MCU_vert_offset == 0 && MCU_rows_per_iMCU_row == RowsIn(img, cur_comp_info, input_iMCU_row)
    {
      if |cur_comp_info| > 1 {
        MCU_rows_per_iMCU_row := 1;
      } else if input_iMCU_row < img.McusDown() - 1 {
        SomeBlocks(img, cur_comp_info[0]);
        MCU_rows_per_iMCU_row := img.comps[cur_comp_info[0]].vSamp;
      } else {
        MCU_rows_per_iMCU_row := g.comps[0].lastRowHeight;
      }
      MCU_ctr, MCU_vert_offset := 0, 0;
    }

    /** The list of pointers to the blocks of an MCU. */
    method ListBlocks(yoffset: nat, MCU_col_num: nat) returns (MCU_buffer: seq<array<int>>, ghost ps: seq<Pos>)
      requires Fixed() && AtMcu(img, cur_comp_info, input_iMCU_row, yoffset, MCU_col_num)
      ensures McusBefore(img, cur_comp_info, input_iMCU_row, yoffset, MCU_col_num) < |Order(img, cur_comp_info)|
      ensures ps == Order(img, cur_comp_info)[McusBefore(img, cur_comp_info, input_iMCU_row, yoffset, MCU_col_num)]
      ensures AllIn(whole_image, ps) && MCU_buffer == Pointers(whole_image, ps)
    {
      hide Listed, FrameFor, RowsIn, RowStart, Image.Ok, Image.Across, Image.Down, Image.BlocksDown,
           Image.BlocksAcross, Image.McusDown, Image.McusAcross, SourceOk, ArraysFor, Mixed, McuSize, Membership;
      MCU_buffer, ps := [], [];
      ListedNothing(img, cur_comp_info, whole_image, input_iMCU_row, yoffset, MCU_col_num);
      for ci := 0 to |g.comps|
        invariant AllIn(whole_image, ps) && MCU_buffer == Pointers(whole_image, ps)
        invariant Listed(img, cur_comp_info, whole_image, input_iMCU_row, yoffset, MCU_col_num, ps, ci, 0)
      {
        var compptr := g.comps[ci];
        FirstOfComp(compptr.mcuWidth);
        for yindex := 0 to compptr.mcuHeight
          invariant AllIn(whole_image, ps) && MCU_buffer == Pointers(whole_image, ps)
          invariant Listed(img, cur_comp_info, whole_image, input_iMCU_row, yoffset, MCU_col_num, ps, ci,
            Mixed(yindex, compptr.mcuWidth, 0))
        {
          for xindex := 0 to compptr.mcuWidth
            invariant AllIn(whole_image, ps) && MCU_buffer == Pointers(whole_image, ps)
            invariant Listed(img, cur_comp_info, whole_image, input_iMCU_row, yoffset, MCU_col_num, ps, ci,
              Mixed(yindex, compptr.mcuWidth, xindex))
          {
            ListedOne(img, cur_comp_info, whole_image, input_iMCU_row, yoffset, MCU_col_num, ps, ci, yindex, xindex);
            NextBlock(yindex, compptr.mcuWidth, xindex);
            var p := PosAt(img, compptr.comp, Mixed(input_iMCU_row, img.comps[compptr.comp].vSamp, yindex + yoffset),
              Mixed(MCU_col_num, compptr.mcuWidth, xindex));
            MCU_buffer := MCU_buffer + [whole_image[p.comp][p.idx]];
            PointersSnoc(whole_image, ps, p);
            ps := ps + [p];
          }
          NextRow(yindex, compptr.mcuWidth);
        }
        WholeComp(compptr);
        ListedComp(img, cur_comp_info, whole_image, input_iMCU_row, yoffset, MCU_col_num, ps, ci);
      }
      ListedAll(img, cur_comp_info, whole_image, input_iMCU_row, yoffset, MCU_col_num, ps);
    }

    /** One MCU, decoded into the arrays; when the input runs out, nothing is lost. */
    method ConsumeMcu(yoffset: nat, MCU_col_num: nat) returns (ok: bool)
      requires Going() && AtMcu(img, cur_comp_info, input_iMCU_row, yoffset, MCU_col_num)
      requires |outs| == McusBefore(img, cur_comp_info, input_iMCU_row, yoffset, MCU_col_num)
      modifies this`outs, this`rest, entropy, AllBlocks(whole_image)
      ensures Going() && entropy.arrived == old(entropy.arrived)
      ensures |outs| == old(|outs|) + if ok then 1 else 0
      ensures !ok && entropy.arrived == |entropy.data| ==> Undecodable(img, cur_comp_info, src)
    {
      hide Midway, FrameFor, RowsIn, RowStart, Image.Ok, Image.Across, Image.Down, Image.McusDown, Zigzag, Mixed,
           Membership, McuDecoding.DecodeMcu, TabsOk, Bytes, DecOk, Order, AllIn, McusBefore, GeometryOf, Blocks,
           McuData, Pointers, Contents, AllBlocks, Sized, Fits;
      ghost var n, d, f := |outs|, entropy.State(), Contents(img, whole_image);
      forall p | InArrays(whole_image, p) ensures In(p, f) && At(f, p) == Zigzag(whole_image[p.comp][p.idx][..]) {
        ContentsAt(img, whole_image, p);
      }
      var MCU_buffer, ps := ListBlocks(yoffset, MCU_col_num);
      ContentsAre(img, whole_image, f);
      OrderFacts(img, cur_comp_info, src.start);
      MidwayRest(img, cur_comp_info, src, d, f, outs, rest);
      OncePerMcu(Order(img, cur_comp_info), n);
      PointersFit(img, whole_image, ps);
      forall j | 0 <= j < |ps| ensures |rest[0]| == |ps| && In(ps[j], f) && At(f, ps[j]) == rest[0][j] {
        MidwayBlocks(img, cur_comp_info, src, d, f, outs, rest, j);
      }
      BlocksAre(img, whole_image, ps, rest[0]);
      ghost var o := McuDecoding.DecodeMcu(src.scan, src.data, entropy.arrived, src.tabs, d, rest[0]);
      ok := entropy.DecodeMcu(MCU_buffer);
      ghost var f' := Contents(img, whole_image);
      forall j | 0 <= j < |ps| ensures In(ps[j], f') && At(f', ps[j]) == o.blocks[j] {
        BlocksAt(img, whole_image, ps, j);
      }
      forall p | In(p, f) && In(p, f') && p !in ps ensures At(f', p) == At(f, p) {
        InFrame(img, whole_image, f, p);
        ContentsAt(img, whole_image, p);
      }
      MidwayStep(img, cur_comp_info, src, entropy.arrived, d, f, f', outs, rest);
      if !ok && entropy.arrived == |src.data| { MidwayStuck(img, cur_comp_info, src, d, f, outs, rest); }
      if ok {
        outs, rest := outs + [o.blocks], rest[1..];
      } else {
        rest := [o.blocks] + rest[1..];
      }
    }

    /** consume_data: decodes up to the end of an interleaved MCU row, or until the input runs out. At the
        end of the scan the arrays hold what decoding the complete input without interruption gives. */
    method ConsumeData() returns (r: Consumed)
      requires Valid() && input_iMCU_row < img.McusDown()
      modifies this`outs, this`rest, this`input_iMCU_row, this`MCU_ctr, this`MCU_vert_offset,
        this`MCU_rows_per_iMCU_row, entropy, AllBlocks(whole_image)
      ensures Valid() && entropy.arrived == old(entropy.arrived)
      ensures r.JpegSuspended? ==> input_iMCU_row == old(input_iMCU_row)
      ensures r.JpegSuspended? && entropy.arrived == |entropy.data| ==> Undecodable(img, cur_comp_info, src)
      ensures r.JpegRowCompleted? ==>
        input_iMCU_row == old(input_iMCU_row) + 1 < img.McusDown() && MCU_vert_offset == MCU_ctr == 0
      ensures r.JpegScanCompleted? ==>
        && input_iMCU_row == img.McusDown()
        && DecodeWhole(src.scan, src.data, src.tabs, src.d0, Collect(Order(img, cur_comp_info), src.start)) ==
           Some(ScanOut(entropy.State(), outs))
        && Contents(img, whole_image) == Scatter(Order(img, cur_comp_info), outs, src.start)
    {
      hide Going, FrameFor, SourceOk, RowsIn, RowStart, Image.Ok, Image.Across, Image.Down, Image.McusDown, ArraysFor,
           Zigzag, Mixed, Membership, TabsOk, Bytes, DecOk, Order, McusBefore, GeometryOf, Contents, Midway, Scatter,
           DecodeWhole, Collect;
      ghost var row := input_iMCU_row;
      GoingFacts();
      ScanStart(img, cur_comp_info);
      var yoffset := MCU_vert_offset;
      while yoffset < MCU_rows_per_iMCU_row
        invariant Going() && input_iMCU_row == row && yoffset <= MCU_rows_per_iMCU_row && MCU_ctr < g.mcusPerRow
        invariant entropy.arrived == old(entropy.arrived)
        invariant MCU_rows_per_iMCU_row == RowsIn(img, cur_comp_info, row) && MCU_vert_offset < MCU_rows_per_iMCU_row
        invariant |outs| == McusBefore(img, cur_comp_info, row, yoffset, if yoffset < MCU_rows_per_iMCU_row
          then MCU_ctr else 0)
        invariant yoffset == MCU_rows_per_iMCU_row ==> MCU_ctr == 0
      {
        var MCU_col_num := MCU_ctr;
        while MCU_col_num < g.mcusPerRow
          invariant Going() && input_iMCU_row == row && yoffset < MCU_rows_per_iMCU_row && MCU_col_num <= g.mcusPerRow
          invariant entropy.arrived == old(entropy.arrived)
          invariant MCU_rows_per_iMCU_row == RowsIn(img, cur_comp_info, row)
            && MCU_vert_offset < MCU_rows_per_iMCU_row && MCU_ctr < g.mcusPerRow
          invariant |outs| == McusBefore(img, cur_comp_info, row, yoffset, MCU_col_num)
        {
          GoingFacts();
          var ok := ConsumeMcu(yoffset, MCU_col_num);
          if !ok {
            MCU_vert_offset, MCU_ctr := yoffset, MCU_col_num;
            return JpegSuspended;
          }
          NextMcu(img, cur_comp_info, row, yoffset, MCU_col_num);
          MCU_col_num := MCU_col_num + 1;
        }
        NextMcuRow(img, cur_comp_info, row, yoffset);
        MCU_ctr := 0;
        yoffset := yoffset + 1;
      }
      GoingFacts();
      NextIMcuRow(img, cur_comp_info, row);
      input_iMCU_row := input_iMCU_row + 1;
      if input_iMCU_row < img.McusDown() {
        StartIMcuRow();
        return JpegRowCompleted;
      }
      GoingEnd();
      r := JpegScanCompleted;
    }
  }

  lemma OrderEnd(img: Image, cur: seq<nat>, f: Frame)
    requires ScanReady(img, cur) && FrameFor(img, f)
    ensures McusBefore(img, cur, img.McusDown(), 0, 0) == |Order(img, cur)|
  {
    hide Order, FrameFor, NoBlockTwice, Fits, Image.McusDown;
    OrderFacts(img, cur, f);
    ScanStart(img, cur);
    RowsAddUp(img, cur, 0);
  }

  /** There are MCUs left to decode, of the right size. */
  lemma MidwayRest(img: Image, cur: seq<nat>, src: Source, d: Dec, f: Frame, outs: seq<seq<Block>>,
                   rest: seq<seq<Block>>)
    requires SourceOk(img, cur, src) && Midway(img, cur, src, d, f, outs, rest)
    ensures |outs| < |Order(img, cur)| ==> rest != [] && |rest[0]| == |src.scan.members|
  {
    hide ScanReady, FrameFor, Order, NoBlockTwice, Scatter, DecodeWhole, TabsOk, Bytes, DecOk, Fits;
  }

  lemma OncePerMcu(layout: Layout, n: nat)
    requires NoBlockTwice(layout) && n < |layout|
    ensures forall j, j' :: 0 <= j < |layout[n]| && 0 <= j' < |layout[n]| && layout[n][j] == layout[n][j'] ==> j == j'
  {}

  lemma BlocksAre(img: Image, whole: Arrays, ps: seq<Pos>, bs: seq<Block>)
    requires img.Ok() && ArraysFor(img, whole) && AllIn(whole, ps) && McuData(Pointers(whole, ps)) && |bs| == |ps|
    requires forall j :: 0 <= j < |ps| ==> In(ps[j], Contents(img, whole)) && At(Contents(img, whole), ps[j]) == bs[j]
    ensures Blocks(Pointers(whole, ps)) == bs
  {
    hide Image.Ok, Image.Across, Image.Down, Zigzag, Blocks, Contents;
    forall j | 0 <= j < |ps| ensures Blocks(Pointers(whole, ps))[j] == bs[j] { BlocksAt(img, whole, ps, j); }
  }

  lemma InFrame(img: Image, whole: Arrays, f: Frame, p: Pos)
    requires img.Ok() && ArraysFor(img, whole) && FrameFor(img, f) && In(p, f)
    ensures InArrays(whole, p)
  {
    hide Image.Ok, Image.Across, Image.Down;
  }

  lemma FirstOfComp(w: nat)
    ensures Mixed(0, w, 0) == 0
  {}

  lemma PointersSnoc(whole: Arrays, ps: seq<Pos>, p: Pos)
    requires AllIn(whole, ps) && InArrays(whole, p)
    ensures AllIn(whole, ps + [p]) && Pointers(whole, ps + [p]) == Pointers(whole, ps) + [whole[p.comp][p.idx]]
  {}
}
