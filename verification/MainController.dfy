/** process_data_context_main: every row group of the image is handed on once, in order, with a row group
    of context above and below. */
module MainController {
  import opened McuGeometry
  import opened ContextRows

  // ---- The workspace ----

  /** The image row at which iMCU row k - 1 starts. */
  function Base(M: nat, rg: nat, k: nat): int {
    (k - 1) * M * rg
  }

  lemma BaseFacts(M: nat, rg: nat, k: nat)
    requires k >= 1
    ensures Base(M, rg, 1) == 0 && Base(M, rg, k) >= 0 && Base(M, rg, k + 1) == Base(M, rg, k) + M * rg
    ensures k >= 2 ==> Base(M, rg, k) >= M * rg
  {
    if k >= 2 {
      MulMono(1, k - 1, M);
      MulMono(M, (k - 1) * M, rg);
    }
    assert k * M * rg == ((k - 1) * M + M) * rg;
  }

  lemma BaseGroup(M: nat, rg: nat, k: nat, g: int)
    requires k >= 1
    ensures ((k - 1) * M + g) * rg == Base(M, rg, k) + g * rg && ((k - 1) * M + g - 1) * rg == Base(M, rg, k)
      + g * rg - rg
  {}

  /** After iMCU row k - 1 has been read through list w: the workspace rows, by the image row they hold. */
  ghost predicate Holds(M: nat, rg: nat, k: nat, w: nat, buf: seq<int>)
    requires M >= 2 && rg > 0 && w <= 1 && k >= 1
  {
    && |buf| == (M + 2) * rg
    && (forall s :: 0 <= s < M * rg ==> 0 <= Slot(M, rg, w, s) < |buf| && buf[Slot(M, rg, w, s)] == Base(M, rg, k) + s)
    && (k >= 2 ==> forall s :: M * rg <= s < (M + 2) * rg ==>
          0 <= Slot(M, rg, w, s) < |buf| && buf[Slot(M, rg, w, s)] == Base(M, rg, k) + s - (M + 2) * rg)
  }

  /** decompress_data: one iMCU row, stored where a list says. */
  method ReadRows(M: nat, rg: nat, k: nat, w: nat, buf: seq<int>, list: seq<int>) returns (buffer: seq<int>)
    requires M >= 2 && rg > 0 && w <= 1 && |buf| == (M + 2) * rg && |list| == (M + 4) * rg
    requires Normal(M, rg, w, list, 0, (M + 2) * rg)
    requires k >= 1 ==> Holds(M, rg, k, 1 - w, buf)
    ensures Holds(M, rg, k + 1, w, buffer)
  {
    hide Slot, PhysGroup, Holds;
    ListSizes(M, rg);
    buffer := buf;
    SlotsInside(M, rg, w);
    for j := 0 to M * rg
      invariant |buffer| == |buf| && Stored(M, rg, w, Base(M, rg, k + 1), buf, buffer, j)
    {
      StoreNext(M, rg, w, Base(M, rg, k + 1), buf, buffer, j);
      buffer := buffer[list[j + rg] := Base(M, rg, k + 1) + j];
    }
    ReadHolds(M, rg, k, w, buf, buffer);
  }

  /** The first j rows have been stored, the others are as before. */
  ghost predicate Stored(M: nat, rg: nat, w: nat, base: int, buf: seq<int>, buffer: seq<int>, j: nat)
    requires rg > 0 && |buffer| == |buf|
  {
    forall s :: 0 <= s < (M + 2) * rg ==>
      (0 <= Slot(M, rg, w, s) < |buf| && buffer[Slot(M, rg, w, s)] == if s < j then base + s
        else buf[Slot(M, rg, w, s)])
  }

  lemma SlotsInside(M: nat, rg: nat, w: nat)
    requires M >= 2 && rg > 0 && w <= 1
    ensures forall s :: 0 <= s < (M + 2) * rg ==> 0 <= Slot(M, rg, w, s) < (M + 2) * rg
  {
    ListSizes(M, rg);
    forall s | 0 <= s < (M + 2) * rg ensures 0 <= Slot(M, rg, w, s) < (M + 2) * rg { SlotInside(M, rg, w, s); }
  }

  lemma StoreNext(M: nat, rg: nat, w: nat, base: int, buf: seq<int>, buffer: seq<int>, j: nat)
    requires M >= 2 && rg > 0 && w <= 1 && j < M * rg && |buffer| == |buf| == (M + 2) * rg
      && Stored(M, rg, w, base, buf, buffer, j)
    ensures 0 <= Slot(M, rg, w, j) < |buf| && Stored(M, rg, w, base, buf, buffer[Slot(M, rg, w, j) := base + j], j + 1)
  {
    hide Slot, PhysGroup;
    ListSizes(M, rg);
    SlotInside(M, rg, w, j);
    var next := buffer[Slot(M, rg, w, j) := base + j];
    forall s | 0 <= s < (M + 2) * rg
      ensures 0 <= Slot(M, rg, w, s) < |buf| && next[Slot(M, rg, w, s)] == if s < j + 1 then base + s
        else buf[Slot(M, rg, w, s)]
    {
      SlotInside(M, rg, w, s);
      if Slot(M, rg, w, s) == Slot(M, rg, w, j) { SlotOnce(M, rg, w, s, j); }
    }
  }

  lemma ReadHolds(M: nat, rg: nat, k: nat, w: nat, buf: seq<int>, buffer: seq<int>)
    requires M >= 2 && rg > 0 && w <= 1 && |buffer| == |buf| == (M + 2) * rg
      && Stored(M, rg, w, Base(M, rg, k + 1), buf, buffer, M * rg)
    requires k >= 1 ==> Holds(M, rg, k, 1 - w, buf)
    ensures Holds(M, rg, k + 1, w, buffer)
  {
    hide Slot, PhysGroup, Base;
    ListSizes(M, rg);
    if k >= 1 {
      BaseFacts(M, rg, k);
      forall s | M * rg <= s < (M + 2) * rg
        ensures 0 <= Slot(M, rg, w, s) < |buffer| && buffer[Slot(M, rg, w, s)] == Base(M, rg, k + 1) + s - (M + 2) * rg
      {
        SlotSwapped(M, rg, 1 - w, s - M * rg);
        assert 0 <= Slot(M, rg, 1 - w, s - 2 * rg) < |buf|;
      }
    }
  }

  // ---- What the postprocessor sees ----

  /** The rows of a row group with a row group above and below, by the image row they hold. */
  ghost function View(rg: nat, buf: seq<int>, list: seq<int>, from: nat): (v: seq<int>)
    requires Visible(rg, buf, list, from)
    ensures |v| == 3 * rg
  {
    seq(3 * rg, i requires 0 <= i < 3 * rg && 0 <= list[from + i] < |buf| => buf[list[from + i]])
  }

  ghost predicate Visible(rg: nat, buf: seq<int>, list: seq<int>, from: nat) {
    from + 3 * rg <= |list| && forall j :: from <= j < from + 3 * rg ==> 0 <= list[j] < |buf|
  }

  /** The row that belongs at place i of the view of row group G; the last iMCU row starts at row group `last`.
      Rows below the image repeat its last row, except that the last row group before the last iMCU row is
      handed on before the padding rows of that iMCU row are hidden. */
  function RowFor(c: Comp, last: nat, G: nat, i: nat): int {
    var row := (G - 1) * c.rgroup + i;
    if row < c.height || G >= last then Clamp(row, c.height) else row
  }

  /** The views of all components when row group G is handed on. */
  ghost predicate GroupOk(comps: seq<Comp>, last: nat, G: nat, views: seq<seq<int>>) {
    |views| == |comps| && forall c :: 0 <= c < |comps| ==> ViewOk(comps[c], last, G, views[c])
  }

  ghost predicate ViewOk(c: Comp, last: nat, G: nat, v: seq<int>) {
    |v| == 3 * c.rgroup && forall i :: 0 <= i < |v| ==> v[i] == RowFor(c, last, G, i)
  }

  /** What slot s of the list in use shows. */
  lemma SeenAt(M: nat, rg: nat, k: nat, w: nat, buf: seq<int>, s: int)
    requires M >= 2 && rg > 0 && w <= 1 && k >= 1 && Holds(M, rg, k, w, buf) && 0 - rg <= s < (M + 3) * rg
    requires s < 0 || s >= M * rg ==> k >= 2
    ensures 0 <= Slot(M, rg, w, s) < |buf|
    ensures buf[Slot(M, rg, w, s)] == Base(M, rg, k) + if s < M * rg then s else s - (M + 2) * rg
  {
    hide Slot, PhysGroup, Base;
    ListSizes(M, rg);
    if s < 0 {
      SlotAround(M, rg, w, s + rg);
    } else if s >= (M + 2) * rg {
      SlotAround(M, rg, w, s - (M + 2) * rg);
    }
  }

  ghost predicate CompOk(M: nat, total: nat, groups: nat, c: Comp) {
    && c.rgroup > 0 && total >= 1 && Base(M, c.rgroup, total) < c.height <= Base(M, c.rgroup, total + 1)
    && (groups - 1) * c.rgroup < c.height <= groups * c.rgroup
  }

  /** The list in use while iMCU row k - 1 is fed, before the bottom of the image is prepared. */
  ghost predicate ListFor(M: nat, rg: nat, k: nat, w: nat, list: seq<int>)
    requires M >= 2 && rg > 0 && k >= 1
  {
    && |list| == (M + 4) * rg && (M + 4) * rg == (M + 2) * rg + 2 * rg && (M + 3) * rg == (M + 2) * rg + rg
    && if k == 1 then w == 0 && Normal(M, rg, w, list, 0, (M + 2) * rg) && forall j :: 0 <= j < rg ==> list[j] == 0
       else Normal(M, rg, w, list, 0 - rg, (M + 3) * rg)
  }

  /** Entry e of that list, for the row groups of the iMCU row and their context. */
  lemma EntryShows(M: nat, rg: nat, k: nat, w: nat, buf: seq<int>, list: seq<int>, e: nat)
    requires M >= 2 && rg > 0 && w <= 1 && k >= 1 && Holds(M, rg, k, w, buf) && ListFor(M, rg, k, w, list)
      && e < M * rg + rg
    ensures 0 <= list[e] < |buf|
    ensures buf[list[e]] == if k == 1 && e < rg then 0 else Base(M, rg, k) + e - rg
  {
    hide Slot, PhysGroup, Base;
    BaseFacts(M, rg, k);
    ListSizes(M, rg);
    if k == 1 && e < rg {
      SlotOf(M, rg, 0, 0, 0);
      SlotZero(M, rg);
      assert buf[Slot(M, rg, w, 0)] == 0;
    } else {
      SeenAt(M, rg, k, w, buf, e - rg);
    }
  }

  lemma SlotZero(M: nat, rg: nat)
    requires M >= 2 && rg > 0
    ensures Slot(M, rg, 0, 0) == 0
  {}

  /** A row group of an iMCU row that is not the last one. */
  lemma ViewMiddle(M: nat, total: nat, groups: nat, c: Comp, k: nat, w: nat, buf: seq<int>, list: seq<int>, g: nat,
                   from: nat)
    requires M >= 2 && CompOk(M, total, groups, c) && w <= 1 && 1 <= k < total && g + 1 < M && from == g * c.rgroup
    requires Holds(M, c.rgroup, k, w, buf) && ListFor(M, c.rgroup, k, w, list)
    ensures Visible(c.rgroup, buf, list, from)
      && ViewOk(c, (total - 1) * M, (k - 1) * M + g, View(c.rgroup, buf, list, from))
  {
    hide Slot, PhysGroup, Holds, ListFor, Base, RowFor;
    var rg := c.rgroup;
    ListLong(M, rg, k, w, list);
    Inner(M, rg, g);
    forall j | from <= j < from + 3 * rg ensures 0 <= list[j] < |buf| { EntryShows(M, rg, k, w, buf, list, j); }
    var v := View(rg, buf, list, from);
    forall i | 0 <= i < 3 * rg ensures v[i] == RowFor(c, (total - 1) * M, (k - 1) * M + g, i) {
      EntryShows(M, rg, k, w, buf, list, from + i);
      MiddleShown(M, total, groups, c, k, g, from, i);
    }
  }

  lemma MiddleShown(M: nat, total: nat, groups: nat, c: Comp, k: nat, g: nat, from: nat, i: nat)
    requires M >= 2 && CompOk(M, total, groups, c) && 1 <= k < total && g + 1 < M && from == g * c.rgroup
      && i < 3 * c.rgroup
    ensures RowFor(c, (total - 1) * M, (k - 1) * M + g, i) ==
      if k == 1 && from + i < c.rgroup then 0 else Base(M, c.rgroup, k) + from + i - c.rgroup
  {
    hide Base, RowFor;
    Inner(M, c.rgroup, g);
    BaseGroup(M, c.rgroup, k, g);
    AboveBottom(M, total, c, k);
    MiddleRow(c, (total - 1) * M, (k - 1) * M + g, i, Base(M, c.rgroup, k) + from + i - c.rgroup);
  }

  lemma MiddleRow(c: Comp, last: nat, G: nat, i: nat, row: int)
    requires row == (G - 1) * c.rgroup + i && row < c.height
    ensures RowFor(c, last, G, i) == if row < 0 then 0 else row
  {}

  lemma Inner(M: nat, rg: nat, g: nat)
    requires g + 1 < M
    ensures g * rg >= 0 && g * rg + 2 * rg <= M * rg
  {
    MulMono(g + 2, M, rg);
    assert (g + 2) * rg == g * rg + 2 * rg;
  }

  lemma ListLong(M: nat, rg: nat, k: nat, w: nat, list: seq<int>)
    requires M >= 2 && rg > 0 && k >= 1 && ListFor(M, rg, k, w, list)
    ensures |list| == M * rg + 4 * rg
  {
    ListSizes(M, rg);
  }

  /** The rows of earlier iMCU rows are all real; only the first iMCU row has none before it. */
  lemma AboveBottom(M: nat, total: nat, c: Comp, k: nat)
    requires 1 <= k < total && Base(M, c.rgroup, total) < c.height
    ensures Base(M, c.rgroup, k) + M * c.rgroup < c.height && Base(M, c.rgroup, k) >= 0
    ensures k >= 2 ==> Base(M, c.rgroup, k) >= M * c.rgroup
    ensures Base(M, c.rgroup, 1) == 0
  {
    BaseFacts(M, c.rgroup, k);
    MulMono(k, total - 1, M);
    MulMono(k * M, (total - 1) * M, c.rgroup);
  }

  /** The list after set_bottom_pointers. */
  ghost predicate Bottomed(rg: nat, was: seq<int>, list: seq<int>, rows_left: nat) {
    && |list| == |was| && 1 <= rows_left && rows_left + 3 * rg <= |was|
    && forall j :: 0 <= j < |list| ==> list[j] == if rows_left + rg <= j < rows_left + 3 * rg
       then was[rows_left - 1 + rg] else was[j]
  }

  /** The number of row groups of the last iMCU row. */
  function LastGroups(M: nat, total: nat, groups: nat): int {
    groups - (total - 1) * M
  }

  lemma RowsLeft(M: nat, total: nat, groups: nat, c: Comp)
    requires M >= 2 && CompOk(M, total, groups, c)
    ensures var left := c.height - Base(M, c.rgroup, total);
      1 <= left <= M * c.rgroup
        && (LastGroups(M, total, groups) - 1) * c.rgroup < left <= LastGroups(M, total, groups) * c.rgroup
    ensures 1 <= LastGroups(M, total, groups) <= M
  {
    var rg := c.rgroup;
    BaseFacts(M, rg, total);
    var n := LastGroups(M, total, groups);
    BaseGroup(M, rg, total, n);
    if n <= 0 { MulMono(n, 0, rg); }
    if n > M { MulMono(M, n - 1, rg); }
  }

  /** A row group of the last iMCU row, with the last real row in place of the rows below the image. */
  lemma ViewLast(M: nat, groups: nat, c: Comp, k: nat, w: nat, buf: seq<int>, was: seq<int>, list: seq<int>, g: nat,
                 from: nat, left: nat)
    requires M >= 2 && k >= 1 && CompOk(M, k, groups, c) && w <= 1 && g < LastGroups(M, k, groups)
      && from == g * c.rgroup
    requires Holds(M, c.rgroup, k, w, buf) && ListFor(M, c.rgroup, k, w, was)
    requires left == c.height - Base(M, c.rgroup, k) && Bottomed(c.rgroup, was, list, left)
    ensures Visible(c.rgroup, buf, list, from)
      && ViewOk(c, (k - 1) * M, (k - 1) * M + g, View(c.rgroup, buf, list, from))
  {
    hide Slot, PhysGroup, Holds, ListFor, Base, LastGroups, CompOk, RowFor, ShownLast;
    var rg := c.rgroup;
    LastGroupFits(M, groups, c, k, g);
    ListLong(M, rg, k, w, was);
    forall j | from <= j < from + 3 * rg ensures 0 <= list[j] < |buf|
      && buf[list[j]] == ShownLast(Base(M, rg, k), left, j - rg, k == 1) {
      LastEntryShows(M, rg, k, w, buf, was, list, left, j);
    }
    var v := View(rg, buf, list, from);
    forall i | 0 <= i < 3 * rg ensures v[i] == RowFor(c, (k - 1) * M, (k - 1) * M + g, i) {
      assert v[i] == ShownLast(Base(M, rg, k), left, from + i - rg, k == 1);
      LastRow(M, c, k, g, i, from, left);
    }
  }

  lemma LastEntryShows(M: nat, rg: nat, k: nat, w: nat, buf: seq<int>, was: seq<int>, list: seq<int>, left: nat, j: nat)
    requires M >= 2 && rg > 0 && w <= 1 && k >= 1 && Holds(M, rg, k, w, buf) && ListFor(M, rg, k, w, was)
    requires 1 <= left <= M * rg && Bottomed(rg, was, list, left) && j < left + 3 * rg
    ensures 0 <= list[j] < |buf| && buf[list[j]] == ShownLast(Base(M, rg, k), left, j - rg, k == 1)
  {
    hide Slot, PhysGroup, Holds, ListFor, Base;
    ListLong(M, rg, k, w, was);
    BaseFacts(M, rg, k);
    EntryShows(M, rg, k, w, buf, was, if j < left + rg then j else left - 1 + rg);
  }

  lemma LastRow(M: nat, c: Comp, k: nat, g: nat, i: nat, from: nat, left: nat)
    requires M >= 1 && k >= 1 && from == g * c.rgroup && left == c.height - Base(M, c.rgroup, k) && left >= 1
    ensures RowFor(c, (k - 1) * M, (k - 1) * M + g, i) == ShownLast(Base(M, c.rgroup, k), left, from + i - c.rgroup,
      k == 1)
  {
    hide Base;
    BaseGroup(M, c.rgroup, k, g);
    BaseFacts(M, c.rgroup, k);
    MulMono(1, M, c.rgroup);
  }

  /** What slot s of the last iMCU row shows. */
  function ShownLast(base: int, left: nat, s: int, first: bool): int {
    if first && s < 0 then 0 else if s < left then base + s else base + left - 1
  }

  lemma LastGroupFits(M: nat, groups: nat, c: Comp, k: nat, g: nat)
    requires M >= 2 && k >= 1 && CompOk(M, k, groups, c) && g < LastGroups(M, k, groups)
    ensures c.rgroup > 0 && 0 <= g * c.rgroup < c.height - Base(M, c.rgroup, k) <= M * c.rgroup
  {
    hide Base;
    RowsLeft(M, k, groups, c);
    MulMono(g, LastGroups(M, k, groups) - 1, c.rgroup);
  }

  /** The postponed last row group of an iMCU row, after the next one has been read. */
  lemma ViewPostponed(M: nat, total: nat, groups: nat, c: Comp, k: nat, w: nat, buf: seq<int>, list: seq<int>,
                      from: nat)
    requires M >= 2 && CompOk(M, total, groups, c) && w <= 1 && 2 <= k <= total && from == (M + 1) * c.rgroup
    requires Holds(M, c.rgroup, k, w, buf) && ListFor(M, c.rgroup, k, w, list)
    ensures (k - 1) * M - 1 >= 0 && Visible(c.rgroup, buf, list, from)
    ensures ViewOk(c, (total - 1) * M, (k - 1) * M - 1, View(c.rgroup, buf, list, from))
  {
    hide Slot, PhysGroup, Holds, Base;
    var rg := c.rgroup;
    ListSizes(M, rg);
    ListLong(M, rg, k, w, list);
    BaseGroup(M, rg, k, -1);
    BaseFacts(M, rg, k);
    MulMono(1, k - 1, M);
    MulMono(k - 1, total - 1, M);
    forall j | from <= j < from + 3 * rg ensures 0 <= list[j] < |buf|
      && buf[list[j]] == Base(M, rg, k) + j - from - 2 * rg {
      SeenAt(M, rg, k, w, buf, j - rg);
    }
    var v := View(rg, buf, list, from);
    forall i | 0 <= i < 3 * rg ensures v[i] == RowFor(c, (total - 1) * M, (k - 1) * M - 1, i) {
      assert v[i] == Base(M, rg, k) + i - 2 * rg;
    }
  }

  // ---- The controller ----

  /** CTX_PREPARE_FOR_IMCU, CTX_PROCESS_IMCU and CTX_POSTPONED_ROW */
  datatype ContextState = PrepareForImcu | ProcessImcu | PostponedRow

  /** The lists of one component, in the state of the top of the image or in the normal state. */
  ghost predicate Lists(M: nat, rg: nat, wrapped: bool, l0: seq<int>, l1: seq<int>)
    requires M >= 2 && rg > 0
  {
    && |l0| == |l1| == (M + 4) * rg && (M + 4) * rg == (M + 2) * rg + 2 * rg && (M + 3) * rg == (M + 2) * rg + rg
    && Normal(M, rg, 0, l0, 0, (M + 2) * rg) && Normal(M, rg, 1, l1, 0, (M + 2) * rg)
    && if wrapped then Normal(M, rg, 0, l0, 0 - rg, (M + 3) * rg) && Normal(M, rg, 1, l1, 0 - rg, (M + 3) * rg)
       else forall j :: 0 <= j < rg ==> l0[j] == 0
  }

  /** The list in use of one component, with its last real row repeated. */
  ghost predicate CompAtBottom(M: nat, total: nat, w: nat, c: Comp, was: seq<int>, list: seq<int>)
    requires M >= 2 && c.rgroup > 0 && total >= 1
  {
    && ListFor(M, c.rgroup, total, w, was) && c.height >= Base(M, c.rgroup, total)
    && Bottomed(c.rgroup, was, list, c.height - Base(M, c.rgroup, total))
  }

  /** set_bottom_pointers for one component; the count of row groups comes out the same for each of them. */
  method BottomComp(M: nat, total: nat, ghost groups: nat, compptr: Comp, ghost w: nat, list: seq<int>)
    returns (xbuf: seq<int>, avail: nat)
    requires M >= 2 && total >= 1 && CompOk(M, total, groups, compptr) && ListFor(M, compptr.rgroup, total, w, list)
    ensures CompAtBottom(M, total, w, compptr, list, xbuf) && avail == LastGroups(M, total, groups)
  {
    hide CompOk, Base, Normal, LastGroups;
    BottomRows(M, total, groups, compptr);
    var rgroup := compptr.rgroup;
    var iMCUheight := M * rgroup;
    var rows_left := compptr.height % iMCUheight;
    if rows_left == 0 {
      rows_left := iMCUheight;
    }
    avail := (rows_left - 1) / rgroup + 1;
    ListSizes(M, rgroup);
    ListLong(M, rgroup, total, w, list);
    xbuf := SetBottom(M, rgroup, list, rows_left);
  }

  lemma ListInUse(M: nat, rg: nat, k: nat, w: nat, l0: seq<int>, l1: seq<int>)
    requires M >= 2 && rg > 0 && k >= 1 && Lists(M, rg, k >= 2, l0, l1) && w <= 1 && (k == 1 ==> w == 0)
    ensures ListFor(M, rg, k, w, if w == 0 then l0 else l1)
  {}

  // ---- All components ----

  predicate Rgroups(comps: seq<Comp>) {
    forall c :: 0 <= c < |comps| ==> comps[c].rgroup > 0
  }

  /** The components of one image: their row groups come to the same number. */
  ghost predicate Fixed(M: nat, total: nat, groups: nat, comps: seq<Comp>) {
    && M >= 2 && total >= 1 && comps != [] && Rgroups(comps)
    && forall c :: 0 <= c < |comps| ==> CompOk(M, total, groups, comps[c])
  }

  ghost predicate Sizes(M: nat, comps: seq<Comp>, bufs: seq<seq<int>>, x0: seq<seq<int>>, x1: seq<seq<int>>) {
    && |bufs| == |x0| == |x1| == |comps|
    && (forall c :: 0 <= c < |comps| ==> |bufs[c]| == (M + 2) * comps[c].rgroup)
    && (forall c :: 0 <= c < |comps| ==> |x0[c]| == |x1[c]| == (M + 4) * comps[c].rgroup)
  }

  ghost predicate AllLists(M: nat, comps: seq<Comp>, wrapped: bool, x0: seq<seq<int>>, x1: seq<seq<int>>)
    requires M >= 2 && Rgroups(comps)
  {
    |x0| == |x1| == |comps| && forall c :: 0 <= c < |comps| ==> Lists(M, comps[c].rgroup, wrapped, x0[c], x1[c])
  }

  ghost predicate AllHold(M: nat, comps: seq<Comp>, k: nat, w: nat, bufs: seq<seq<int>>)
    requires M >= 2 && Rgroups(comps) && k >= 1 && w <= 1
  {
    |bufs| == |comps| && forall c :: 0 <= c < |comps| ==> Holds(M, comps[c].rgroup, k, w, bufs[c])
  }

  /** The lists in use show the last iMCU row with its last real row repeated below. */
  ghost predicate AllAtBottom(M: nat, total: nat, w: nat, comps: seq<Comp>, was: seq<seq<int>>, lists: seq<seq<int>>)
    requires M >= 2 && Rgroups(comps) && total >= 1
  {
    |was| == |lists| == |comps| && forall c :: 0 <= c < |comps| ==>
      CompAtBottom(M, total, w, comps[c], was[c], lists[c])
  }

  /** Row groups 0, 1, 2 and so on have been handed on, each once, with their proper context. */
  ghost predicate AllFed(comps: seq<Comp>, last: nat, fed: seq<seq<seq<int>>>) {
    forall G :: 0 <= G < |fed| ==> GroupOk(comps, last, G, fed[G])
  }

  /** Row group G, which starts at group g of the lists, is due with its context. */
  ghost predicate AllDue(comps: seq<Comp>, last: nat, G: nat, bufs: seq<seq<int>>, lists: seq<seq<int>>, g: nat) {
    && |bufs| == |lists| == |comps|
    && forall c :: 0 <= c < |comps| ==> CompDue(comps[c], last, G, bufs[c], lists[c], g * comps[c].rgroup)
  }

  lemma DueAbove(M: nat, total: nat, groups: nat, comps: seq<Comp>, k: nat, w: nat, bufs: seq<seq<int>>,
                 x0: seq<seq<int>>, x1: seq<seq<int>>, g: nat)
    requires Fixed(M, total, groups, comps) && w <= 1 && 1 <= k < total && (k == 1 ==> w == 0) && g + 1 < M
    requires AllHold(M, comps, k, w, bufs) && AllLists(M, comps, k >= 2, x0, x1)
    ensures AllDue(comps, (total - 1) * M, (k - 1) * M + g, bufs, if w == 0 then x0 else x1, g)
  {
    hide CompOk, Lists, Holds, CompDue;
    var lists := if w == 0 then x0 else x1;
    forall c | 0 <= c < |comps|
      ensures CompDue(comps[c], (total - 1) * M, (k - 1) * M + g, bufs[c], lists[c], g * comps[c].rgroup)
    {
      MiddleDue(M, total, groups, comps[c], k, w, bufs[c], x0[c], x1[c], g);
    }
  }

  lemma DueAtBottom(M: nat, total: nat, groups: nat, comps: seq<Comp>, w: nat, bufs: seq<seq<int>>,
                    was: seq<seq<int>>, lists: seq<seq<int>>, g: nat)
    requires Fixed(M, total, groups, comps) && w <= 1 && g < LastGroups(M, total, groups)
    requires AllHold(M, comps, total, w, bufs) && AllAtBottom(M, total, w, comps, was, lists)
    ensures AllDue(comps, (total - 1) * M, (total - 1) * M + g, bufs, lists, g)
  {
    hide CompOk, Holds, CompDue, LastGroups, CompAtBottom;
    forall c | 0 <= c < |comps|
      ensures CompDue(comps[c], (total - 1) * M, (total - 1) * M + g, bufs[c], lists[c], g * comps[c].rgroup)
    {
      LastDue(M, groups, comps[c], total, w, bufs[c], was[c], lists[c], g);
    }
  }

  /** The row group that was postponed is due once the next iMCU row has been read. */
  lemma DuePostponed(M: nat, total: nat, groups: nat, comps: seq<Comp>, k: nat, w: nat, bufs: seq<seq<int>>,
                     x0: seq<seq<int>>, x1: seq<seq<int>>)
    requires Fixed(M, total, groups, comps) && w <= 1 && 2 <= k <= total
    requires AllHold(M, comps, k, w, bufs) && AllLists(M, comps, true, x0, x1)
    ensures (k - 1) * M >= 1 && AllDue(comps, (total - 1) * M, (k - 1) * M - 1, bufs, if w == 0 then x0 else x1, M + 1)
  {
    hide CompOk, Lists, Holds, CompDue;
    var lists := if w == 0 then x0 else x1;
    MulMono(1, k - 1, M);
    forall c | 0 <= c < |comps|
      ensures CompDue(comps[c], (total - 1) * M, (k - 1) * M - 1, bufs[c], lists[c], (M + 1) * comps[c].rgroup)
    {
      GroupPostponed(M, total, groups, comps[c], k, w, bufs[c], x0[c], x1[c]);
    }
  }

  /** What the postprocessor is handed. */
  ghost function Views(comps: seq<Comp>, bufs: seq<seq<int>>, lists: seq<seq<int>>, g: nat): (v: seq<seq<int>>)
    requires |bufs| == |lists| == |comps|
    requires forall c :: 0 <= c < |comps| ==> Visible(comps[c].rgroup, bufs[c], lists[c], g * comps[c].rgroup)
  {
    seq(|comps|, c requires 0 <= c < |comps| => View(comps[c].rgroup, bufs[c], lists[c], g * comps[c].rgroup))
  }

  lemma FedNext(comps: seq<Comp>, last: nat, fed: seq<seq<seq<int>>>, bufs: seq<seq<int>>, lists: seq<seq<int>>, g: nat)
    requires AllFed(comps, last, fed) && AllDue(comps, last, |fed|, bufs, lists, g)
    ensures forall c :: 0 <= c < |comps| ==> Visible(comps[c].rgroup, bufs[c], lists[c], g * comps[c].rgroup)
    ensures AllFed(comps, last, fed + [Views(comps, bufs, lists, g)])
  {
    hide Visible, View, ViewOk;
    forall c | 0 <= c < |comps| ensures Visible(comps[c].rgroup, bufs[c], lists[c], g * comps[c].rgroup) {
      assert CompDue(comps[c], last, |fed|, bufs[c], lists[c], g * comps[c].rgroup);
    }
    var v := Views(comps, bufs, lists, g);
    forall c | 0 <= c < |comps| ensures ViewOk(comps[c], last, |fed|, v[c]) {
      assert CompDue(comps[c], last, |fed|, bufs[c], lists[c], g * comps[c].rgroup);
    }
    assert GroupOk(comps, last, |fed|, v);
  }

  class ContextController {
    const M: nat
    const total: nat
    const groups: nat
    const comps: seq<Comp>
    var buffer: seq<seq<int>>
    var xbuffer0: seq<seq<int>>
    var xbuffer1: seq<seq<int>>
    var buffer_full: bool
    var rowgroup_ctr: nat
    var rowgroups_avail: nat
    var whichptr: nat
    var context_state: ContextState
    var iMCU_row_ctr: nat
    // the views handed on so far, and the list in use as it was before the bottom was prepared
    ghost var fed: seq<seq<seq<int>>>
    ghost var was: seq<seq<int>>

    function Xbuffer(): seq<seq<int>>
      reads this
    {
      if whichptr == 0 then xbuffer0 else xbuffer1
    }

    ghost predicate Basics()
      reads this
    {
      && Fixed(M, total, groups, comps) && Sizes(M, comps, buffer, xbuffer0, xbuffer1) && whichptr <= 1
      && AllFed(comps, (total - 1) * M, fed) && iMCU_row_ctr <= total
    }

    /** An iMCU row has been read; its row groups are about to be processed. */
    ghost predicate AtPrepare()
      reads this
    {
      && Basics() && buffer_full && iMCU_row_ctr >= 1 && whichptr == (iMCU_row_ctr - 1) % 2
      && AllLists(M, comps, iMCU_row_ctr >= 2, xbuffer0, xbuffer1) && AllHold(M, comps, iMCU_row_ctr, whichptr, buffer)
      && |fed| == (iMCU_row_ctr - 1) * M
    }

    /** All but the last row group of an iMCU row are being processed, or what there is of the last one. */
    ghost predicate AtProcess()
      reads this
    {
      && Basics() && buffer_full && iMCU_row_ctr >= 1 && whichptr == (iMCU_row_ctr - 1) % 2
      && AllHold(M, comps, iMCU_row_ctr, whichptr, buffer)
      && (iMCU_row_ctr < total ==>
         AllLists(M, comps, iMCU_row_ctr >= 2, xbuffer0, xbuffer1) && rowgroups_avail == M - 1)
      && (iMCU_row_ctr == total ==>
            AllAtBottom(M, total, whichptr, comps, was, Xbuffer()) && rowgroups_avail == LastGroups(M, total, groups))
      && rowgroup_ctr <= rowgroups_avail && |fed| == (iMCU_row_ctr - 1) * M + rowgroup_ctr
    }

    /** An iMCU row has been processed but for its last row group, and the next one has not been read. */
    ghost predicate AtRead()
      reads this
    {
      && Basics() && !buffer_full && iMCU_row_ctr >= 1 && whichptr == iMCU_row_ctr % 2
      && rowgroup_ctr == M + 1 && rowgroups_avail == M + 2
      && if iMCU_row_ctr < total then
           && AllLists(M, comps, true, xbuffer0, xbuffer1) && AllHold(M, comps, iMCU_row_ctr, 1 - whichptr, buffer)
           && |fed| == iMCU_row_ctr * M - 1
         else |fed| == groups
    }

    /** The next iMCU row has been read, and the postponed row group is next. */
    ghost predicate AtPostponed()
      reads this
    {
      && Basics() && buffer_full && iMCU_row_ctr >= 2 && whichptr == (iMCU_row_ctr - 1) % 2
      && rowgroup_ctr == M + 1 && rowgroups_avail == M + 2
      && AllLists(M, comps, true, xbuffer0, xbuffer1) && AllHold(M, comps, iMCU_row_ctr, whichptr, buffer)
      && |fed| == (iMCU_row_ctr - 1) * M - 1
    }

    ghost predicate AtStart()
      reads this
    {
      && Basics() && !buffer_full && iMCU_row_ctr == 0 && whichptr == 0
      && AllLists(M, comps, false, xbuffer0, xbuffer1) && fed == []
    }

    /** The state between two calls. */
    ghost predicate Valid()
      reads this
    {
      match context_state
      case PrepareForImcu => if buffer_full then AtPrepare() else AtStart()
      case ProcessImcu => AtProcess() && rowgroup_ctr < rowgroups_avail
      case PostponedRow => if buffer_full then AtPostponed() else AtRead()
    }

    /** Nothing is left to read or to hand on. */
    predicate Finished()
      reads this
    {
      iMCU_row_ctr == total && !buffer_full
    }

    /** jinit_d_main_controller and start_pass_main. */
    constructor (M: nat, total: nat, groups: nat, comps: seq<Comp>)
      requires Fixed(M, total, groups, comps)
      ensures Valid() && !Finished() && fed == []
      ensures this.M == M && this.total == total && this.groups == groups && this.comps == comps
    {
      hide Normal, CompOk, Lists;
      this.M, this.total, this.groups, this.comps := M, total, groups, comps;
      buffer, xbuffer0, xbuffer1 := [], [], [];
      buffer_full, rowgroup_ctr, rowgroups_avail, whichptr := false, 0, 0, 0;
      context_state, iMCU_row_ctr := PrepareForImcu, 0;
      fed, was := [], [];
      new;
      for ci := 0 to |comps|
        invariant |buffer| == |xbuffer0| == |xbuffer1| == ci && fed == [] && whichptr == 0 && !buffer_full
        invariant context_state == PrepareForImcu && iMCU_row_ctr == 0
        invariant forall c :: 0 <= c < ci ==> |buffer[c]| == (M + 2) * comps[c].rgroup
        invariant forall c :: 0 <= c < ci ==> |xbuffer0[c]| == |xbuffer1[c]| == (M + 4) * comps[c].rgroup
        invariant forall c :: 0 <= c < ci ==> Lists(M, comps[c].rgroup, false, xbuffer0[c], xbuffer1[c])
      {
        var xbuf0, xbuf1 := MakeLists(M, comps[ci].rgroup);
        TopLists(M, comps[ci].rgroup, xbuf0, xbuf1);
        buffer := buffer + [seq((M + 2) * comps[ci].rgroup, _ => 0)];
        xbuffer0, xbuffer1 := xbuffer0 + [xbuf0], xbuffer1 + [xbuf1];
      }
    }

    /** decompress_data into the list in use. */
    method ReadIMcuRow()
      requires Fixed(M, total, groups, comps) && Sizes(M, comps, buffer, xbuffer0, xbuffer1) && whichptr <= 1
      requires iMCU_row_ctr >= 1 ==> AllHold(M, comps, iMCU_row_ctr, 1 - whichptr, buffer)
      requires AllLists(M, comps, iMCU_row_ctr >= 1, xbuffer0, xbuffer1)
      modifies this`buffer
      ensures Sizes(M, comps, buffer, xbuffer0, xbuffer1) && AllHold(M, comps, iMCU_row_ctr + 1, whichptr, buffer)
    {
      hide Lists, Holds, CompOk;
      ghost var k := iMCU_row_ctr;
      for ci := 0 to |comps|
        invariant Sizes(M, comps, buffer, xbuffer0, xbuffer1)
        invariant forall c :: 0 <= c < ci ==> Holds(M, comps[c].rgroup, k + 1, whichptr, buffer[c])
        invariant k >= 1 ==> forall c :: ci <= c < |comps| ==> Holds(M, comps[c].rgroup, k, 1 - whichptr, buffer[c])
      {
        var rg := comps[ci].rgroup;
        ListSizes(M, rg);
        InUse(M, rg, k >= 1, whichptr, xbuffer0[ci], xbuffer1[ci]);
        var rows := ReadRows(M, rg, iMCU_row_ctr, whichptr, buffer[ci], Xbuffer()[ci]);
        HoldsSize(M, rg, k + 1, whichptr, rows);
        buffer := buffer[ci := rows];
      }
    }

    /** set_bottom_pointers */
    method SetBottomPointers()
      requires Fixed(M, total, groups, comps) && Sizes(M, comps, buffer, xbuffer0, xbuffer1)
      requires whichptr == (total - 1) % 2 && AllLists(M, comps, total >= 2, xbuffer0, xbuffer1)
      modifies this`xbuffer0, this`xbuffer1, this`rowgroups_avail, this`was
      ensures Sizes(M, comps, buffer, xbuffer0, xbuffer1) && rowgroups_avail == LastGroups(M, total, groups)
      ensures AllAtBottom(M, total, whichptr, comps, was, Xbuffer())
    {
      hide CompOk, Lists, ListFor, CompAtBottom, LastGroups;
      was := Xbuffer();
      for ci := 0 to |comps|
        invariant Sizes(M, comps, buffer, xbuffer0, xbuffer1) && |was| == |comps|
        invariant forall c :: 0 <= c < ci ==> CompAtBottom(M, total, whichptr, comps[c], was[c], Xbuffer()[c])
        invariant forall c :: ci <= c < |comps| ==>
          Lists(M, comps[c].rgroup, total >= 2, xbuffer0[c], xbuffer1[c]) && Xbuffer()[c] == was[c]
        invariant ci > 0 ==> rowgroups_avail == LastGroups(M, total, groups)
      {
        ListInUse(M, comps[ci].rgroup, total, whichptr, xbuffer0[ci], xbuffer1[ci]);
        var xbuf, avail := BottomComp(M, total, groups, comps[ci], whichptr, Xbuffer()[ci]);
        BottomSize(M, total, whichptr, comps[ci], was[ci], xbuf);
        if ci == 0 {
          rowgroups_avail := avail;
        }
        if whichptr == 0 {
          xbuffer0 := xbuffer0[ci := xbuf];
        } else {
          xbuffer1 := xbuffer1[ci := xbuf];
        }
      }
    }

    /** set_wraparound_pointers */
    method SetWraparoundPointers()
      requires Fixed(M, total, groups, comps) && Sizes(M, comps, buffer, xbuffer0, xbuffer1)
      modifies this`xbuffer0, this`xbuffer1
      ensures Sizes(M, comps, buffer, xbuffer0, xbuffer1)
      ensures AllLists(M, comps, false, old(xbuffer0), old(xbuffer1)) ==> AllLists(M, comps, true, xbuffer0, xbuffer1)
    {
      hide CompOk, Lists;
      ghost var top := AllLists(M, comps, false, xbuffer0, xbuffer1);
      for ci := 0 to |comps|
        invariant Sizes(M, comps, buffer, xbuffer0, xbuffer1)
        invariant top ==> forall c :: 0 <= c < ci ==> Lists(M, comps[c].rgroup, true, xbuffer0[c], xbuffer1[c])
        invariant top ==> forall c :: ci <= c < |comps| ==> Lists(M, comps[c].rgroup, false, xbuffer0[c], xbuffer1[c])
      {
        var xbuf0, xbuf1 := WrapComp(M, comps[ci].rgroup, xbuffer0[ci], xbuffer1[ci]);
        xbuffer0, xbuffer1 := xbuffer0[ci := xbuf0], xbuffer1[ci := xbuf1];
      }
    }

    /** post_process_data on one row group. */
    method FeedOne()
      requires Basics() && AllDue(comps, (total - 1) * M, |fed|, buffer, Xbuffer(), rowgroup_ctr)
      modifies this`rowgroup_ctr, this`fed
      ensures rowgroup_ctr == old(rowgroup_ctr) + 1 && |fed| == old(|fed|) + 1 && old(fed) <= fed
      ensures AllFed(comps, (total - 1) * M, fed)
    {
      hide Fixed, Sizes, AllFed, AllDue, Views;
      FixedFacts(M, total, groups, comps);
      FedNext(comps, (total - 1) * M, fed, buffer, Xbuffer(), rowgroup_ctr);
      AllDueShape(comps, (total - 1) * M, |fed|, buffer, Xbuffer(), rowgroup_ctr);
      fed := fed + [Views(comps, buffer, Xbuffer(), rowgroup_ctr)];
      rowgroup_ctr := rowgroup_ctr + 1;
    }

    /** A row group of the current iMCU row is due. */
    lemma ProcessDue()
      requires AtProcess() && rowgroup_ctr < rowgroups_avail
      ensures AllDue(comps, (total - 1) * M, |fed|, buffer, Xbuffer(), rowgroup_ctr)
    {
      hide Fixed, Sizes, AllLists, AllHold, AllAtBottom, AllFed, AllDue, LastGroups;
      FixedFacts(M, total, groups, comps);
      if iMCU_row_ctr < total {
        DueAbove(M, total, groups, comps, iMCU_row_ctr, whichptr, buffer, xbuffer0, xbuffer1, rowgroup_ctr);
      } else {
        DueAtBottom(M, total, groups, comps, whichptr, buffer, was, Xbuffer(), rowgroup_ctr);
      }
    }

    /** post_process_data on the current iMCU row: it takes as many row groups as the output has room for. */
    method FeedGroups(take: nat)
      requires AtProcess()
      modifies this`rowgroup_ctr, this`fed
      ensures AtProcess() && old(fed) <= fed && |fed| == old(|fed|) + (rowgroup_ctr - old(rowgroup_ctr))
      ensures rowgroup_ctr == if take < rowgroups_avail - old(rowgroup_ctr) then old(rowgroup_ctr) + take
        else rowgroups_avail
    {
      hide Fixed, Sizes, AllLists, AllHold, AllAtBottom, AllFed, AllDue, LastGroups;
      FixedFacts(M, total, groups, comps);
      var left := take;
      while left > 0 && rowgroup_ctr < rowgroups_avail
        invariant AtProcess() && old(rowgroup_ctr) <= rowgroup_ctr && left == take - (rowgroup_ctr - old(rowgroup_ctr))
        invariant old(fed) <= fed && |fed| == old(|fed|) + (rowgroup_ctr - old(rowgroup_ctr))
      {
        ProcessDue();
        FeedOne();
        left := left - 1;
      }
    }

    /** One more iMCU row is in the workspace. */
    method ReadNext()
      requires Valid() && !buffer_full && iMCU_row_ctr < total
      modifies this`buffer, this`buffer_full, this`iMCU_row_ctr
      ensures Valid() && buffer_full && context_state != ProcessImcu
    {
      hide Fixed, Sizes, AllLists, AllHold, AllAtBottom, AllFed;
      FixedFacts(M, total, groups, comps);
      ReadIMcuRow();
      buffer_full := true;
      iMCU_row_ctr := iMCU_row_ctr + 1;
    }

    /** Prepare to process the first M - 1 row groups of the iMCU row, or what there is of the last one. */
    method Prepare()
      requires AtPrepare()
      modifies this`rowgroup_ctr, this`rowgroups_avail, this`context_state, this`xbuffer0, this`xbuffer1, this`was
      ensures AtProcess() && context_state == ProcessImcu && rowgroup_ctr == 0 < rowgroups_avail
    {
      hide Fixed, Sizes, AllLists, AllHold, AllAtBottom, AllFed, LastGroups;
      FixedFacts(M, total, groups, comps);
      rowgroup_ctr := 0;
      rowgroups_avail := M - 1;
      if iMCU_row_ctr == total {
        SetBottomPointers();
      }
      context_state := ProcessImcu;
    }

    /** On to the next iMCU row, through the other list; the last row group of this one is postponed. */
    method FinishImcu()
      requires AtProcess() && rowgroup_ctr == rowgroups_avail
      modifies this`xbuffer0, this`xbuffer1, this`whichptr, this`buffer_full, this`rowgroup_ctr, this`rowgroups_avail
      modifies this`context_state
      ensures Valid()
    {
      hide Fixed, Sizes, AllLists, AllHold, AllAtBottom, AllFed;
      FixedFacts(M, total, groups, comps);
      if iMCU_row_ctr == 1 {
        SetWraparoundPointers();
      }
      whichptr := 1 - whichptr;
      buffer_full := false;
      rowgroup_ctr := M + 1;
      rowgroups_avail := M + 2;
      context_state := PostponedRow;
    }

    /** The postponed row group, if the postprocessor takes it. */
    method FeedPostponed(take: nat)
      requires AtPostponed() && context_state == PostponedRow
      modifies this`rowgroup_ctr, this`fed, this`context_state
      ensures old(fed) <= fed
      ensures take > 0 ==> AtPrepare() && context_state == PrepareForImcu && |fed| == old(|fed|) + 1
      ensures take == 0 ==> AtPostponed() && context_state == PostponedRow && |fed| == old(|fed|)
    {
      hide Fixed, Sizes, AllLists, AllHold, AllFed, AllDue;
      FixedFacts(M, total, groups, comps);
      if take > 0 {
        DuePostponed(M, total, groups, comps, iMCU_row_ctr, whichptr, buffer, xbuffer0, xbuffer1);
        FeedOne();
        context_state := PrepareForImcu;
      }
    }

    /** process_data_context_main: `decoded` says whether the next iMCU row can be had, the takes how many
        row groups the postprocessor accepts, and `full` whether the postponed one filled the output. */
    method ProcessContext(decoded: bool, takePostponed: nat, full: bool, take: nat)
      requires Valid() && !Finished()
      modifies this
      ensures Valid() && old(fed) <= fed
      ensures (old(buffer_full) || decoded) && take > 0 && takePostponed > 0 ==> |fed| > |old(fed)|
    {
      hide Basics, Sizes, AllLists, AllHold, AllAtBottom, AllFed, LastGroups;
      BasicFacts();
      if !buffer_full {
        if !decoded {
          return;
        }
        ReadNext();
      }
      if context_state == PostponedRow {
        FeedPostponed(takePostponed);
        if rowgroup_ctr < rowgroups_avail {
          return;
        }
        if full {
          return;
        }
      }
      if context_state == PrepareForImcu {
        Prepare();
      }
      FeedGroups(take);
      if rowgroup_ctr < rowgroups_avail {
        return;
      }
      FinishImcu();
    }

    lemma BasicFacts()
      requires Valid()
      ensures Basics() && iMCU_row_ctr <= total
    {
      hide Fixed, Sizes, AllLists, AllHold, AllAtBottom, AllFed, LastGroups;
    }

    /** No more than the row groups of the image are handed on, and all of them only at the end. */
    lemma FedBound()
      requires Valid()
      ensures |fed| <= groups && (|fed| == groups <==> Finished())
    {
      hide Sizes, AllLists, AllHold, AllAtBottom, AllFed, CompOk, Rgroups;
      RowsLeft(M, total, groups, comps[0]);
      FedCount(M, total, iMCU_row_ctr);
    }

    /** At the end every row group has been handed on once, in order, and each of its sample rows and the rows
        one above and one below are the rows of the image, repeated at the edges. */
    lemma AllHandedOn()
      requires Valid() && Finished()
      ensures |fed| == groups
      ensures forall G :: 0 <= G < groups ==> GroupNeighbours(comps, G, fed[G])
    {
      hide Sizes, AllLists, AllHold, AllAtBottom, CompOk, GroupOk, GroupNeighbours, LastGroups;
      FedBound();
      forall G | 0 <= G < groups ensures GroupNeighbours(comps, G, fed[G]) {
        OneRowContext(M, total, groups, comps, G, fed[G]);
      }
    }

    lemma HandedOn(G: nat)
      requires Valid() && Finished() && G < groups
      ensures |fed| == groups && GroupOk(comps, (total - 1) * M, G, fed[G]) && Fixed(M, total, groups, comps)
    {
      hide Sizes, AllLists, AllHold, AllAtBottom, CompOk, GroupOk, LastGroups;
      FedBound();
    }
  }

  /** The row group that starts at entry `from` of the list can be seen with its context and is row group G. */
  ghost predicate CompDue(c: Comp, last: nat, G: nat, buf: seq<int>, list: seq<int>, from: nat) {
    Visible(c.rgroup, buf, list, from) && ViewOk(c, last, G, View(c.rgroup, buf, list, from))
  }

  lemma MiddleDue(M: nat, total: nat, groups: nat, c: Comp, k: nat, w: nat, buf: seq<int>, l0: seq<int>, l1: seq<int>,
                  g: nat)
    requires M >= 2 && CompOk(M, total, groups, c) && w <= 1 && 1 <= k < total && g + 1 < M && (k == 1 ==> w == 0)
    requires Holds(M, c.rgroup, k, w, buf) && Lists(M, c.rgroup, k >= 2, l0, l1)
    ensures CompDue(c, (total - 1) * M, (k - 1) * M + g, buf, if w == 0 then l0 else l1, g * c.rgroup)
  {
    hide Visible, View, ViewOk, Lists, Holds, ListFor, Base;
    ListInUse(M, c.rgroup, k, w, l0, l1);
    ViewMiddle(M, total, groups, c, k, w, buf, if w == 0 then l0 else l1, g, g * c.rgroup);
  }

  lemma LastDue(M: nat, groups: nat, c: Comp, k: nat, w: nat, buf: seq<int>, was: seq<int>, list: seq<int>, g: nat)
    requires M >= 2 && k >= 1 && CompOk(M, k, groups, c) && w <= 1 && g < LastGroups(M, k, groups)
    requires Holds(M, c.rgroup, k, w, buf) && CompAtBottom(M, k, w, c, was, list)
    ensures CompDue(c, (k - 1) * M, (k - 1) * M + g, buf, list, g * c.rgroup)
  {
    hide Visible, View, ViewOk, Holds, ListFor, Base, Bottomed;
    ViewLast(M, groups, c, k, w, buf, was, list, g, g * c.rgroup, c.height - Base(M, c.rgroup, k));
  }

  lemma GroupPostponed(M: nat, total: nat, groups: nat, c: Comp, k: nat, w: nat, buf: seq<int>, l0: seq<int>,
                       l1: seq<int>)
    requires M >= 2 && CompOk(M, total, groups, c) && w <= 1 && 2 <= k <= total
    requires Holds(M, c.rgroup, k, w, buf) && Lists(M, c.rgroup, true, l0, l1)
    ensures (k - 1) * M >= 1 && CompDue(c, (total - 1) * M, (k - 1) * M - 1, buf, if w == 0 then l0
      else l1, (M + 1) * c.rgroup)
  {
    hide Visible, View, ViewOk, Lists, Holds, ListFor, Base;
    ListInUse(M, c.rgroup, k, w, l0, l1);
    ViewPostponed(M, total, groups, c, k, w, buf, if w == 0 then l0 else l1, (M + 1) * c.rgroup);
  }

  lemma FixedFacts(M: nat, total: nat, groups: nat, comps: seq<Comp>)
    requires Fixed(M, total, groups, comps)
    ensures M >= 2 && total >= 1 && Rgroups(comps) && LastGroups(M, total, groups) >= 1
  {
    hide Base;
    RowsLeft(M, total, groups, comps[0]);
  }

  lemma AllDueShape(comps: seq<Comp>, last: nat, G: nat, bufs: seq<seq<int>>, lists: seq<seq<int>>, g: nat)
    requires AllDue(comps, last, G, bufs, lists, g)
    ensures |bufs| == |lists| == |comps|
  {}

  lemma FedCount(M: nat, total: nat, k: nat)
    requires M >= 2
    ensures k < total ==> k * M <= (total - 1) * M
    ensures k >= 1 ==> (k - 1) * M + M == k * M
  {
    if k < total { MulMono(k, total - 1, M); }
  }

  /** set_wraparound_pointers for one component. */
  method WrapComp(M: nat, rg: nat, l0: seq<int>, l1: seq<int>) returns (x0: seq<int>, x1: seq<int>)
    requires M >= 2 && rg > 0 && |l0| == |l1| == (M + 4) * rg
    ensures |x0| == |x1| == (M + 4) * rg && (Lists(M, rg, false, l0, l1) ==> Lists(M, rg, true, x0, x1))
  {
    hide Normal;
    ListSizes(M, rg);
    x0, x1 := SetWraparound(M, rg, l0, l1);
    if Lists(M, rg, false, l0, l1) { WrappedLists(M, rg, x0, x1); }
  }

  // ---- One row of context ----

  /** The sample rows of row group G and the rows one above and one below, clamped to the image. */
  ghost predicate NeighboursOk(c: Comp, G: nat, v: seq<int>) {
    |v| == 3 * c.rgroup && forall i :: c.rgroup - 1 <= i <= 2 * c.rgroup && 0 <= i < |v| ==>
      v[i] == Clamp((G - 1) * c.rgroup + i, c.height)
  }

  ghost predicate GroupNeighbours(comps: seq<Comp>, G: nat, views: seq<seq<int>>) {
    |views| == |comps| && forall c :: 0 <= c < |comps| ==> NeighboursOk(comps[c], G, views[c])
  }

  lemma OneRowContext(M: nat, total: nat, groups: nat, comps: seq<Comp>, G: nat, views: seq<seq<int>>)
    requires Fixed(M, total, groups, comps) && GroupOk(comps, (total - 1) * M, G, views)
    ensures GroupNeighbours(comps, G, views)
  {
    hide CompOk, ViewOk, NeighboursOk;
    forall c | 0 <= c < |comps| ensures NeighboursOk(comps[c], G, views[c]) {
      Neighbours(M, total, groups, comps[c], G, views[c]);
    }
  }

  lemma Neighbours(M: nat, total: nat, groups: nat, c: Comp, G: nat, v: seq<int>)
    requires total >= 1 && CompOk(M, total, groups, c) && ViewOk(c, (total - 1) * M, G, v)
    ensures NeighboursOk(c, G, v)
  {
    hide Clamp, Base;
    forall i | c.rgroup - 1 <= i <= 2 * c.rgroup && 0 <= i < |v|
      ensures v[i] == Clamp((G - 1) * c.rgroup + i, c.height) {
      if G < (total - 1) * M { AboveLast(M, total, c, G, i); }
    }
  }

  /** Below a row group that is not in the last iMCU row there is at least one more real row. */
  lemma AboveLast(M: nat, total: nat, c: Comp, G: nat, i: nat)
    requires total >= 1 && G < (total - 1) * M && i <= 2 * c.rgroup && Base(M, c.rgroup, total) < c.height
    ensures (G - 1) * c.rgroup + i < c.height
  {
    MulMono(G + 1, (total - 1) * M, c.rgroup);
    assert (G + 1) * c.rgroup == (G - 1) * c.rgroup + 2 * c.rgroup;
  }

  /** A whole row group of context is right exactly where it reaches no row below the image, or the bottom of the
      image has been prepared: in the context of the row group before the last iMCU row, padding rows show. */
  lemma ContextExact(main: ContextController, G: nat, c: nat, i: nat)
    requires main.Valid() && main.Finished() && G < main.groups && c < |main.comps| && i < 3 * main.comps[c].rgroup
    ensures |main.fed| == main.groups && |main.fed[G]| == |main.comps|
    ensures |main.fed[G][c]| == 3 * main.comps[c].rgroup
    ensures var row := (G - 1) * main.comps[c].rgroup + i;
      main.fed[G][c][i] == Clamp(row, main.comps[c].height) <==>
        row < main.comps[c].height || G >= (main.total - 1) * main.M
  {
    hide CompOk, ViewOk;
    main.HandedOn(G);
    RowExact(main.M, main.total, main.groups, main.comps[c], G, main.fed[G][c], i);
  }

  lemma RowExact(M: nat, total: nat, groups: nat, c: Comp, G: nat, v: seq<int>, i: nat)
    requires CompOk(M, total, groups, c) && ViewOk(c, (total - 1) * M, G, v) && i < 3 * c.rgroup
    ensures |v| == 3 * c.rgroup && v[i] == RowFor(c, (total - 1) * M, G, i)
    ensures v[i] == Clamp((G - 1) * c.rgroup + i, c.height) <==>
      (G - 1) * c.rgroup + i < c.height || G >= (total - 1) * M
  {
    hide Base;
  }

  // ---- Any sequence of calls ----

  datatype Call = Call(decoded: bool, takePostponed: nat, full: bool, take: nat)

  predicate Productive(call: Call) {
    call.decoded && call.takePostponed > 0 && call.take > 0
  }

  function Productives(calls: seq<Call>): (n: nat)
    ensures n <= |calls|
  {
    if calls == [] then 0 else Productives(calls[..|calls| - 1]) + if Productive(calls[|calls| - 1]) then 1 else 0
  }

  /** Calls in any pattern: once as many of them as there are row groups found input and room for output,
      the image is finished. */
  method ProcessImage(main: ContextController, calls: seq<Call>)
    requires main.Valid() && main.fed == []
    modifies main
    ensures main.Valid() && (Productives(calls) >= main.groups ==> main.Finished())
  {
    hide ContextController.Valid;
    main.FedBound();
    var i := 0;
    assert calls[..0] == [];
    while i < |calls| && !main.Finished()
      invariant i <= |calls| && main.Valid() && |main.fed| <= main.groups
      invariant !main.Finished() ==> |main.fed| >= Productives(calls[..i])
    {
      assert calls[..i + 1][..i] == calls[..i];
      main.ProcessContext(calls[i].decoded, calls[i].takePostponed, calls[i].full, calls[i].take);
      main.FedBound();
      i := i + 1;
    }
    if !main.Finished() {
      assert calls[..i] == calls;
    }
    main.FedBound();
  }

  lemma TopLists(M: nat, rg: nat, l0: seq<int>, l1: seq<int>)
    requires M >= 2 && rg > 0 && |l0| == |l1| == (M + 4) * rg && (M + 2) * rg <= |l0| - rg && (M + 2) * rg <= |l1| - rg
    requires Normal(M, rg, 0, l0, 0, (M + 2) * rg) && Normal(M, rg, 1, l1, 0, (M + 2) * rg) && forall j ::
      0 <= j < rg ==> l0[j] == 0
    ensures Lists(M, rg, false, l0, l1)
  {
    hide Normal;
    ListSizes(M, rg);
  }

  lemma WrappedLists(M: nat, rg: nat, l0: seq<int>, l1: seq<int>)
    requires M >= 2 && rg > 0 && |l0| == |l1| == (M + 4) * rg && (M + 3) * rg <= |l0| - rg && (M + 3) * rg <= |l1| - rg
    requires Normal(M, rg, 0, l0, 0 - rg, (M + 3) * rg) && Normal(M, rg, 1, l1, 0 - rg, (M + 3) * rg)
    ensures Lists(M, rg, true, l0, l1)
  {
    hide Slot;
    ListSizes(M, rg);
  }

  lemma InUse(M: nat, rg: nat, wrapped: bool, w: nat, l0: seq<int>, l1: seq<int>)
    requires M >= 2 && rg > 0 && w <= 1 && Lists(M, rg, wrapped, l0, l1)
    ensures var l := if w == 0 then l0 else l1;
      |l| == (M + 4) * rg && (M + 2) * rg <= |l| - rg && Normal(M, rg, w, l, 0, (M + 2) * rg)
  {
    hide Normal;
  }

  lemma BottomSize(M: nat, total: nat, w: nat, c: Comp, was: seq<int>, list: seq<int>)
    requires M >= 2 && c.rgroup > 0 && total >= 1 && CompAtBottom(M, total, w, c, was, list)
    ensures |list| == (M + 4) * c.rgroup
  {
    hide Base, Normal;
  }

  lemma HoldsSize(M: nat, rg: nat, k: nat, w: nat, buf: seq<int>)
    requires M >= 2 && rg > 0 && w <= 1 && k >= 1 && Holds(M, rg, k, w, buf)
    ensures |buf| == (M + 2) * rg
  {}

  /** The counts of set_bottom_pointers. */
  lemma BottomRows(M: nat, total: nat, groups: nat, c: Comp)
    requires M >= 2 && CompOk(M, total, groups, c)
    ensures c.rgroup > 0 && M * c.rgroup > 0
    ensures var n := c.height % (M * c.rgroup); var left := if n == 0 then M * c.rgroup else n;
      left == c.height - Base(M, c.rgroup, total) && 1 <= left <= M * c.rgroup
        && (left - 1) / c.rgroup + 1 == LastGroups(M, total, groups)
  {
    var rg := c.rgroup;
    RowsLeft(M, total, groups, c);
    MulMono(1, M, rg);
    var left := c.height - Base(M, rg, total);
    assert Base(M, rg, total) == (total - 1) * (M * rg);
    assert total * (M * rg) == (total - 1) * (M * rg) + M * rg;
    LeftoverIs(c.height, total, M * rg);
    var n := LastGroups(M, total, groups);
    QuotientIs(left - 1, rg, n - 1);
  }

  lemma QuotientIs(a: nat, m: nat, q: nat)
    requires m > 0 && q * m <= a < q * m + m
    ensures a / m == q
  {
    DivMod(q, m, a - q * m);
  }
}
