/** The preprocessing controller with context rows (jcprepct.c) and the compression main controller above
    it (jcmainct.c): the ring of three row groups always shows the downsampler the plain image with its
    first and last rows repeated, however the application cuts the image into pieces and however often
    the compressor suspends. */
module PrepContext {
  import opened McuGeometry
  import opened ContextRows

  const DCTSIZE: nat := 8

  /** The first row of row group n, with v rows in a row group. */
  function Base(n: nat, v: nat): nat {
    n * v
  }

  lemma BaseStep(n: nat, v: nat)
    ensures Base(n + 1, v) == Base(n, v) + v && Base(0, v) == 0
  {}

  /** The row of the ring that index j of the row list leads to. */
  function Phys(v: nat, j: int): int {
    if j < 0 then j + 3 * v else if j >= 3 * v then j - 3 * v else j
  }

  /** Where row i of what the downsampler may look at lies: one row group above `group`, itself, one below. */
  function Seen(v: nat, group: nat, i: nat): int {
    Phys(v, group - v + i)
  }

  ghost predicate ViewOf(v: nat, group: nat, ring: seq<int>, view: seq<int>) {
    forall i :: 0 <= i < |view| ==> 0 <= Seen(v, group, i) < |ring| && view[i] == ring[Seen(v, group, i)]
  }

  /** The list of 5v rows; color_buf is its part from entry v on. */
  ghost predicate Wrapped(v: nat, fake: seq<nat>) {
    |fake| == 5 * v && forall i :: 0 <= i < 5 * v ==> fake[i] == Phys(v, i - v) < 3 * v
  }

  /** create_context_buffer */
  method CreateContextBuffer(v: nat) returns (fake: seq<nat>)
    requires v > 0
    ensures Wrapped(v, fake)
  {
    var fake_buffer := new nat[5 * v];
    for i := 0 to 3 * v
      invariant forall k :: v <= k < v + i ==> fake_buffer[k] == k - v
    {
      fake_buffer[v + i] := i;
    }
    for i := 0 to v
      invariant forall k :: 0 <= k < i ==> fake_buffer[k] == 2 * v + k
      invariant forall k :: v <= k < 4 * v ==> fake_buffer[k] == k - v
      invariant forall k :: 4 * v <= k < 4 * v + i ==> fake_buffer[k] == k - 4 * v
    {
      fake_buffer[i] := 2 * v + i;
      fake_buffer[4 * v + i] := i;
    }
    fake := fake_buffer[..];
  }

  /** Ring positions below `next` hold the rows lap, lap + 1, and so on; those from `next` on still hold the
      rows of the lap before, in the first lap the repeated top row in the last row group. */
  ghost predicate Holds(v: nat, height: nat, lap: nat, next: nat, started: bool, ring: seq<int>) {
    && |ring| == 3 * v
    && (forall p :: 0 <= p < next && p < 3 * v ==> ring[p] == Clamp(lap + p, height))
    && (forall p :: next <= p < 3 * v && (lap > 0 || (started && p >= 2 * v)) ==>
          ring[p] == Clamp(lap - 3 * v + p, height))
  }

  /** What the downsampler sees as row group n with one row group above and one below. */
  ghost predicate Shown(v: nat, height: nat, n: nat, view: seq<int>) {
    |view| == 3 * v && forall i :: 0 <= i < 3 * v ==> view[i] == Clamp(Base(n, v) - v + i, height)
  }

  ghost predicate AllShown(v: nat, height: nat, groups: seq<seq<int>>) {
    forall n :: 0 <= n < |groups| ==> Shown(v, height, n, groups[n])
  }

  /** The ring at the moment of a downsample call shows the next row group. */
  lemma ViewShown(v: nat, height: nat, lap: nat, stop: nat, n: nat, ring: seq<int>, view: seq<int>, group: nat)
    requires v > 0 && Holds(v, height, lap, stop, true, ring) && stop in {v, 2 * v, 3 * v} && (stop == v ==> lap > 0)
    requires lap + stop == Base(n, v) + 2 * v && group == if stop == v then 2 * v else stop - 2 * v
    requires |view| == 3 * v && ViewOf(v, group, ring, view)
    ensures Shown(v, height, n, view)
  {
    hide Base;
    forall i | 0 <= i < 3 * v ensures view[i] == Clamp(Base(n, v) - v + i, height) {
      assert view[i] == ring[Seen(v, group, i)];
    }
  }

  /** Rows [from, to) of a run of input rows are consecutive image rows from `first` on. */
  ghost predicate Consecutive(input_buf: seq<int>, from: nat, to: nat, first: int) {
    to <= |input_buf| && forall i :: from <= i < to ==> input_buf[i] == first + i - from
  }

  /** my_prep_controller. All components have rings of the same shape and go through the same moves, so one
      ring stands for them; a row is represented by its number in the image. */
  class PrepController {
    const v: nat               // max_v_samp_factor
    const image_height: nat
    const color_buf: seq<nat>
    const ring: array<int>
    var rows_to_go: nat
    var next_buf_row: nat
    var this_row_group: nat
    var next_buf_stop: nat
    ghost var lap: nat         // the image row that belongs at ring position 0
    var groups: seq<seq<int>>  // what each downsample call was shown

    ghost predicate Fixed()
      reads ring
    {
      v > 0 && image_height > 0 && Wrapped(v, color_buf) && ring.Length == 3 * v
    }

    /** What holds all the time, with next_buf_row not yet checked against next_buf_stop. */
    ghost predicate Going()
      reads this, ring
    {
      && Fixed() && rows_to_go <= image_height && next_buf_row <= next_buf_stop
      && next_buf_stop in {v, 2 * v, 3 * v} && (next_buf_stop == v ==> lap > 0)
      && this_row_group == (if next_buf_stop == v then 2 * v else next_buf_stop - 2 * v)
      && lap + next_buf_stop == Base(|groups|, v) + 2 * v
      && (groups != [] ==> next_buf_row >= next_buf_stop - v)
      && (if rows_to_go > 0 then lap + next_buf_row == image_height - rows_to_go
         else lap + next_buf_row >= image_height)
      && Holds(v, image_height, lap, next_buf_row, rows_to_go < image_height, ring[..])
      && AllShown(v, image_height, groups)
    }

    ghost predicate Valid()
      reads this, ring
    {
      Going() && next_buf_row < next_buf_stop
    }

    /** jinit_c_prep_controller and start_pass_prep */
    constructor (max_v_samp_factor: nat, image_height: nat)
      requires max_v_samp_factor > 0 && image_height > 0
      ensures Valid() && rows_to_go == image_height && groups == [] && fresh(ring)
      ensures v == max_v_samp_factor && this.image_height == image_height
    {
      var fake := CreateContextBuffer(max_v_samp_factor);
      v, this.image_height, color_buf := max_v_samp_factor, image_height, fake;
      ring := new int[3 * max_v_samp_factor];
      rows_to_go, next_buf_row, this_row_group := image_height, 0, 0;
      next_buf_stop := 2 * max_v_samp_factor;
      lap, groups := 0, [];
      new;
      BaseStep(0, v);
    }

    /** color_convert: rows in_row up to in_row + numrows - 1 go to next_buf_row and the following places. */
    method ColorConvert(input_buf: seq<int>, in_row: nat, numrows: nat)
      requires Fixed() && in_row + numrows <= |input_buf| && next_buf_row + numrows <= 3 * v
      modifies ring
      ensures forall p :: 0 <= p < 3 * v ==>
        ring[p] == if next_buf_row <= p < next_buf_row + numrows then input_buf[in_row + p - next_buf_row]
          else old(ring[p])
    {
      for i := 0 to numrows
        invariant forall p :: 0 <= p < 3 * v ==>
          ring[p] == if next_buf_row <= p < next_buf_row + i then input_buf[in_row + p - next_buf_row] else old(ring[p])
      {
        ring[color_buf[v + next_buf_row + i]] := input_buf[in_row + i];
      }
    }

    /** "Pad at top of image": the row group above the first one repeats row 0. */
    method PadTop()
      requires Fixed()
      modifies ring
      ensures forall p :: 0 <= p < 3 * v ==> ring[p] == if p >= 2 * v then old(ring[0]) else old(ring[p])
    {
      for row := 1 to v + 1
        invariant forall p :: 0 <= p < 3 * v ==> ring[p] == if p > 3 * v - row then old(ring[0]) else old(ring[p])
      {
        ring[color_buf[v - row]] := ring[color_buf[v]];
      }
    }

    /** expand_bottom_edge, through the row list */
    method ExpandBottomEdge(input_rows: nat, output_rows: nat)
      requires Fixed() && input_rows < output_rows <= 3 * v
      modifies ring
      ensures forall p :: 0 <= p < 3 * v ==>
        ring[p] == if input_rows <= p < output_rows then old(ring[Phys(v, input_rows - 1)]) else old(ring[p])
    {
      for row := input_rows to output_rows
        invariant forall p :: 0 <= p < 3 * v ==>
          ring[p] == if input_rows <= p < row then old(ring[Phys(v, input_rows - 1)]) else old(ring[p])
      {
        ring[color_buf[v + row]] := ring[color_buf[v + input_rows - 1]];
      }
    }

    /** downsample is shown the row group at this_row_group and those around it. */
    method Downsample()
      requires Fixed() && this_row_group in {0, v, 2 * v}
      modifies this`groups
      ensures |groups| == |old(groups)| + 1 && groups[..|old(groups)|] == old(groups)
      ensures var view := groups[|old(groups)|]; |view| == 3 * v && ViewOf(v, this_row_group, ring[..], view)
    {
      var rows, view := ring[..], [];
      for i := 0 to 3 * v
        invariant |view| == i && ViewOf(v, this_row_group, rows, view)
      {
        assert color_buf[this_row_group + i] == Seen(v, this_row_group, i);
        view := view + [rows[color_buf[this_row_group + i]]];
      }
      groups := groups + [view];
    }

    /** Converted rows go into the ring, with padding at the top the first time through. */
    method StoreRows(input_buf: seq<int>, in_row_ctr: nat, numrows: nat)
      requires Fixed() && 0 < numrows && in_row_ctr + numrows <= |input_buf| && next_buf_row + numrows <= 3 * v
      requires Holds(v, image_height, lap, next_buf_row, rows_to_go < image_height, ring[..])
      requires lap + next_buf_row == image_height - rows_to_go && numrows <= rows_to_go <= image_height
      requires rows_to_go == image_height ==> lap == 0 && numrows <= 2 * v
      requires Consecutive(input_buf, in_row_ctr, in_row_ctr + numrows, image_height - rows_to_go)
      modifies ring
      ensures Holds(v, image_height, lap, next_buf_row + numrows, true, ring[..])
    {
      hide Holds, Wrapped, Phys, Clamp;
      ghost var before := ring[..];
      ColorConvert(input_buf, in_row_ctr, numrows);
      ghost var converted := ring[..];
      if rows_to_go == image_height {
        PadTop();
        TopPadded(v, image_height, lap, next_buf_row, numrows, before, converted, ring[..], input_buf, in_row_ctr);
      } else {
        RowsStored(v, image_height, lap, next_buf_row, numrows, before, ring[..], input_buf, in_row_ctr);
      }
    }

    /** The branch that converts more rows. */
    method ReadRows(input_buf: seq<int>, in_row_ctr: nat, in_rows_avail: nat) returns (numrows: nat)
      requires Valid() && in_row_ctr < in_rows_avail && in_rows_avail - in_row_ctr <= rows_to_go
      requires Consecutive(input_buf, in_row_ctr, in_rows_avail, image_height - rows_to_go)
      modifies this`next_buf_row, this`rows_to_go, ring
      ensures Going() && 0 < numrows <= in_rows_avail - in_row_ctr && rows_to_go == old(rows_to_go) - numrows
    {
      hide Holds, AllShown, Wrapped, Base;
      BaseStep(0, v);
      var inrows := in_rows_avail - in_row_ctr;
      numrows := next_buf_stop - next_buf_row;
      numrows := if numrows < inrows then numrows else inrows;
      StoreRows(input_buf, in_row_ctr, numrows);
      next_buf_row := next_buf_row + numrows;
      rows_to_go := rows_to_go - numrows;
    }

    /** "When at bottom of image, pad to fill the conversion buffer." */
    method PadBottom()
      requires Valid() && rows_to_go == 0
      modifies this`next_buf_row, ring
      ensures Going() && next_buf_row == next_buf_stop
    {
      hide Holds, AllShown, Wrapped, Base;
      ghost var before := ring[..];
      if next_buf_row < next_buf_stop {
        ExpandBottomEdge(next_buf_row, next_buf_stop);
        BottomPadded(v, image_height, lap, next_buf_row, next_buf_stop, before, ring[..]);
        next_buf_row := next_buf_stop;
      }
    }

    /** One row group goes to the downsampler; the indices advance, wrapping around. */
    method EmitGroup()
      requires Going() && next_buf_row == next_buf_stop
      modifies this`groups, this`this_row_group, this`next_buf_row, this`next_buf_stop, this`lap
      ensures Valid() && |groups| == |old(groups)| + 1 && groups[..|old(groups)|] == old(groups)
    {
      hide Holds, AllShown, Wrapped, Base, Shown, ViewOf;
      ghost var n := |groups|;
      RowsStarted();
      Downsample();
      ViewShown(v, image_height, lap, next_buf_stop, n, ring[..], groups[n], this_row_group);
      OneMoreShown(v, image_height, old(groups), groups);
      BaseStep(n, v);
      this_row_group := this_row_group + v;
      if this_row_group >= 3 * v {
        this_row_group := 0;
      }
      if next_buf_row >= 3 * v {
        LapDone(v, image_height, lap, ring[..]);
        next_buf_row := 0;
        lap := lap + 3 * v;
      }
      next_buf_stop := next_buf_row + v;
    }

    lemma RowsStarted()
      requires Going() && next_buf_row == next_buf_stop
      ensures rows_to_go < image_height && this_row_group in {0, v, 2 * v}
    {
      hide Holds, AllShown, Wrapped, Base;
    }

    /** pre_process_context: returns before out_row_groups_avail row groups are made only for want of rows. */
    method PreProcessContext(input_buf: seq<int>, in0: nat, in_rows_avail: nat, out0: nat, out_row_groups_avail: nat)
      returns (in_row_ctr: nat, out_row_group_ctr: nat)
      requires Valid() && out0 <= out_row_groups_avail
      requires in0 < in_rows_avail ==> in_rows_avail - in0 <= rows_to_go
      requires in0 < in_rows_avail ==> Consecutive(input_buf, in0, in_rows_avail, image_height - rows_to_go)
      modifies this`rows_to_go, this`next_buf_row, this`this_row_group, this`next_buf_stop, this`lap, this`groups, ring
      ensures Valid() && in0 <= in_row_ctr && rows_to_go == old(rows_to_go) - (in_row_ctr - in0)
      ensures in_row_ctr <= in_rows_avail || in_row_ctr == in0
      ensures out0 <= out_row_group_ctr <= out_row_groups_avail && |groups| == |old(groups)| + out_row_group_ctr - out0
      ensures groups[..|old(groups)|] == old(groups)
      ensures out_row_group_ctr < out_row_groups_avail ==> in_row_ctr >= in_rows_avail && rows_to_go > 0
      ensures out_row_group_ctr > out0 && in_row_ctr == in0 ==> old(rows_to_go) == 0
      ensures in0 < in_rows_avail && out0 < out_row_groups_avail ==> in_row_ctr > in0
    {
      hide Going;
      GoingFacts();
      in_row_ctr, out_row_group_ctr := in0, out0;
      while out_row_group_ctr < out_row_groups_avail
        invariant Valid() && in0 <= in_row_ctr && rows_to_go == old(rows_to_go) - (in_row_ctr - in0)
        invariant in_row_ctr <= in_rows_avail || in_row_ctr == in0
        invariant in_row_ctr < in_rows_avail ==> in_rows_avail - in_row_ctr <= rows_to_go <= image_height
        invariant in_row_ctr < in_rows_avail ==>
          Consecutive(input_buf, in_row_ctr, in_rows_avail, image_height - rows_to_go)
        invariant out0 <= out_row_group_ctr <= out_row_groups_avail
          && |groups| == |old(groups)| + out_row_group_ctr - out0
        invariant |old(groups)| <= |groups| && groups[..|old(groups)|] == old(groups)
        invariant out_row_group_ctr > out0 && in_row_ctr == in0 ==> old(rows_to_go) == 0
        invariant out_row_group_ctr > out0 && in0 < in_rows_avail ==> in_row_ctr > in0
        decreases out_row_groups_avail - out_row_group_ctr, in_rows_avail - in_row_ctr
      {
        if in_row_ctr < in_rows_avail {
          var numrows := ReadRows(input_buf, in_row_ctr, in_rows_avail);
          in_row_ctr := in_row_ctr + numrows;
        } else {
          if rows_to_go != 0 {
            break;
          }
          PadBottom();
        }
        GoingFacts();
        if next_buf_row == next_buf_stop {
          ghost var before := groups;
          EmitGroup();
          assert groups[..|old(groups)|] == before[..|old(groups)|];
          out_row_group_ctr := out_row_group_ctr + 1;
        }
      }
    }

    lemma GoingFacts()
      requires Going()
      ensures rows_to_go <= image_height && next_buf_row <= next_buf_stop
    {
      hide Holds, AllShown, Wrapped, Base;
    }
  }

  lemma RowsStored(v: nat, height: nat, lap: nat, next: nat, n: nat, before: seq<int>, after: seq<int>,
                   input_buf: seq<int>, from: nat)
    requires Holds(v, height, lap, next, true, before) && |after| == 3 * v && next + n <= 3 * v
      && lap + next + n <= height
    requires from + n <= |input_buf| && forall i :: from <= i < from + n ==> input_buf[i] == lap + next + i - from
    requires forall p :: 0 <= p < 3 * v ==> after[p] == if next <= p < next + n then input_buf[from + p - next]
      else before[p]
    ensures Holds(v, height, lap, next + n, true, after)
  {}

  lemma TopPadded(v: nat, height: nat, lap: nat, next: nat, n: nat, before: seq<int>, converted: seq<int>,
                  after: seq<int>,
                  input_buf: seq<int>, from: nat)
    requires |before| == |converted| == |after| == 3 * v && v > 0
    requires lap == next == 0 && 0 < n <= 2 * v && n <= height
    requires from + n <= |input_buf| && forall i :: from <= i < from + n ==> input_buf[i] == i - from
    requires forall p :: 0 <= p < 3 * v ==> converted[p] == if next <= p < next + n then input_buf[from + p - next]
      else before[p]
    requires forall p :: 0 <= p < 3 * v ==> after[p] == if p >= 2 * v then converted[0] else converted[p]
    ensures Holds(v, height, lap, next + n, true, after)
  {}

  lemma BottomPadded(v: nat, height: nat, lap: nat, next: nat, stop: nat, before: seq<int>, after: seq<int>)
    requires v > 0 && height > 0 && |before| == |after| == 3 * v && next < stop <= 3 * v && lap + next >= height
    requires Holds(v, height, lap, next, true, before)
    requires forall p :: 0 <= p < 3 * v ==>
      after[p] == if next <= p < stop then before[Phys(v, next - 1)] else before[p]
    ensures Holds(v, height, lap, stop, true, after)
  {}

  lemma LapDone(v: nat, height: nat, lap: nat, ring: seq<int>)
    requires Holds(v, height, lap, 3 * v, true, ring)
    ensures Holds(v, height, lap + 3 * v, 0, true, ring)
  {}

  lemma OneMoreShown(v: nat, height: nat, before: seq<seq<int>>, after: seq<seq<int>>)
    requires AllShown(v, height, before) && |after| == |before| + 1 && after[..|before|] == before
    requires Shown(v, height, |before|, after[|before|])
    ensures AllShown(v, height, after)
  {
    hide Shown;
    forall n | 0 <= n < |after| ensures Shown(v, height, n, after[n]) {
      if n < |before| { assert after[n] == before[n]; }
    }
  }

  // ---- The compression main controller ----

  /** The iMCU rows cover the image, and none of them is needless. */
  lemma IMcuRows(height: nat, v: nat)
    requires v > 0 && height > 0
    ensures var q := DivRoundUp(height, v * DCTSIZE);
      q > 0 && Base(DCTSIZE * (q - 1), v) < height <= Base(DCTSIZE * q, v)
  {
    var q := DivRoundUp(height, v * DCTSIZE);
    CeilingIs(height, v * DCTSIZE, q);
    Regroup(q, v);
    Regroup(q - 1, v);
  }

  lemma Regroup(q: int, v: nat)
    ensures q * (v * DCTSIZE) == DCTSIZE * q * v
  {}

  /** my_main_controller in pass-through mode. The compressor accepts as many iMCU rows in one call as
      `room` allows, and then suspends. */
  class CompressionMain {
    const prep: PrepController
    const total_iMCU_rows: nat
    var cur_iMCU_row: nat
    var rowgroup_ctr: nat
    var suspended: bool
    var next_scanline: nat

    /** The iMCU rows cover the image (total_iMCU_rows is a rounded-up quotient). */
    ghost predicate Sized()
    {
      && total_iMCU_rows > 0 && Base(DCTSIZE * (total_iMCU_rows - 1), prep.v) < prep.image_height
      && prep.image_height <= Base(DCTSIZE * total_iMCU_rows, prep.v)
    }

    /** What holds while data is processed. */
    ghost predicate Working()
      reads this, prep, prep.ring
    {
      && prep.Valid() && Sized() && rowgroup_ctr <= DCTSIZE && cur_iMCU_row <= total_iMCU_rows
      && |prep.groups| == DCTSIZE * cur_iMCU_row + rowgroup_ctr
      && (cur_iMCU_row == total_iMCU_rows ==> rowgroup_ctr == 0)
      && (suspended <==> rowgroup_ctr == DCTSIZE)
    }

    ghost predicate Valid()
      reads this, prep, prep.ring
    {
      && Working()
      && next_scanline + prep.rows_to_go + (if suspended then 1 else 0) == prep.image_height
      && (!suspended && cur_iMCU_row < total_iMCU_rows ==> prep.rows_to_go > 0)
    }

    /** total_iMCU_rows is computed as in initial_setup of jcmaster.c. */
    constructor (max_v_samp_factor: nat, image_height: nat)
      requires max_v_samp_factor > 0 && image_height > 0
      ensures Valid() && next_scanline == 0 && cur_iMCU_row == 0
      ensures fresh(prep) && fresh(prep.ring) && prep.v == max_v_samp_factor && prep.image_height == image_height
      ensures total_iMCU_rows == DivRoundUp(image_height, max_v_samp_factor * DCTSIZE)
    {
      hide PrepController.Going, DivRoundUp;
      IMcuRows(image_height, max_v_samp_factor);
      total_iMCU_rows := DivRoundUp(image_height, max_v_samp_factor * DCTSIZE);
      prep := new PrepController(max_v_samp_factor, image_height);
      cur_iMCU_row, rowgroup_ctr, suspended, next_scanline := 0, 0, false, 0;
    }

    /** When all row groups have been made, all rows have been read. */
    lemma AllRead()
      requires prep.Valid() && Sized() && |prep.groups| == DCTSIZE * total_iMCU_rows
      ensures prep.rows_to_go == 0
    {
      hide Base;
    }

    /** process_data_simple_main, with the trick that keeps one row unread while the compressor suspends. */
    method ProcessData(input_buf: seq<int>, in_rows_avail: nat, room0: nat) returns (in_row_ctr: nat, room: nat)
      requires Valid() && in_rows_avail <= prep.image_height - next_scanline
      requires Consecutive(input_buf, 0, in_rows_avail, next_scanline)
      modifies this, prep, prep.ring
      ensures Working() && next_scanline == old(next_scanline)
      ensures next_scanline + in_row_ctr + prep.rows_to_go + (if suspended then 1 else 0) == prep.image_height
      ensures !suspended && cur_iMCU_row < total_iMCU_rows ==> prep.rows_to_go > 0 && in_row_ctr >= in_rows_avail
      ensures room0 == room + cur_iMCU_row - old(cur_iMCU_row)
      ensures suspended ==> room == 0
      ensures old(suspended) && room0 > 0 ==> cur_iMCU_row > old(cur_iMCU_row)
      ensures !old(suspended) && in_rows_avail > 0 && old(cur_iMCU_row) < total_iMCU_rows ==>
        prep.rows_to_go < old(prep.rows_to_go)
      ensures cur_iMCU_row >= old(cur_iMCU_row) && prep.rows_to_go <= old(prep.rows_to_go)
    {
      hide PrepController.Going, Base;
      in_row_ctr, room := 0, room0;
      while cur_iMCU_row < total_iMCU_rows
        invariant Working() && next_scanline == old(next_scanline)
        invariant next_scanline + in_row_ctr + prep.rows_to_go + (if suspended then 1 else 0) == prep.image_height
        invariant room0 == room + cur_iMCU_row - old(cur_iMCU_row)
        invariant suspended ==> in_row_ctr == 0 && cur_iMCU_row == old(cur_iMCU_row) && old(suspended)
        invariant old(suspended) && cur_iMCU_row == old(cur_iMCU_row) ==> suspended
        invariant prep.rows_to_go <= old(prep.rows_to_go) && cur_iMCU_row >= old(cur_iMCU_row)
        invariant !old(suspended) && prep.rows_to_go == old(prep.rows_to_go) ==>
          in_row_ctr == 0 && !suspended && cur_iMCU_row == old(cur_iMCU_row)
        invariant in_row_ctr == 0 && !suspended && cur_iMCU_row < total_iMCU_rows ==> prep.rows_to_go > 0
      {
        if rowgroup_ctr < DCTSIZE {
          in_row_ctr, rowgroup_ctr := prep.PreProcessContext(input_buf, in_row_ctr, in_rows_avail, rowgroup_ctr,
            DCTSIZE);
        }
        if rowgroup_ctr != DCTSIZE {
          return;
        }
        if room == 0 {
          if !suspended {
            in_row_ctr := in_row_ctr - 1;
            suspended := true;
          }
          return;
        }
        room := room - 1;
        if suspended {
          in_row_ctr := in_row_ctr + 1;
          suspended := false;
        }
        rowgroup_ctr := 0;
        cur_iMCU_row := cur_iMCU_row + 1;
      }
    }

    /** jpeg_write_scanlines. The application is told that the image is complete exactly when the compressor
        has accepted every iMCU row. */
    method WriteScanlines(num_lines: nat, room0: nat) returns (row_ctr: nat)
      requires Valid()
      modifies this, prep, prep.ring
      ensures Valid() && next_scanline == old(next_scanline) + row_ctr
      ensures next_scanline == prep.image_height <==> cur_iMCU_row == total_iMCU_rows
      ensures cur_iMCU_row >= old(cur_iMCU_row) && prep.rows_to_go <= old(prep.rows_to_go)
      ensures num_lines > 0 && room0 > 0 && old(cur_iMCU_row) < total_iMCU_rows ==>
        cur_iMCU_row > old(cur_iMCU_row) || prep.rows_to_go < old(prep.rows_to_go)
    {
      hide PrepController.Going, Base;
      Complete();
      var rows_left := prep.image_height - next_scanline;
      var lines := if num_lines > rows_left then rows_left else num_lines;
      var first := next_scanline;
      var room;
      row_ctr, room := ProcessData(seq(lines, i requires 0 <= i < lines => first + i), lines, room0);
      next_scanline := next_scanline + row_ctr;
      Complete();
    }

    lemma Complete()
      requires Working()
      requires next_scanline + prep.rows_to_go + (if suspended then 1 else 0) == prep.image_height
      requires !suspended && cur_iMCU_row < total_iMCU_rows ==> prep.rows_to_go > 0
      ensures next_scanline <= prep.image_height
      ensures next_scanline == prep.image_height <==> cur_iMCU_row == total_iMCU_rows
    {
      hide Base, PrepController.Going;
      if cur_iMCU_row == total_iMCU_rows { AllRead(); }
    }

    /** Any sequence of calls, each with some number of rows and some room downstream: once enough of them
        offer a row and room, the image is complete, and the downsampler has been shown every row group of
        every iMCU row once, in order, each with its neighbours above and below. */
    method WriteImage(calls: seq<(nat, nat)>)
      requires Valid() && next_scanline == 0 && cur_iMCU_row == 0
      modifies this, prep, prep.ring
      ensures Valid() && AllShown(prep.v, prep.image_height, prep.groups)
      ensures next_scanline == prep.image_height <==> cur_iMCU_row == total_iMCU_rows
      ensures cur_iMCU_row == total_iMCU_rows ==> |prep.groups| == DCTSIZE * total_iMCU_rows
      ensures Productive(calls) >= prep.image_height + total_iMCU_rows ==> cur_iMCU_row == total_iMCU_rows
    {
      hide PrepController.Going, Base, AllShown;
      Complete();
      for i := 0 to |calls|
        invariant Valid() && (next_scanline == prep.image_height <==> cur_iMCU_row == total_iMCU_rows)
        invariant cur_iMCU_row < total_iMCU_rows ==>
          Productive(calls[..i]) <= prep.image_height - prep.rows_to_go + cur_iMCU_row
      {
        assert calls[..i + 1][..i] == calls[..i];
        var r := WriteScanlines(calls[i].0, calls[i].1);
      }
      assert calls[..|calls|] == calls;
      ShownSoFar();
    }

    lemma ShownSoFar()
      requires prep.Valid()
      ensures AllShown(prep.v, prep.image_height, prep.groups) && prep.rows_to_go <= prep.image_height
    {
      hide AllShown, Holds;
    }
  }

  /** How many calls offer both a row and room for an iMCU row. */
  function Productive(calls: seq<(nat, nat)>): nat {
    if calls == [] then 0
    else
      var n := |calls| - 1;
      Productive(calls[..n]) + if calls[n].0 > 0 && calls[n].1 > 0 then 1 else 0
  }
}
