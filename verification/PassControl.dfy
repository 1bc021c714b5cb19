/** Pass control of a compression run: prepare_for_pass, pass_startup and finish_pass_master of jcmaster.c,
    and the loops of jpeg_write_scanlines and jpeg_finish_compress that drive them. */
module PassControl {
  import opened ScanScripts
  import opened HuffmanTables
  import ScriptRoundTrip

  datatype PassType = MainPass | HuffOptPass | OutputPass

  /** What a run does: gather the statistics of a scan, write headers, code a scan. */
  datatype Event = Statistics(scan: nat) | FrameHeader | ScanHeader(scan: nat) | Data(scan: nat) | FileTrailer

  /** Without a script, one sequential scan holds all components. */
  function ScansOf(scan_info: Option<seq<ScanInfo>>, num_components: nat): seq<ScanInfo> {
    match scan_info
    case Some(script) => script
    case None => [ScanInfo(seq(num_components, i => i), 0, 63, 0, 0)]
  }

  /** Huffman DC refinement scans need no table. */
  predicate NeedsStatistics(s: ScanInfo) {
    s.Ss != 0 || s.Ah == 0
  }

  /** A statistics pass is made exactly for the scans that send Huffman symbols: their entropy coders use a table. */
  lemma StatisticsWhereUsed(p: ScriptRoundTrip.Pass)
    requires ScriptRoundTrip.ParamsOk(p.info)
    ensures NeedsStatistics(p.info) <==> ScriptRoundTrip.ScanOf(p).UsesDc() || ScriptRoundTrip.ScanOf(p).UsesAc()
  {}

  /** The events of scan i: its statistics if its table is to be optimised, the frame header before the
      first scan, its header, its data. */
  function ScanEvents(scans: seq<ScanInfo>, optimize: bool, i: nat): seq<Event>
    requires i < |scans|
  {
    (if optimize && NeedsStatistics(scans[i]) then [Statistics(i)] else [])
    + (if i == 0 then [FrameHeader] else []) + [ScanHeader(i), Data(i)]
  }

  function Events(scans: seq<ScanInfo>, optimize: bool, n: nat): seq<Event>
    requires n <= |scans|
  {
    if n == 0 then [] else Events(scans, optimize, n - 1) + ScanEvents(scans, optimize, n - 1)
  }

  /** One frame header, before everything but the first statistics; every scan header and every scan
      exactly once; and statistics only of the scan that follows. */
  lemma {:induction false} EventsOnce(scans: seq<ScanInfo>, optimize: bool, n: nat, i: nat)
    requires n <= |scans|
    ensures var m := multiset(Events(scans, optimize, n));
      && m[FrameHeader] == (if n > 0 then 1 else 0)
      && m[ScanHeader(i)] == m[Data(i)] == (if i < n then 1 else 0)
      && m[Statistics(i)] == (if i < n && optimize && NeedsStatistics(scans[i]) then 1 else 0)
  {
    hide ScanEvents;
    if n > 0 {
      EventsOnce(scans, optimize, n - 1, i);
      ScanEventsOnce(scans, optimize, n - 1, i);
      var before, more := Events(scans, optimize, n - 1), ScanEvents(scans, optimize, n - 1);
      assert multiset(before + more) == multiset(before) + multiset(more);
    }
  }

  lemma ScanEventsOnce(scans: seq<ScanInfo>, optimize: bool, k: nat, i: nat)
    requires k < |scans|
    ensures var m := multiset(ScanEvents(scans, optimize, k));
      && m[FrameHeader] == (if k == 0 then 1 else 0)
      && m[ScanHeader(i)] == m[Data(i)] == (if i == k then 1 else 0)
      && m[Statistics(i)] == (if i == k && optimize && NeedsStatistics(scans[i]) then 1 else 0)
  {
    var first := if optimize && NeedsStatistics(scans[k]) then [Statistics(k)] else [];
    var frame := if k == 0 then [FrameHeader] else [];
    var m := multiset(first) + multiset(frame) + multiset{ScanHeader(k), Data(k)};
    assert multiset(ScanEvents(scans, optimize, k)) == m by {
      ThreeParts(first, frame, [ScanHeader(k), Data(k)]);
    }
  }

  lemma ThreeParts<T>(a: seq<T>, b: seq<T>, c: seq<T>)
    ensures multiset(a + b + c) == multiset(a) + multiset(b) + multiset(c)
  {}

  /** The place of an event: by scan, and for one scan its statistics, the frame header, its header, its data. */
  function Turn(e: Event): nat {
    match e
    case Statistics(i) => 4 * i
    case FrameHeader => 1
    case ScanHeader(i) => 4 * i + 2
    case Data(i) => 4 * i + 3
    case FileTrailer => 0
  }

  /** Everything happens in that order. */
  lemma {:induction false} EventsInOrder(scans: seq<ScanInfo>, optimize: bool, n: nat, a: nat, b: nat)
    requires n <= |scans| && a < b < |Events(scans, optimize, n)|
    ensures Turn(Events(scans, optimize, n)[a]) < Turn(Events(scans, optimize, n)[b]) < 4 * n
    decreases n
  {
    var before := Events(scans, optimize, n - 1);
    if b < |before| {
      EventsInOrder(scans, optimize, n - 1, a, b);
    } else if a < |before| {
      EventBelow(scans, optimize, n - 1, a);
    }
  }

  lemma {:induction false} EventBelow(scans: seq<ScanInfo>, optimize: bool, n: nat, a: nat)
    requires n <= |scans| && a < |Events(scans, optimize, n)|
    ensures Turn(Events(scans, optimize, n)[a]) < 4 * n
  {
    if a < |Events(scans, optimize, n - 1)| { EventBelow(scans, optimize, n - 1, a); }
  }

  /** The first scan of an accepted script is no refinement. */
  lemma {:induction false} FirstScanNew(script: seq<ScanInfo>, n: nat)
    requires ScriptAccepted(script, n)
    ensures NeedsStatistics(script[0])
  {
    if script[0].Ss != 0 || script[0].Se != 63 {
      FirstProgressive(script, Unsent(n), 1);
      var c := script[0].component_index[0];
      assert RowOk(Unsent(n)[c], script[0]);
      assert script[0].Ss == 0;
      assert NextBit(Unsent(n)[c][0], script[0]);
    }
  }

  lemma {:induction false} FirstProgressive(script: seq<ScanInfo>, start: Levels, i: nat)
    requires Shape(start, |start|) && Progressive(script, start) && 1 <= i <= |script|
    ensures ComponentsOk(script[0], |start|) && RangesOk(script[0]) && Continues(start, script[0])
    decreases |script|
  {
    var n := |script| - 1;
    if n > 0 {
      FirstProgressive(script[..n], start, 1);
    } else {
      assert script[..0] == [];
    }
  }

  /** The master control object, the scan that is selected, and everything done so far. */
  class Master {
    const scans: seq<ScanInfo>
    const optimize_coding: bool
    const transcode_only: bool
    const image_height: nat
    const total_passes: nat
    var pass_type: PassType
    var pass_number: nat
    var scan_number: nat
    var is_last_pass: bool
    var call_pass_startup: bool
    var current: nat          // the scan whose parameters are selected
    var gathering: bool       // the entropy encoder's mode in this pass
    var next_scanline: nat
    var log: seq<Event>

    ghost predicate Setup() {
      && scans != [] && image_height > 0 && total_passes == (if optimize_coding then 2 * |scans| else |scans|)
      && NeedsStatistics(scans[0])
    }

    ghost function Done(): seq<Event>
      requires scan_number <= |scans|
      reads this
    {
      Events(scans, optimize_coding, scan_number)
    }

    /** Between passes: which pass comes next, and what has been done. */
    ghost predicate Between()
      reads this
    {
      && Setup() && scan_number <= |scans| && (is_last_pass <==> pass_number == total_passes)
      && pass_number <= total_passes
      && match pass_type
         case MainPass => !transcode_only && pass_number == scan_number == 0 && log == []
         case HuffOptPass => optimize_coding && pass_number == 2 * scan_number && log == Done()
         case OutputPass =>
           if optimize_coding then
             && scan_number < |scans| && pass_number == 2 * scan_number + 1 && current == scan_number
             && NeedsStatistics(scans[scan_number]) && log == Done() + [Statistics(scan_number)]
           else pass_number == scan_number && log == Done()
    }

    /** Within a pass, all of whose data is still to come. */
    ghost predicate Ready()
      reads this
    {
      && Setup() && scan_number < |scans| && current == scan_number && pass_number < total_passes
      && (is_last_pass <==> pass_number == total_passes - 1)
      && (call_pass_startup ==> pass_type == MainPass && !gathering)
      && (pass_type == MainPass ==> scan_number == 0 && gathering == optimize_coding)
      && (if gathering then
            && optimize_coding && pass_type != OutputPass && pass_number == 2 * scan_number
            && NeedsStatistics(scans[scan_number]) && log == Done()
          else
            && pass_type != HuffOptPass
            && pass_number == (if optimize_coding then 2 * scan_number + 1 else scan_number)
            && log + (if call_pass_startup then [FrameHeader, ScanHeader(0)] else []) + [Data(scan_number)]
               == Events(scans, optimize_coding, scan_number + 1))
    }

    /** jinit_c_master_control, the parameters having been checked. */
    constructor (scan_info: Option<seq<ScanInfo>>, num_components: nat, optimize: bool, transcode: bool, height: nat)
      requires scan_info.Some? ==> ScriptAccepted(scan_info.value, num_components)
      requires height > 0
      ensures Between() && log == [] && next_scanline == 0 && transcode_only == transcode && image_height == height
      ensures scans == ScansOf(scan_info, num_components)
      ensures optimize_coding == (optimize || (scan_info.Some? && !FullBand(scans[0])))
      ensures pass_type == MainPass <==> !transcode
    {
      var script := ScansOf(scan_info, num_components);
      var optimizing := optimize || (scan_info.Some? && !FullBand(script[0]));
      if scan_info.Some? { FirstScanNew(script, num_components); }
      scans, optimize_coding, transcode_only, image_height := script, optimizing, transcode, height;
      total_passes := if optimizing then 2 * |script| else |script|;
      pass_type := if !transcode then MainPass else if optimizing then HuffOptPass else OutputPass;
      pass_number, scan_number, is_last_pass, call_pass_startup := 0, 0, false, false;
      current, gathering, next_scanline, log := 0, false, 0, [];
    }

    /** write_frame_header and write_scan_header */
    method WriteHeaders(frame: bool)
      modifies this`log
      ensures log == old(log) + (if frame then [FrameHeader] else []) + [ScanHeader(current)]
    {
      if frame {
        log := log + [FrameHeader];
      }
      log := log + [ScanHeader(current)];
    }

    method PrepareForPass()
      requires Between() && !is_last_pass
      modifies this
      ensures Ready() && next_scanline == old(next_scanline)
      ensures pass_type == MainPass <==> old(pass_type) == MainPass
      ensures pass_number >= old(pass_number)
    {
      hide Events, ScanEvents, Setup;
      ScansLeft();
      var output := false;
      match pass_type {
        case MainPass =>
          current := scan_number;
          gathering := optimize_coding;
          call_pass_startup := !optimize_coding;
        case HuffOptPass =>
          current := scan_number;
          if scans[current].Ss != 0 || scans[current].Ah == 0 {
            gathering := true;
            call_pass_startup := false;
          } else {
            pass_type := OutputPass;
            pass_number := pass_number + 1;
            output := true;
          }
        case OutputPass =>
          if !optimize_coding {
            current := scan_number;
          }
          output := true;
      }
      if output {
        gathering := false;
        WriteHeaders(scan_number == 0);
        call_pass_startup := false;
      }
      is_last_pass := pass_number == total_passes - 1;
      NextEvents(scans, optimize_coding, scan_number);
    }

    lemma ScansLeft()
      requires Between() && !is_last_pass
      ensures scan_number < |scans| && NeedsStatistics(scans[0])
      ensures total_passes == (if optimize_coding then 2 * |scans| else |scans|)
    {}

    /** pass_startup */
    method PassStartup()
      requires Ready() && call_pass_startup
      modifies this`call_pass_startup, this`log
      ensures Ready() && !call_pass_startup
    {
      hide Events;
      ghost var before := log;
      call_pass_startup := false;
      WriteHeaders(true);
      assert log == before + [FrameHeader, ScanHeader(0)];
    }

    /** The entropy encoder works through all MCUs of the scan. */
    method CodeScan()
      modifies this`log
      ensures log == old(log) + [if gathering then Statistics(current) else Data(current)]
    {
      log := log + [if gathering then Statistics(current) else Data(current)];
    }

    /** Within a pass, all of whose data has been seen. */
    ghost predicate Coded()
      reads this
    {
      && Setup() && scan_number < |scans| && current == scan_number && pass_number < total_passes
      && (is_last_pass <==> pass_number == total_passes - 1) && (pass_type == MainPass ==> scan_number == 0)
      && (if gathering then
            && optimize_coding && pass_type != OutputPass && pass_number == 2 * scan_number
            && NeedsStatistics(scans[scan_number]) && log == Done() + [Statistics(scan_number)]
          else
            && pass_type != HuffOptPass && (pass_type == MainPass ==> !optimize_coding)
            && pass_number == (if optimize_coding then 2 * scan_number + 1 else scan_number)
            && log == Events(scans, optimize_coding, scan_number + 1))
    }

    /** finish_pass_master */
    method FinishPass()
      requires Coded()
      modifies this
      ensures Between() && pass_type != MainPass && pass_number == old(pass_number) + 1 && log == old(log)
    {
      hide Events;
      match pass_type {
        case MainPass =>
          pass_type := OutputPass;
          if !optimize_coding {
            scan_number := scan_number + 1;
          }
        case HuffOptPass =>
          pass_type := OutputPass;
        case OutputPass =>
          if optimize_coding {
            pass_type := HuffOptPass;
          }
          scan_number := scan_number + 1;
      }
      pass_number := pass_number + 1;
    }

    /** The application has written next_scanline rows of the image. */
    ghost predicate Scanning()
      reads this
    {
      && next_scanline <= image_height && pass_type == MainPass
      && if next_scanline == image_height then Coded() else Ready()
    }

    /** jpeg_start_compress */
    method StartCompress()
      requires Between() && pass_type == MainPass && next_scanline == 0
      modifies this
      ensures Scanning() && next_scanline == 0
    {
      hide Events;
      PrepareForPass();
    }

    /** jpeg_write_scanlines; the pass over the data is recorded when the last row is in. */
    method WriteScanlines(num_lines: nat)
      requires Scanning()
      modifies this
      ensures Scanning()
      ensures next_scanline == if old(next_scanline) + num_lines <= image_height then old(next_scanline) + num_lines
        else image_height
    {
      hide Events;
      if next_scanline == image_height {
        return;
      }
      if call_pass_startup {
        PassStartup();
      }
      var rows_left := image_height - next_scanline;
      next_scanline := next_scanline + if num_lines > rows_left then rows_left else num_lines;
      if next_scanline == image_height {
        CodeScan();
      }
    }

    /** jpeg_finish_compress: fails only if rows of the image are missing; otherwise, whatever the number
        of scans, the log holds one frame header, each scan header and scan once, in script order, each
        scan that needs a table preceded by its own statistics, and nothing else. */
    method FinishCompress() returns (ok: bool)
      requires if transcode_only then Between() && pass_number == 0 else Scanning()
      modifies this
      ensures ok <==> transcode_only || old(next_scanline) == image_height
      ensures ok ==> log == Events(scans, optimize_coding, |scans|) + [FileTrailer]
    {
      hide Events;
      if !transcode_only {
        if next_scanline < image_height {
          return false;
        }
        FinishPass();
      }
      while !is_last_pass
        invariant Between()
        decreases total_passes - pass_number
      {
        PrepareForPass();
        CodeScan();
        FinishPass();
      }
      log := log + [FileTrailer];
      ok := true;
    }
  }

  /** The rows of all calls together. */
  function Lines(calls: seq<nat>): nat {
    if calls == [] then 0 else Lines(calls[..|calls| - 1]) + calls[|calls| - 1]
  }

  /** A whole run of the compressor, the rows of the image arriving in any portions: it succeeds exactly if the rows
      are there, and then has done all that the scans call for. */
  method CompressImage(scan_info: Option<seq<ScanInfo>>, num_components: nat, optimize: bool, height: nat,
                       calls: seq<nat>)
    returns (ok: bool, master: Master)
    requires scan_info.Some? ==> ScriptAccepted(scan_info.value, num_components)
    requires height > 0
    ensures ok <==> Lines(calls) >= height
    ensures ok ==>
      var scans := ScansOf(scan_info, num_components);
      var optimizing := optimize || (scan_info.Some? && !FullBand(scans[0]));
      scans != [] && master.log == Events(scans, optimizing, |scans|) + [FileTrailer]
  {
    hide Events, ScriptAccepted, Master.Ready, Master.Coded;
    master := new Master(scan_info, num_components, optimize, false, height);
    master.StartCompress();
    for k := 0 to |calls|
      invariant master.Scanning() && master.image_height == height && !master.transcode_only
      invariant master.next_scanline == if Lines(calls[..k]) <= height then Lines(calls[..k]) else height
    {
      assert calls[..k + 1][..k] == calls[..k];
      master.WriteScanlines(calls[k]);
    }
    assert calls[..|calls|] == calls;
    ok := master.FinishCompress();
  }

  /** The events of one more scan, the data last. */
  lemma NextEvents(scans: seq<ScanInfo>, optimize: bool, i: nat)
    requires i < |scans|
    ensures var before := Events(scans, optimize, i) + if optimize && NeedsStatistics(scans[i]) then [Statistics(i)]
      else [];
      var headed := before + (if i == 0 then [FrameHeader] else []) + [ScanHeader(i)];
      headed + [Data(i)] == Events(scans, optimize, i + 1)
    ensures i == 0 && !optimize ==> [] + [FrameHeader, ScanHeader(0)] + [Data(0)] == Events(scans, optimize, 1)
    ensures Events(scans, optimize, 0) == []
  {}
}
