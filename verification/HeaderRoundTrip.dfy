/** The headers that the marker writer produces, read back by the marker reader, scan after scan. */
module HeaderRoundTrip {
  import opened HuffmanTables
  import opened MarkerSegments
  import W = MarkerWriter
  import R = MarkerReader

  /** A reader that stands where a group of headers begins, or has come upon its first marker in the data of the
      scan before, and holds what its writer thinks it holds, reads the whole group: it stops behind the scan
      header with everything the writer has sent. */
  method ReadGroup(w: W.Writer, rd: R.Reader)
    requires w.Valid() && rd.Valid() && W.EndsInScan([], w.segs)
    requires rd.State() == w.before && rd.Here() == |w.start|
    requires rd.unread_marker != 0 ==> rd.unread_marker == Code(w.segs[0])
    requires |w.out| <= rd.arrived && rd.data[..|w.out|] == w.out
    modifies rd
    ensures rd.Valid() && rd.State() == w.Reader() && rd.next_input_byte == |w.out| && rd.unread_marker == 0
  {
    hide SegmentOk, AllBytes, ApplyAll;
    ghost var segs := w.segs;
    assert rd.data[|w.start|..|w.out|] == AllBytes(segs) by {
      assert rd.data[|w.start|..|w.out|] == rd.data[..|w.out|][|w.start|..];
    }
    assert R.ScanLast(segs);
    assert rd.Announced(segs);
    var r := rd.ReadMarkers(segs);
  }

  /** The first scan of a file: a reader of the frame and scan headers ends up with the frame parameters, every
      quantisation table, every Huffman table of the scan, the restart interval and the scan parameters. */
  method FirstHeaders(w: W.Writer, held: Fields, more: seq<nat>) returns (ok: bool, rd: R.Reader)
    requires w.Valid() && w.segs == [] && w.ParamsOk() && w.ScanOk() && w.before == held && held.frame.None?
    modifies w
    ensures fresh(rd)
    ensures ok <==> old(
      && (forall i :: 0 <= i < |w.comp_info| ==> w.quant[w.comp_info[i].tq].Some?)
      && w.image_height <= 65535 && w.image_width <= 65535
      && (forall i :: 0 <= i < |w.cur_comp_info| ==> w.HasTables(w.cur_comp_info[i])))
    ensures ok ==>
      w.Valid() && w.ParamsOk() && w.ScanOk() && rd.Valid() && rd.data == w.out + more && rd.next_input_byte == |w.out|
    ensures ok ==> rd.State() == w.Reader() && rd.frame.Some? && rd.frame.value.comps == w.FrameComps()
    ensures ok ==> rd.frame.value.height == w.image_height && rd.frame.value.width == w.image_width
    ensures ok ==> rd.scan == Some(w.HeaderOf()) && rd.restart_interval == w.restart_interval
    ensures ok ==> forall i :: 0 <= i < |w.comp_info| ==>
      && w.quant[w.comp_info[i].tq].Some?
      && rd.quant[w.comp_info[i].tq] == Some(w.quant[w.comp_info[i].tq].value.quantval)
    ensures ok ==> forall i :: 0 <= i < |w.cur_comp_info| ==> w.Served(w.cur_comp_info[i], rd.State())
  {
    hide SegmentOk, AllBytes, ApplyAll, FrameOk, W.HuffsSent, W.QuantsSent, W.QuantSync, W.HuffSync;
    hide W.Writer.DcUser, W.Writer.AcUser, W.Writer.TqUser, W.SameQuants, W.SameHuffs;
    var start := |w.out|;
    NothingWritten(w);
    ok := w.WriteFrameHeader();
    if ok {
      w.FrameFits(w.Reader().frame.value.code);
      ok := w.WriteScanHeader();
    }
    var data := w.out + more;
    rd := new R.Reader(if ok then data else [], if ok then |w.out| else 0, start, held);
    if ok {
      ReadGroup(w, rd);
    }
  }

  lemma NothingWritten(w: W.Writer)
    requires w.Valid() && w.segs == []
    ensures w.out == w.start && w.Reader() == w.before
  {}
}
