/** The whole way of an image through a file: written with optimal tables, and read back. */
module FileRoundTrip {
  import opened HuffmanTables
  import opened BitReader
  import opened Decoding
  import opened Frames
  import opened McuGeometry
  import opened McuLayout
  import opened CoefConsumer
  import opened ScanCodec
  import opened TwoPass
  import opened FileFormat
  import opened FileWriter
  import opened FileReader
  import ScanScripts
  import S = MarkerSegments
  import W = MarkerWriter
  import R = MarkerReader

  lemma QuantisedSame(infos: seq<W.Component>, before: seq<Option<W.QuantSlot>>, after: seq<Option<W.QuantSlot>>,
                      held: seq<Option<seq<nat>>>)
    requires Quantised(infos, after, held) && W.SameQuants(before, after)
    ensures Quantised(infos, before, held)
  {}

  /** A file is written, with optimal tables for every scan, and read back by a reader that has all of it. For any
      image, any sampling factors, any script that validate_script accepts, and any restart intervals: unless a
      coefficient is out of range, a code has more than 32 bits, or a quantisation table is missing, the reader
      ends up with the dimensions and sampling factors, the quantisation tables, and every coefficient of the image
      down to the last bit that the script sends of it. */
  method TranscodeFile(w: W.Writer, img: Image, script: seq<ScanScripts.ScanInfo>, ris: seq<nat>, tabs0: seq<Tab>,
                       mcus: seq<seq<seq<array<int>>>>, held: S.Fields, ghost cs: Frame)
    returns (ok: bool, rd: R.Reader, image: Image, whole: Arrays)
    requires Ready(w, img, true) && RunDue(w, img, script, ris, cs) && |mcus| == |script|
    requires Bytes(w.out) && w.before == held
    requires forall i :: 0 <= i < |script| ==>
      ScanDue(w, img, script[i]) && Holding(mcus[i], McusFor(w, img, script[i], cs))
    requires |tabs0| == SLOTS && AllTyped(tabs0) && img.Ok() && FrameFor(img, cs)
    modifies w
    ensures fresh(rd)
    ensures !ok ==> SomeRefused(w, img, script, ris, cs) || !HasQuants(w.comp_info, old(w.quant))
    ensures ok ==> image == img && Quantised(w.comp_info, old(w.quant), rd.quant)
    ensures ok ==> ArraysFor(img, whole) && fresh(AllBlocks(whole)) && Recovered(img, cs, script, Contents(img, whole))
  {
    hide ScanDue, HasQuants, AllTyped, Holding, FileFor, FrameFor, Image.Ok, Quantised, W.SameQuants, RunDue,
         SomeRefused,
         ArraysFor, Contents, Recovered, Framed, Bytes, W.QuantSync, W.HuffSync, S.SegmentOk, Describes;
    ghost var quant := w.quant;
    var start := |w.out|;
    ghost var gs;
    ok, gs := WriteFile(w, img, script, ris, tabs0, mcus, cs);
    rd := new R.Reader(w.out, |w.out|, start, held);
    image, whole := Image(0, 0, []), [];
    if ok {
      image, whole := ReadFile(rd, img, cs, script, gs);
      QuantisedSame(w.comp_info, quant, w.quant, rd.quant);
    }
  }
}
