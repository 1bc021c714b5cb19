/** Tokens as bits: what emit_symbol and emit_bits write for a token sequence, and the decoder
    machine reading it back through the bit reservoir. */
module TokenBits {
  import opened Bits
  import opened HuffmanTables
  import opened DerivedTables
  import opened BitReader
  import opened BitChannel
  import opened Coding
  import opened Decoding

  /** Table slot t holds a definition from which both sides derived their tables. */
  ghost predicate SlotOk(tabs: seq<Tab>, t: nat) {
    Present(tabs, t) && Encodes(tabs[t].h, tabs[t].c)
  }

  /** The token can be emitted: its symbol has a code, or its bits fit one emit_bits call. */
  ghost predicate Emittable(tabs: seq<Tab>, t: Token) {
    match t
    case Sym(tbl, s) => SlotOk(tabs, tbl) && s < 256 && tabs[tbl].c.ehufsi[s] != 0
    case Raw(v, n) => 1 <= n <= 16
  }

  ghost predicate AllEmittable(tabs: seq<Tab>, toks: seq<Token>) {
    forall i :: 0 <= i < |toks| ==> Emittable(tabs, toks[i])
  }

  ghost function TokBits(tabs: seq<Tab>, t: Token): seq<bool> {
    match t
    case Sym(tbl, s) => if Emittable(tabs, t) then BitsOf(tabs[tbl].c.ehufco[s], tabs[tbl].c.ehufsi[s]) else []
    case Raw(v, n) => BitsOf(v, n)
  }

  ghost function Flatten(tabs: seq<Tab>, toks: seq<Token>): seq<bool> {
    if toks == [] then [] else TokBits(tabs, toks[0]) + Flatten(tabs, toks[1..])
  }

  lemma {:induction false} FlattenConcat(tabs: seq<Tab>, a: seq<Token>, b: seq<Token>)
    ensures Flatten(tabs, a + b) == Flatten(tabs, a) + Flatten(tabs, b)
  {
    hide TokBits;
    if a == [] {
      assert a + b == b;
    } else {
      FlattenConcat(tabs, a[1..], b);
      assert (a + b)[1..] == a[1..] + b;
      var t, x, y := TokBits(tabs, a[0]), Flatten(tabs, a[1..]), Flatten(tabs, b);
      assert t + (x + y) == t + x + y;
    }
  }

  lemma {:induction false} FlattenOne(tabs: seq<Tab>, t: Token)
    ensures Flatten(tabs, [t]) == TokBits(tabs, t)
  {
    assert Flatten(tabs, [t][1..]) == [];
  }

  /** A symbol with a code is listed, and its code word is the one the decoder looks for. */
  lemma SymbolCode(tabs: seq<Tab>, t: Token) returns (p: nat, l: nat)
    requires t.Sym? && Emittable(tabs, t)
    ensures HasLen(tabs[t.tbl].h.bits, p, l) && p < 256 && tabs[t.tbl].h.huffval[p] == t.s
    ensures TokBits(tabs, t) == CodeWord(tabs[t.tbl].h.bits, p, l)
  {
    var h, c := tabs[t.tbl].h, tabs[t.tbl].c;
    p :| 0 <= p < Count(h.bits, 16) && h.huffval[p] == t.s;
    l := LenExists(h.bits, p, 16);
  }

  /** Reading the next token's bits gives its content. */
  lemma TokenRead(data: seq<nat>, lim: nat, tabs: seq<Tab>, a: Ask, t: Token, rd: Rd, later: seq<bool>,
                  bytes: seq<nat>, m: nat, e: nat) returns (bytes': seq<nat>)
    requires lim <= |data| && e <= lim && Emittable(tabs, t) && Answers(a, t)
    requires a.NeedSym? ==> Present(tabs, a.tbl)
    requires a.NeedBits? ==> a.n <= 16
    requires Ahead(data, rd, bytes, m, e) && Future(rd, bytes) == TokBits(tabs, t) + later
    ensures Delivers(data, Fetch(data, lim, rd, tabs, a), Content(t), later, bytes', m, e, rd.dry)
  {
    hide GetSym, GetBits, Ahead, Future, Delivers, Present, Encodes, BitsOf, Val;
    var f := Future(rd, bytes);
    if t.Sym? {
      var p, l := SymbolCode(tabs, t);
      PresentOk(tabs, t.tbl);
      assert CodeWord(tabs[t.tbl].h.bits, p, l) <= f;
      bytes' := SymRead(data, lim, rd, tabs[t.tbl].h, tabs[t.tbl].d, p, l, bytes, m, e);
      assert f[l..] == later;
    } else {
      bytes' := BitsRead(data, lim, rd, t.n, bytes, m, e);
      assert f[..t.n] == BitsOf(t.v, t.n) && f[t.n..] == later;
      ValBits(t.v, t.n);
    }
  }

  lemma PresentOk(tabs: seq<Tab>, t: nat)
    requires Present(tabs, t)
    ensures t < |tabs| && TableOk(tabs[t].h, tabs[t].d)
  {}

  /** The run on the reader delivers what the run on tokens does. */
  ghost predicate Reads(data: seq<nat>, tabs: seq<Tab>, run: RdRun, st: St, rest: seq<Token>, pad: seq<bool>,
                        bytes: seq<nat>, m: nat, e: nat, dry: bool) {
    run.Done? && run.st == st && run.rd.dry == dry && Ahead(data, run.rd, bytes, m, e)
    && Future(run.rd, bytes) == Flatten(tabs, rest) + pad && AllEmittable(tabs, rest)
  }

  /** The bits of the tokens are to come, followed by the padding of the segment. */
  ghost predicate Holds(data: seq<nat>, tabs: seq<Tab>, rd: Rd, toks: seq<Token>, pad: seq<bool>,
                        bytes: seq<nat>, m: nat, e: nat) {
    AllEmittable(tabs, toks) && Ahead(data, rd, bytes, m, e) && Future(rd, bytes) == Flatten(tabs, toks) + pad
  }

  lemma {:induction false} HoldsNext(data: seq<nat>, tabs: seq<Tab>, rd: Rd, toks: seq<Token>, pad: seq<bool>,
                                     bytes: seq<nat>, m: nat, e: nat)
    requires Holds(data, tabs, rd, toks, pad, bytes, m, e) && toks != []
    ensures Emittable(tabs, toks[0]) && AllEmittable(tabs, toks[1..]) && Ahead(data, rd, bytes, m, e)
    ensures Future(rd, bytes) == TokBits(tabs, toks[0]) + (Flatten(tabs, toks[1..]) + pad)
  {
    hide Ahead, Future, TokBits, Emittable;
  }

  /** One fetch of the machine. */
  lemma {:induction false} RunFetch(scan: Scan, data: seq<nat>, lim: nat, tabs: seq<Tab>, st: St, rd: Rd, v: nat,
                                    rd': Rd)
    requires StOk(scan, st) && TabsOk(scan, tabs) && lim <= |data| && Bytes(data)
    requires var a := Asks(scan, st); (a.NeedSym? || a.NeedBits?) && AnswerOk(a, v)
    requires var a := Asks(scan, st); AskFits(tabs, a) && Fetch(data, lim, rd, tabs, a) == Got(v, rd')
    ensures StOk(scan, Feed(scan, st, v)) && Rank(scan, Feed(scan, st, v)) < Rank(scan, st)
    ensures RunRd(scan, data, lim, tabs, st, rd) == RunRd(scan, data, lim, tabs, Feed(scan, st, v), rd')
  {
    hide Asks, Feed, Fetch, StOk, Rank, TabsOk, AnswerOk;
    FeedOk(scan, st, v);
  }

  ghost predicate AskFits(tabs: seq<Tab>, a: Ask) {
    (a.NeedSym? ==> Present(tabs, a.tbl)) && (a.NeedBits? ==> a.n <= 16)
  }

  lemma {:induction false} RunSilent(scan: Scan, data: seq<nat>, lim: nat, tabs: seq<Tab>, st: St, rd: Rd)
    requires StOk(scan, st) && TabsOk(scan, tabs) && lim <= |data| && Bytes(data) && Asks(scan, st).Silent?
    ensures StOk(scan, Feed(scan, st, 0)) && Rank(scan, Feed(scan, st, 0)) < Rank(scan, st)
    ensures RunRd(scan, data, lim, tabs, st, rd) == RunRd(scan, data, lim, tabs, Feed(scan, st, 0), rd)
  {
    hide Asks, Feed, Fetch, StOk, Rank, TabsOk;
    FeedOk(scan, st, 0);
  }

  lemma {:induction false} RunHalts(scan: Scan, data: seq<nat>, lim: nat, tabs: seq<Tab>, st: St, rd: Rd)
    requires StOk(scan, st) && TabsOk(scan, tabs) && lim <= |data| && Bytes(data) && Asks(scan, st).Halt?
    ensures RunRd(scan, data, lim, tabs, st, rd) == Done(st, rd)
  {}

  /** What the machine does with a nonempty token sequence when it asks for input. */
  lemma {:induction false} TokensStep(scan: Scan, st: St, toks: seq<Token>)
    requires StOk(scan, st) && RunTok(scan, st, toks).Ends?
    ensures var a := Asks(scan, st);
      && (a.Halt? ==> RunTok(scan, st, toks) == Ends(st, toks))
      && (a.Silent? ==>
         StOk(scan, Feed(scan, st, 0)) && RunTok(scan, st, toks) == RunTok(scan, Feed(scan, st, 0), toks))
      && (!a.Halt? && !a.Silent? ==> (
            && toks != [] && Answers(a, toks[0]) && AnswerOk(a, Content(toks[0]))
            && StOk(scan, Feed(scan, st, Content(toks[0])))
            && RunTok(scan, st, toks) == RunTok(scan, Feed(scan, st, Content(toks[0])), toks[1..])))
  {
    hide Asks, Feed, StOk, Rank;
    var a := Asks(scan, st);
    if a.Halt? {
    } else if a.Silent? {
      FeedOk(scan, st, 0);
    } else {
      FeedOk(scan, st, Content(toks[0]));
    }
  }

  /** The decoder machine reads from the bit stream what it would read from the tokens. */
  lemma {:induction false} BitsDecode(scan: Scan, data: seq<nat>, lim: nat, tabs: seq<Tab>, st: St, rd: Rd,
                                      toks: seq<Token>,
                                      pad: seq<bool>, bytes: seq<nat>, m: nat, e: nat) returns (bytes': seq<nat>)
    requires StOk(scan, st) && TabsOk(scan, tabs) && e <= lim <= |data| && Bytes(data)
    requires Holds(data, tabs, rd, toks, pad, bytes, m, e) && RunTok(scan, st, toks).Ends?
    ensures var run := RunTok(scan, st, toks);
      Reads(data, tabs, RunRd(scan, data, lim, tabs, st, rd), run.st, run.rest, pad, bytes', m, e, rd.dry)
    decreases Rank(scan, st)
  {
    hide Asks, Feed, StOk, Rank, TabsOk, Bytes, Holds, RunTok, RunRd, Fetch, Answers, Content, Ahead, Future, Reads,
         Flatten, Delivers, AskFits;
    TokensStep(scan, st, toks);
    if Asks(scan, st).Halt? {
      bytes' := bytes;
      RunHalts(scan, data, lim, tabs, st, rd);
      ReadsEnd(data, tabs, st, rd, toks, pad, bytes, m, e);
    } else if Asks(scan, st).Silent? {
      RunSilent(scan, data, lim, tabs, st, rd);
      bytes' := BitsDecode(scan, data, lim, tabs, Feed(scan, st, 0), rd, toks, pad, bytes, m, e);
    } else {
      var bytes1, rd1 := BitsStep(scan, data, lim, tabs, st, rd, toks, pad, bytes, m, e);
      bytes' := BitsDecode(scan, data, lim, tabs, Feed(scan, st, Content(toks[0])), rd1, toks[1..], pad, bytes1, m, e);
    }
  }

  lemma ReadsEnd(data: seq<nat>, tabs: seq<Tab>, st: St, rd: Rd, toks: seq<Token>, pad: seq<bool>, bytes: seq<nat>,
                 m: nat, e: nat)
    requires Holds(data, tabs, rd, toks, pad, bytes, m, e)
    ensures Reads(data, tabs, Done(st, rd), st, toks, pad, bytes, m, e, rd.dry)
  {}

  lemma BitsStep(scan: Scan, data: seq<nat>, lim: nat, tabs: seq<Tab>, st: St, rd: Rd, toks: seq<Token>,
                 pad: seq<bool>, bytes: seq<nat>, m: nat, e: nat) returns (bytes1: seq<nat>, rd1: Rd)
    requires StOk(scan, st) && TabsOk(scan, tabs) && e <= lim <= |data| && Bytes(data)
    requires Holds(data, tabs, rd, toks, pad, bytes, m, e) && toks != []
    requires var a := Asks(scan, st); !a.Halt? && !a.Silent? && Answers(a, toks[0]) && AnswerOk(a, Content(toks[0]))
    ensures var st1 := Feed(scan, st, Content(toks[0]));
      && StOk(scan, st1) && Rank(scan, st1) < Rank(scan, st)
      && RunRd(scan, data, lim, tabs, st, rd) == RunRd(scan, data, lim, tabs, st1, rd1)
    ensures Holds(data, tabs, rd1, toks[1..], pad, bytes1, m, e) && rd1.dry == rd.dry
  {
    hide Asks, Feed, StOk, Rank, TabsOk, Bytes, Holds, RunRd, Fetch, AnswerOk, Answers, Content, Ahead, Future,
         Flatten, TokBits, Emittable, Delivers;
    var a := Asks(scan, st);
    AskOk(scan, st, tabs);
    HoldsNext(data, tabs, rd, toks, pad, bytes, m, e);
    bytes1 := TokenRead(data, lim, tabs, a, toks[0], rd, Flatten(tabs, toks[1..]) + pad, bytes, m, e);
    rd1 := DeliveredNext(data, tabs, Fetch(data, lim, rd, tabs, a), Content(toks[0]), toks[1..], pad, bytes1, m, e,
      rd.dry);
    RunFetch(scan, data, lim, tabs, st, rd, Content(toks[0]), rd1);
  }

  lemma DeliveredNext(data: seq<nat>, tabs: seq<Tab>, f: Fetched, v: nat, toks: seq<Token>, pad: seq<bool>,
                      bytes: seq<nat>, m: nat, e: nat, dry: bool) returns (rd: Rd)
    requires Delivers(data, f, v, Flatten(tabs, toks) + pad, bytes, m, e, dry) && AllEmittable(tabs, toks)
    ensures f == Got(v, rd) && Holds(data, tabs, rd, toks, pad, bytes, m, e) && rd.dry == dry
  {
    rd := f.rd;
  }
}
