/** Bit output with byte stuffing: emit_bits, flush_bits and emit_byte of
    jchuff.c and jcphuff.c, which share one algorithm. */
module BitWriter {
  import opened Bits

  /** The complete bytes at the front of a bit string. */
  function Pack(bits: seq<bool>): (bytes: seq<nat>)
    ensures |bytes| == |bits| / 8
    ensures forall b :: b in bytes ==> b < 256
  {
    if |bits| < 8 then [] else [Val(bits[..8])] + Pack(bits[8..])
  }

  /** The bits left over after the complete bytes. */
  function Tail(bits: seq<bool>): seq<bool> {
    bits[|bits| / 8 * 8..]
  }

  /** Every FF byte is followed by a stuffed zero. */
  function Stuff(bytes: seq<nat>): seq<nat>
  {
    if bytes == [] then []
    else StuffByte(bytes[0]) + Stuff(bytes[1..])
  }

  function StuffByte(c: nat): seq<nat> {
    if c == 0xFF then [0xFF, 0] else [c]
  }

  /** Fill up the last byte with one bits. */
  function Pad(bits: seq<bool>): (p: seq<bool>)
    ensures |p| % 8 == 0 && bits <= p && |p| < |bits| + 8
  {
    bits + Ones((8 - |bits| % 8) % 8)
  }

  /** The bytes of one entropy-coded segment. */
  function Seal(bits: seq<bool>): seq<nat> {
    Stuff(Pack(Pad(bits)))
  }

  lemma {:induction false} PackConcat(a: seq<bool>, b: seq<bool>)
    requires |a| % 8 == 0
    ensures Pack(a + b) == Pack(a) + Pack(b)
  {
    hide Val;
    if a == [] {
      assert a + b == b;
    } else {
      assert (a + b)[..8] == a[..8] && (a + b)[8..] == a[8..] + b;
      assert Pack(a + b) == [Val(a[..8])] + Pack(a[8..] + b);
      assert Pack(a) == [Val(a[..8])] + Pack(a[8..]);
      hide Pack;
      PackConcat(a[8..], b);
      assert [Val(a[..8])] + (Pack(a[8..]) + Pack(b)) == [Val(a[..8])] + Pack(a[8..]) + Pack(b);
    }
  }

  lemma {:induction false} StuffConcat(a: seq<nat>, b: seq<nat>)
    ensures Stuff(a + b) == Stuff(a) + Stuff(b)
  {
    if a == [] {
      assert a + b == b;
    } else {
      assert (a + b)[1..] == a[1..] + b;
      var x := StuffByte(a[0]);
      assert Stuff(a + b) == x + Stuff(a[1..] + b) && Stuff(a) == x + Stuff(a[1..]);
      hide Stuff, StuffByte;
      StuffConcat(a[1..], b);
      assert x + (Stuff(a[1..]) + Stuff(b)) == x + Stuff(a[1..]) + Stuff(b);
    }
  }

  lemma {:induction false} PackShort(t: seq<bool>)
    requires |t| < 8
    ensures Pack(t) == []
  {}

  /** A bit string is its complete bytes followed by its tail. */
  lemma {:induction false} PackTail(bits: seq<bool>, more: seq<bool>)
    ensures Pack(bits + more) == Pack(bits) + Pack(Tail(bits) + more)
    ensures Tail(bits + more) == Tail(Tail(bits) + more)
  {
    var n := |bits| / 8 * 8;
    assert bits == bits[..n] + Tail(bits);
    PackConcat(bits[..n], Tail(bits));
    PackShort(Tail(bits));
    assert Pack(bits) == Pack(bits[..n]);
    assert bits + more == bits[..n] + (Tail(bits) + more);
    PackConcat(bits[..n], Tail(bits) + more);
    var t := Tail(bits) + more;
    assert |bits + more| / 8 * 8 == n + |t| / 8 * 8;
  }

  /** The buffer holds exactly the bits t, left-justified in a field of 24. */
  ghost predicate Pending(buffer: nat, n: int, t: seq<bool>) {
    n == |t| <= 24 && buffer == Val(t + Zeros(24 - |t|))
  }

  lemma {:induction false} PendingShl(buffer: nat, n: nat, t: seq<bool>, m: nat)
    requires n == |t| && m == 24 - n
    ensures Pending(buffer, n, t) <==> buffer == Shl(Val(t), m)
  {
    ValConcat(t, Zeros(m));
    ValZeros(m);
  }

  lemma PendingSize(buffer: nat, n: int, t: seq<bool>)
    requires Pending(buffer, n, t)
    ensures n == |t| <= 24
  {}

  lemma NothingPending()
    ensures Pending(0, 0, []) && Tail([]) == [] && Stuff(Pack([])) == []
  {
    ValZeros(24);
    assert [] + Zeros(24) == Zeros(24);
  }

  class BitWriter {
    var put_buffer: nat   // low 24 bits of the C variable; the valid bits are left-justified
    var put_bits: nat
    var out: seq<nat>     // bytes handed to the destination
    ghost var base: seq<nat>    // bytes written before the current segment
    ghost var bits: seq<bool>   // bits emitted in the current segment

    ghost predicate Valid()
      reads this
    {
      && Pending(put_buffer, put_bits, Tail(bits))
      && out == base + Stuff(Pack(bits))
    }

    constructor ()
      ensures Valid() && base == [] && bits == [] && out == []
    {
      hide Val, Pow2, Zeros, Pack, Stuff, Tail;
      put_buffer, put_bits, out := 0, 0, [];
      base, bits := [], [];
      NothingPending();
    }

    method EmitByte(val: nat)
      modifies this`out
      ensures out == old(out) + [val]
    {
      out := out + [val];
    }

    method EmitDataByte(c: nat)
      modifies this`out
      ensures out == old(out) + StuffByte(c)
    {
      EmitByte(c);
      if c == 0xFF {
        EmitByte(0);
      }
    }

    /** Appends the low `size` bits of `code`; size 0 means that a symbol without a code was used. */
    method EmitBits(code: nat, size: nat) returns (ok: bool)
      requires Valid() && size <= 16
      modifies this
      ensures Valid() && base == old(base)
      ensures ok <==> size > 0
      ensures bits == if ok then old(bits) + BitsOf(code, size) else old(bits)
    {
      hide Val, Pow2, Zeros, Pack, Stuff, Tail, BitsOf, Shl, Low, Or, StuffByte, Sent, Pending;
      if size == 0 {
        return false;
      }
      ok := true;
      PendingSize(put_buffer, put_bits, Tail(bits));
      ghost var all := Tail(bits) + BitsOf(code, size);
      ghost var todo, done := all, [];
      var n := put_bits + size;
      SentNothing(all);
      TailSize(bits);
      MergeBits(put_buffer, Tail(bits), code, size, 24 - n);
      var buffer := Or(Shl(Low(code, size), 24 - n), put_buffer);
      while n >= 8
        invariant n == |todo| <= 23 && Pending(buffer, n, todo)
        invariant Sent(all, done, todo)
        invariant out == old(out) + Stuff(done)
        invariant base == old(base) && bits == old(bits)
      {
        TopByte(buffer, todo);
        var c := buffer / 65536 % 256;
        EmitDataByte(c);
        NextByte(old(out), all, done, todo);
        done, todo := done + [c], todo[8..];
        buffer := buffer * 256 % 0x100_0000;
        n := n - 8;
      }
      put_buffer := buffer;
      put_bits := n;
      EmitDone(base, bits, BitsOf(code, size), todo, done);
      bits := bits + BitsOf(code, size);
    }

    /** Pads the last byte with ones, then empties the bit buffer. */
    method FlushBits()
      requires Valid()
      modifies this
      ensures Valid() && bits == [] && base == out == old(base) + Seal(old(bits))
    {
      hide Val, Pow2, Zeros, Pack, Stuff, Tail, BitsOf, Pad;
      var ok := EmitBits(0x7F, 7);
      FlushPads(old(bits));
      put_buffer := 0;
      put_bits := 0;
      base, bits := out, [];
      NothingPending();
    }

    /** A marker goes out unstuffed, between segments. */
    method EmitMarker(code: nat)
      requires Valid() && bits == []
      modifies this
      ensures Valid() && bits == [] && base == out == old(out) + [0xFF, code]
    {
      hide Val, Pow2, Zeros, Pack, Stuff, Tail;
      EmitByte(0xFF);
      EmitByte(code);
      assert old(out) + [0xFF] + [code] == old(out) + [0xFF, code];
      NothingPending();
      base := out;
    }
  }

  /** Of the bits `all`, the bytes `done` are out and the bits `todo` remain. */
  ghost predicate Sent(all: seq<bool>, done: seq<nat>, todo: seq<bool>) {
    done + Pack(todo) == Pack(all) && Tail(todo) == Tail(all)
  }

  lemma SentNothing(all: seq<bool>)
    ensures Sent(all, [], all) && Stuff([]) == []
  {
    assert [] + Pack(all) == Pack(all);
  }

  lemma TailSize(bits: seq<bool>)
    ensures |Tail(bits)| < 8
  {}

  lemma {:induction false} NextByte(out: seq<nat>, all: seq<bool>, done: seq<nat>, todo: seq<bool>)
    requires |todo| >= 8 && Sent(all, done, todo)
    ensures out + Stuff(done + [Val(todo[..8])]) == out + Stuff(done) + StuffByte(Val(todo[..8]))
    ensures Sent(all, done + [Val(todo[..8])], todo[8..])
  {
    NextStuffed(out, done, Val(todo[..8]));
    NextSent(all, done, todo);
  }

  lemma {:induction false} NextStuffed(out: seq<nat>, done: seq<nat>, c: nat)
    ensures out + Stuff(done + [c]) == out + Stuff(done) + StuffByte(c)
  {
    hide Stuff, StuffByte;
    StuffConcat(done, [c]);
    StuffOne(c);
  }

  lemma {:induction false} PackHead(todo: seq<bool>)
    requires |todo| >= 8
    ensures Pack(todo) == [Val(todo[..8])] + Pack(todo[8..])
  {}

  lemma NextSent(all: seq<bool>, done: seq<nat>, todo: seq<bool>)
    requires |todo| >= 8 && Sent(all, done, todo)
    ensures Sent(all, done + [Val(todo[..8])], todo[8..])
  {
    hide Pack, Tail, Val;
    PackHead(todo);
    assert done + ([Val(todo[..8])] + Pack(todo[8..])) == done + [Val(todo[..8])] + Pack(todo[8..]);
    TailDrop(todo);
  }

  lemma StuffOne(c: nat)
    ensures Stuff([c]) == StuffByte(c)
  {
    assert Stuff([c]) == StuffByte(c) + Stuff([]);
  }

  lemma TailDrop(todo: seq<bool>)
    requires |todo| >= 8
    ensures Tail(todo) == Tail(todo[8..])
  {
    var n := |todo[8..]| / 8 * 8;
    assert todo[8..][n..] == todo[8 + n..];
  }

  lemma {:induction false} EmitDone(base: seq<nat>, bits: seq<bool>, added: seq<bool>, todo: seq<bool>, done: seq<nat>)
    requires |todo| < 8 && Sent(Tail(bits) + added, done, todo)
    ensures Tail(bits + added) == todo && |bits + added| % 8 == |todo|
    ensures base + Stuff(Pack(bits + added)) == base + Stuff(Pack(bits)) + Stuff(done)
  {
    assert Tail(todo) == todo;
    assert Pack(todo) == [];
    hide Val, Pack, Stuff;
    assert done + [] == done;
    PackTail(bits, added);
    StuffConcat(Pack(bits), done);
  }

  /** Aligning the new bits below the pending ones and OR-ing them in. */
  lemma {:induction false} MergeBits(buffer: nat, t: seq<bool>, code: nat, size: nat, m: nat)
    requires Pending(buffer, |t|, t) && |t| + size + m == 24
    ensures Pending(Or(Shl(Low(code, size), m), buffer), |t| + size, t + BitsOf(code, size))
  {
    hide Val, Pow2, Shl, Low, Or, BitsOf;
    PendingShl(buffer, |t|, t, size + m);
    MergeFields(Val(t), Low(code, size), size, m);
    ValLow(code, size);
    ValConcat(t, BitsOf(code, size));
    PendingShl(Or(Shl(Low(code, size), m), buffer), |t| + size, t + BitsOf(code, size), m);
  }

  lemma MergeFields(v: nat, f: nat, size: nat, m: nat)
    requires f < Pow2(size)
    ensures Or(Shl(f, m), Shl(v, size + m)) == Shl(Shl(v, size) + f, m)
  {
    ShlAdd(Shl(v, size), f, m);
    ShlShl(v, size, m);
    ShlBound(f, size, m);
    OrDisjoint(v, Shl(f, m), size + m);
    OrComm(Shl(v, size + m), Shl(f, m));
  }

  /** The top byte of the 24-bit buffer, and what is left after shifting it out. */
  lemma TopByte(buffer: nat, t: seq<bool>)
    requires 8 <= |t| <= 23 && Pending(buffer, |t|, t)
    ensures buffer / 65536 % 256 == Val(t[..8])
    ensures Pending(buffer * 256 % 0x100_0000, |t| - 8, t[8..])
  {
    hide Val, Pow2, Shl;
    var m := 24 - |t|;
    assert t == t[..8] + t[8..];
    PendingShl(buffer, |t|, t, m);
    ValConcat(t[..8], t[8..]);
    TopByteArith(Val(t[..8]), Val(t[8..]), |t| - 8, m);
    PendingShl(buffer * 256 % 0x100_0000, |t| - 8, t[8..], m + 8);
  }

  lemma TopByteArith(a: nat, b: nat, k: nat, m: nat)
    requires a < Pow2(8) && b < Pow2(k) && k + m == 16
    ensures Shl(Shl(a, k) + b, m) / 65536 % 256 == a
    ensures Shl(Shl(a, k) + b, m) * 256 % 0x100_0000 == Shl(b, m + 8)
  {
    ShlAdd(Shl(a, k), b, m);
    ShlShl(a, k, m);
    ShlShl(a, 8, 8);
    ShlByte(a);
    ShlByte(Shl(a, 8));
    ShlBound(b, k, m);
    ShlShl(b, m, 8);
    ShlByte(Shl(b, m));
    Pow2Values();
    ShiftOutByte(a, Shl(b, m));
  }

  lemma {:induction false} ShlByte(a: nat)
    ensures Shl(a, 8) == 256 * a
  {
    assert Shl(a, 1) == 2 * a;
    assert Shl(a, 3) == 4 * Shl(a, 1);
    assert Shl(a, 5) == 4 * Shl(a, 3);
    assert Shl(a, 7) == 4 * Shl(a, 5);
  }

  lemma ShiftOutByte(a: nat, low: nat)
    requires a < 256 && low < 65536
    ensures (65536 * a + low) / 65536 % 256 == a
    ensures (65536 * a + low) * 256 % 0x100_0000 == 256 * low
  {}

  /** The seven ones that flush_bits sends. */
  lemma SevenOnes()
    ensures BitsOf(0x7F, 7) == Ones(7)
  {
    assert BitsOf(1, 1) == [true];
    assert BitsOf(3, 2) == [true, true];
    assert BitsOf(7, 3) == [true, true, true];
    assert BitsOf(15, 4) == [true, true, true, true];
    assert BitsOf(31, 5) == [true, true, true, true, true];
    assert BitsOf(63, 6) == [true, true, true, true, true, true];
  }

  lemma {:induction false} FlushPads(bits: seq<bool>)
    ensures Pack(bits + BitsOf(0x7F, 7)) == Pack(Pad(bits))
  {
    hide BitsOf;
    SevenOnes();
    var k := (8 - |bits| % 8) % 8;
    assert bits + Ones(7) == Pad(bits) + Ones(7 - k);
    PackConcat(Pad(bits), Ones(7 - k));
  }

  /** Bits are packed from the most significant end, and the last byte is filled up with ones. */
  lemma KnownByte()
    ensures Seal([true, false, true]) == [0xBF]
  {
    hide Val;
    var a, s := [true, false, true], [true, false, true, true, true, true, true, true];
    assert Pad(a) == s && s[..8] == s && s[8..] == [];
    PackShort([]);
    NothingPending();
    KnownValue(s);
    assert Pack(s) == [0xBF];
    assert Stuff([0xBF]) == [0xBF] + Stuff([]);
  }

  lemma {:induction false} KnownValue(s: seq<bool>)
    requires s == [true, false, true, true, true, true, true, true]
    ensures Val(s) == 0xBF
  {
    hide Val;
    NoBits();
    ValStep(s, 1);
    ValStep(s, 2);
    ValStep(s, 3);
    ValStep(s, 4);
    ValStep(s, 5);
    ValStep(s, 6);
    ValStep(s, 7);
    ValStep(s, 8);
    assert s[..8] == s && s[..0] == [];
  }

  lemma NoBits()
    ensures Val([]) == 0
  {}

  lemma ValStep(s: seq<bool>, n: nat)
    requires 0 < n <= |s|
    ensures Val(s[..n]) == 2 * Val(s[..n - 1]) + if s[n - 1] then 1 else 0
  {
    assert s[..n][..n - 1] == s[..n - 1];
  }
}
