/**
 The bit buffer of the inflater (`stbi__zbuf`): up to 32 look-ahead bits over a byte buffer, read as
 one stream of bits.  Every operation is stated as what it takes off the front of that stream.
 */
module ZlibBuffer {
  import opened Basics
  import opened CanonicalCode
  import opened ZlibHuffman

  /** The low `n` bits of a number in stream order. */
  function BitsOf(v: nat, n: nat): seq<nat> {
    seq(n, t requires 0 <= t < n => WindowBit(v, t))
  }

  /** Bytes in stream order, low bit of each byte first (section 3.1.1 of RFC 1951). */
  function ByteBits(bytes: seq<nat>): seq<nat> {
    if bytes == [] then [] else BitsOf(bytes[0], 8) + ByteBits(bytes[1..])
  }

  lemma {:induction false} ByteBitsLength(bytes: seq<nat>)
    ensures |ByteBits(bytes)| == 8 * |bytes|
  {
    if bytes != [] { ByteBitsLength(bytes[1..]); }
  }

  function Zeros(n: nat): seq<nat> {
    seq(n, t => 0)
  }

  /** A symbol's code word in stream order: most significant bit of the code first. */
  function CodeWord(ls: seq<nat>, j: nat): seq<nat>
    requires j < |ls| && ls[j] > 0
  {
    seq(ls[j], t requires 0 <= t < ls[j] => CodeBit(CodeOf(ls, j), ls[j], t))
  }

  // ----- laws of bit strings

  lemma {:induction false} ZeroBit(t: nat)
    ensures WindowBit(0, t) == 0
  {
    if t > 0 { ZeroBit(t - 1); }
  }

  lemma {:induction false} StackedBit(v: nat, b: nat, n: nat, t: nat)
    requires v < Pow2(n)
    ensures WindowBit(v + Shl(b, n), t) == if t < n then WindowBit(v, t) else WindowBit(b, t - n)
  {
    if n > 0 {
      assert (v + Shl(b, n)) / 2 == v / 2 + Shl(b, n - 1);
      if t > 0 { StackedBit(v / 2, b, n - 1, t - 1); }
    }
  }

  lemma BitsStack(v: nat, b: nat, n: nat, m: nat)
    requires v < Pow2(n)
    ensures BitsOf(v + Shl(b, n), n + m) == BitsOf(v, n) + BitsOf(b, m)
  {
    forall t | 0 <= t < n + m
      ensures BitsOf(v + Shl(b, n), n + m)[t] == (BitsOf(v, n) + BitsOf(b, m))[t]
    {
      StackedBit(v, b, n, t);
    }
  }

  lemma StackFits(v: nat, b: nat, n: nat, m: nat)
    requires v < Pow2(n) && b < Pow2(m)
    ensures v + Shl(b, n) < Pow2(n + m)
  {
    ShlMonotone(b + 1, Pow2(m), n);
    ShlAdd(b, 1, n);
    ShlShl(1, m, n);
  }

  lemma {:induction false} ShrBit(v: nat, s: nat, t: nat)
    ensures WindowBit(Shr(v, s), t) == WindowBit(v, s + t)
  {
    if s > 0 { ShrBit(v / 2, s - 1, t); }
  }

  lemma {:induction false} ShrFits(v: nat, s: nat, n: nat)
    requires s <= n && v < Pow2(n)
    ensures Shr(v, s) < Pow2(n - s)
  {
    if s > 0 { ShrFits(v / 2, s - 1, n - 1); }
  }

  lemma BitsDrop(v: nat, s: nat, n: nat)
    requires s <= n
    ensures BitsOf(v, n) == BitsOf(v, s) + BitsOf(Shr(v, s), n - s)
  {
    forall t | s <= t < n ensures BitsOf(v, n)[t] == BitsOf(Shr(v, s), n - s)[t - s] {
      ShrBit(v, s, t - s);
    }
  }

  lemma BitsLow(v: nat, n: nat)
    ensures BitsOf(Low(v, n), n) == BitsOf(v, n)
  {
    forall t | 0 <= t < n ensures WindowBit(Low(v, n), t) == WindowBit(v, t) {
      LowBit(v, n, t);
    }
  }

  lemma BitsZero(n: nat)
    ensures BitsOf(0, n) == Zeros(n)
  {
    forall t | 0 <= t < n ensures WindowBit(0, t) == 0 { ZeroBit(t); }
  }

  /** A window starts with a code word exactly when the stream it was taken from does. */
  lemma WindowOfStream(ls: seq<nat>, j: nat, v: nat, n: nat, rest: seq<nat>)
    requires Lengths(ls) && j < |ls| && ls[j] > 0 && n >= 16
    ensures StartsWith(ls, j, v) <==> CodeWord(ls, j) <= BitsOf(v, n) + rest
    ensures StartsWith(ls, j, v) ==> CodeWord(ls, j) == BitsOf(v, ls[j])
  {
    var w, stream := CodeWord(ls, j), BitsOf(v, n) + rest;
    assert forall t :: 0 <= t < ls[j] ==> w[t] == CodeBit(CodeOf(ls, j), ls[j], t) && stream[t] == WindowBit(v, t);
    assert w <= stream <==> forall t :: 0 <= t < ls[j] ==> w[t] == stream[t];
    if StartsWith(ls, j, v) {
      assert w == stream[..ls[j]];
    }
  }

  /** No stream starts with two code words. */
  lemma CodeWordUnique(ls: seq<nat>, i: nat, j: nat, stream: seq<nat>)
    requires Feasible(ls) && i < |ls| && j < |ls| && ls[i] > 0 && ls[j] > 0
    requires CodeWord(ls, i) <= stream && CodeWord(ls, j) <= stream
    ensures i == j
  {
    if ls[i] <= ls[j] { ShorterCodeWord(ls, i, j); } else { ShorterCodeWord(ls, j, i); }
  }

  lemma ShorterCodeWord(ls: seq<nat>, i: nat, j: nat)
    requires Feasible(ls) && i < |ls| && j < |ls| && 0 < ls[i] <= ls[j]
    requires CodeWord(ls, i) <= CodeWord(ls, j)
    ensures i == j
  {
    var w := Rev(CodeOf(ls, j), ls[j]);
    forall t | 0 <= t < ls[j] ensures CodeBit(CodeOf(ls, j), ls[j], t) == WindowBit(w, t) {
      RevWindow(CodeOf(ls, j), ls[j], t);
    }
    forall t | 0 <= t < ls[i] ensures CodeBit(CodeOf(ls, i), ls[i], t) == WindowBit(w, t) {
      assert CodeWord(ls, i)[t] == CodeWord(ls, j)[t];
    }
    PrefixFree(ls, i, j, w);
  }

  /** The stream, with zero bits supplied behind its end, starts with `w`. */
  ghost predicate Starts(s: seq<nat>, w: seq<nat>) {
    forall t :: 0 <= t < |w| ==> w[t] == if t < |s| then s[t] else 0
  }

  lemma StartsPadded(s: seq<nat>, n: nat, w: seq<nat>)
    requires |w| <= |s| + n
    ensures Starts(s, w) <==> w <= s + Zeros(n)
  {
    var padded := s + Zeros(n);
    assert forall t :: 0 <= t < |padded| ==> padded[t] == if t < |s| then s[t] else 0;
    assert w <= padded <==> forall t :: 0 <= t < |w| ==> w[t] == padded[t];
  }

  /** Even with supplied zero bits a stream starts with at most one code word. */
  lemma StartsUnique(ls: seq<nat>, i: nat, j: nat, s: seq<nat>)
    requires Feasible(ls) && i < |ls| && j < |ls| && ls[i] > 0 && ls[j] > 0
    requires Starts(s, CodeWord(ls, i)) && Starts(s, CodeWord(ls, j))
    ensures i == j
  {
    StartsPadded(s, 15, CodeWord(ls, i));
    StartsPadded(s, 15, CodeWord(ls, j));
    CodeWordUnique(ls, i, j, s + Zeros(15));
  }

  /** What has been taken off the padded stream is what it starts with. */
  lemma StartsRest(s: seq<nat>, n: nat, w: seq<nat>, left: seq<nat>, more: seq<nat>)
    requires s + Zeros(n) == w + left
    ensures Starts(s, w)
    ensures Starts(s, w + more) <==> Starts(left, more)
  {
    var padded := s + Zeros(n);
    assert forall t :: 0 <= t < |padded| ==> padded[t] == if t < |s| then s[t] else 0;
    assert forall t :: 0 <= t < |w| ==> w[t] == padded[t];
    assert forall t :: 0 <= t < |left| ==> left[t] == padded[|w| + t];
    if Starts(left, more) {
      forall t | 0 <= t < |w + more| ensures (w + more)[t] == if t < |s| then s[t] else 0 {
        if t >= |w| { assert (w + more)[t] == more[t - |w|]; }
      }
    }
    if Starts(s, w + more) {
      forall t | 0 <= t < |more| ensures more[t] == if t < |left| then left[t] else 0 {
        assert more[t] == (w + more)[|w| + t];
      }
    }
  }

  lemma StartsFirst(s: seq<nat>, w: seq<nat>, more: seq<nat>)
    requires Starts(s, w + more)
    ensures Starts(s, w)
  {
    forall t | 0 <= t < |w| ensures w[t] == if t < |s| then s[t] else 0 {
      assert w[t] == (w + more)[t];
    }
  }

  // ----- how full the buffer is

  /** Buffered bits, bytes still to be read, and whether the end has been padded once. */
  datatype Meter = Meter(bits: nat, bytes: nat, hit: bool)

  /** `stbi__fill_bits`: bytes, zero bytes past the end, until there are more than 24 bits. */
  function Refill(m: Meter): (r: Meter)
    requires m.bits <= 24
    ensures 24 < r.bits <= 32 && r.hit == m.hit
    decreases 24 - m.bits
  {
    var next := Meter(m.bits + 8, if m.bytes > 0 then m.bytes - 1 else 0, m.hit);
    if next.bits <= 24 then Refill(next) else next
  }

  /** Sixteen bits for a code word; at the end of the data only once more than there are. */
  function Window(m: Meter): (r: Option<Meter>)
    ensures r.Some? ==> r.value.bits >= 16
  {
    if m.bits >= 16 then Some(m)
    else if m.bytes > 0 then Some(Refill(m))
    else if m.hit then None
    else Some(Meter(m.bits + 16, 0, true))
  }

  /** After a code word of `l` bits; `None` where decoding gives up. */
  function AfterCode(m: Meter, l: nat): Option<Meter> {
    var w := Window(m);
    if w.None? || w.value.bits < l then None else Some(w.value.(bits := w.value.bits - l))
  }

  /** After `n` plain bits. */
  function AfterBits(m: Meter, n: nat): Meter
    requires n <= 24
  {
    var w := if m.bits < n then Refill(m) else m;
    w.(bits := w.bits - n)
  }

  /** `stbi__zbuf`; `capacity` is the largest output that `stbi__zexpand` can make room for. */
  class ZBuf {
    const zbuffer: seq<nat>
    const capacity: nat
    var zout: seq<nat>
    var pos: nat
    var num_bits: nat
    var code_buffer: nat
    var hit_zeof_once: bool
    /** All bits still to be read: the buffered ones, then the remaining bytes. */
    ghost var stream: seq<nat>

    ghost predicate Valid()
      reads this`pos, this`num_bits, this`code_buffer, this`stream
    {
      && (forall i :: 0 <= i < |zbuffer| ==> zbuffer[i] < 256)
      && pos <= |zbuffer| && num_bits <= 32 && code_buffer < Pow2(num_bits)
      && stream == BitsOf(code_buffer, num_bits) + ByteBits(zbuffer[pos..])
    }

    constructor (bytes: seq<nat>, capacity: nat)
      requires forall i :: 0 <= i < |bytes| ==> bytes[i] < 256
      ensures Valid() && stream == ByteBits(bytes) && Gauge() == Meter(0, |bytes|, false)
      ensures zbuffer == bytes && this.capacity == capacity && zout == []
    {
      zbuffer, this.capacity, zout := bytes, capacity, [];
      pos, num_bits, code_buffer, hit_zeof_once := 0, 0, 0, false;
      stream := ByteBits(bytes);
      new;
      assert zbuffer[0..] == bytes;
      assert BitsOf(0, 0) + ByteBits(bytes) == ByteBits(bytes);
    }

    ghost function Gauge(): Meter
      reads this`pos, this`num_bits, this`hit_zeof_once
    {
      Meter(num_bits, if pos <= |zbuffer| then |zbuffer| - pos else 0, hit_zeof_once)
    }

    lemma GaugeLength()
      requires Valid()
      ensures |stream| == Gauge().bits + 8 * Gauge().bytes
    {
      ByteBitsLength(zbuffer[pos..]);
    }

    /** `stbi__zeof`. */
    predicate Eof()
      reads this`pos
    {
      pos >= |zbuffer|
    }

    /** Behind the last byte, more bits are zero bits of the stream. */
    lemma PadStream(n: nat)
      requires Valid() && Eof()
      ensures code_buffer < Pow2(num_bits + n)
      ensures stream + Zeros(n) == BitsOf(code_buffer, num_bits + n) + ByteBits(zbuffer[pos..])
    {
      BitsStack(code_buffer, 0, num_bits, n);
      StackFits(code_buffer, 0, num_bits, n);
      ShlAdd(0, 0, num_bits);
      BitsZero(n);
      ghost var bits := BitsOf(code_buffer, num_bits);
      assert ByteBits(zbuffer[pos..]) == [];
      assert bits + Zeros(n) + [] == bits + [] + Zeros(n);
    }

    /** The next byte behind the buffered bits is what the stream has there. */
    lemma NextByteStream()
      requires Valid() && !Eof()
      ensures code_buffer + Shl(zbuffer[pos], num_bits) < Pow2(num_bits + 8)
      ensures stream + Zeros(0)
           == BitsOf(code_buffer + Shl(zbuffer[pos], num_bits), num_bits + 8) + ByteBits(zbuffer[pos + 1..])
    {
      assert Pow2(8) == 256 by { assert Shl(1, 5) == 32; }
      var bits, byte, rest := BitsOf(code_buffer, num_bits), zbuffer[pos], ByteBits(zbuffer[pos + 1..]);
      BitsStack(code_buffer, byte, num_bits, 8);
      StackFits(code_buffer, byte, num_bits, 8);
      assert zbuffer[pos..][1..] == zbuffer[pos + 1..];
      assert bits + (BitsOf(byte, 8) + rest) == bits + BitsOf(byte, 8) + rest;
    }

    /** One round of `stbi__fill_bits`: the next byte, or a zero byte past the end, moves into the buffer. */
    method FillByte() returns (ghost pad: nat)
      requires Valid() && num_bits <= 24
      modifies this`pos, this`code_buffer, this`num_bits, this`stream
      ensures Valid() && num_bits == old(num_bits) + 8
      ensures stream == old(stream) + Zeros(pad)
      ensures (pad > 0 || old(Eof())) ==> Eof()
      ensures pos == if old(Eof()) then old(pos) else old(pos) + 1
    {
      hide ByteBits, BitsOf, Pow2;
      if Eof() {
        pad := 8;
        PadStream(8);
      } else {
        pad := 0;
        NextByteStream();
        code_buffer := code_buffer + Shl(zbuffer[pos], num_bits);
        pos := pos + 1;
      }
      num_bits := num_bits + 8;
      stream := stream + Zeros(pad);
    }

    /** `stbi__fill_bits`; its test for a buffer with bits above `num_bits` never fires. */
    method FillBits() returns (ghost pad: nat)
      requires Valid() && num_bits <= 24
      modifies this`pos, this`code_buffer, this`num_bits, this`stream
      ensures Valid() && Gauge() == Refill(old(Gauge()))
      ensures stream == old(stream) + Zeros(pad)
      ensures (pad > 0 || old(Eof())) ==> Eof()
    {
      hide ByteBits, BitsOf, Pow2;
      pad := FillByte();
      while num_bits <= 24
        invariant Valid()
        invariant Refill(old(Gauge())) == if num_bits <= 24 then Refill(Gauge()) else Gauge()
        invariant stream == old(stream) + Zeros(pad)
        invariant (pad > 0 || old(Eof())) ==> Eof()
        decreases 32 - num_bits
      {
        assert code_buffer < Pow2(num_bits);
        ghost var more := FillByte();
        assert old(stream) + Zeros(pad) + Zeros(more) == old(stream) + Zeros(pad + more);
        pad := pad + more;
      }
    }

    /** Drop `s` buffered bits. */
    method Consume(s: nat)
      requires Valid() && s <= num_bits
      modifies this`code_buffer, this`num_bits, this`stream
      ensures Valid() && num_bits == old(num_bits) - s
      ensures old(stream) == BitsOf(old(code_buffer), s) + stream
    {
      BitsDrop(code_buffer, s, num_bits);
      ShrFits(code_buffer, s, num_bits);
      ghost var rest := ByteBits(zbuffer[pos..]);
      assert BitsOf(code_buffer, s) + BitsOf(Shr(code_buffer, s), num_bits - s) + rest
          == BitsOf(code_buffer, s) + (BitsOf(Shr(code_buffer, s), num_bits - s) + rest);
      code_buffer := Shr(code_buffer, s);
      num_bits := num_bits - s;
      stream := stream[s..];
    }

    /** `stbi__zreceive`: an `n`-bit number, low bit first. */
    method Receive(n: nat) returns (k: nat, ghost pad: nat)
      requires Valid() && n <= 24
      modifies this`pos, this`code_buffer, this`num_bits, this`stream
      ensures Valid() && k < Pow2(n)
      ensures old(stream) + Zeros(pad) == BitsOf(k, n) + stream
      ensures (pad > 0 || old(Eof())) ==> Eof()
      ensures Gauge() == AfterBits(old(Gauge()), n)
    {
      pad := 0;
      assert old(stream) + Zeros(0) == old(stream);
      if num_bits < n { pad := FillBits(); }
      k := Low(code_buffer, n);
      BitsLow(code_buffer, n);
      Consume(n);
    }

    /** The end-of-data handling at the top of `stbi__zhuffman_decode`. */
    method EnsureWindow() returns (ok: bool, ghost pad: nat)
      requires Valid()
      modifies this`pos, this`code_buffer, this`num_bits, this`stream, this`hit_zeof_once
      ensures Valid()
      ensures ok <==> Window(old(Gauge())).Some?
      ensures ok ==> Gauge() == Window(old(Gauge())).value
      ensures !ok ==> Gauge() == old(Gauge())
      ensures stream == old(stream) + Zeros(pad)
      ensures (pad > 0 || old(Eof())) ==> Eof()
    {
      pad := 0;
      assert old(stream) + Zeros(0) == old(stream);
      if num_bits < 16 {
        if Eof() {
          if !hit_zeof_once {
            hit_zeof_once := true;
            PadStream(16);
            num_bits := num_bits + 16;
            pad := 16;
            stream := stream + Zeros(pad);
          } else {
            return false, pad;
          }
        } else {
          pad := FillBits();
        }
      }
      ok := true;
    }

    /**
     `stbi__zhuffman_decode`: takes exactly one code word off the stream, or reports that the stream
     starts with none.  `pad` counts the zero bits supplied past the end of the data.
     */
    method HuffmanDecode(z: ZHuffman, ghost ls: seq<nat>) returns (sym: int, ghost pad: nat)
      requires Valid() && z.Represents(ls)
      modifies this`pos, this`code_buffer, this`num_bits, this`stream, this`hit_zeof_once
      ensures Valid() && ((pad > 0 || old(Eof())) ==> Eof())
      ensures sym >= 0 ==>
                && sym < |ls| && 0 < ls[sym] <= 15
                && old(stream) + Zeros(pad) == CodeWord(ls, sym) + stream
                && Some(Gauge()) == AfterCode(old(Gauge()), ls[sym])
      ensures sym < 0 ==>
                && sym == -1
                && stream == old(stream) + Zeros(pad)
                && (Window(old(Gauge())).None?
                    || forall j: nat :: j < |ls| && ls[j] > 0 ==> !Starts(old(stream), CodeWord(ls, j)))
    {
      var ok;
      ok, pad := EnsureWindow();
      if !ok { return -1, pad; }
      var s;
      sym, s := z.Lookup(code_buffer, ls);
      forall j: nat | j < |ls| && ls[j] > 0
        ensures StartsWith(ls, j, code_buffer) <==> CodeWord(ls, j) <= stream
        ensures StartsWith(ls, j, code_buffer) ==> CodeWord(ls, j) == BitsOf(code_buffer, ls[j])
      {
        WindowOfStream(ls, j, code_buffer, num_bits, ByteBits(zbuffer[pos..]));
      }
      if sym >= 0 {
        Consume(s);
      } else {
        forall j: nat | j < |ls| && ls[j] > 0 ensures !Starts(old(stream), CodeWord(ls, j)) {
          StartsPadded(old(stream), pad, CodeWord(ls, j));
        }
      }
    }
  }
}
