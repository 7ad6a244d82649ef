/**
 Decoding one compressed DEFLATE block (`stbi__parse_huffman_block`), against the encoding of
 section 3.2.5 of RFC 1951: a run of literals and back references, closed by end-of-block.
 */
module Inflate {
  import opened Basics
  import opened CanonicalCode
  import opened ZlibHuffman
  import opened ZlibBuffer

  const LENGTH_BASE: seq<nat> :=
    [3, 4, 5, 6, 7, 8, 9, 10, 11, 13, 15, 17, 19, 23, 27, 31, 35, 43, 51, 59,
     67, 83, 99, 115, 131, 163, 195, 227, 258]
  const LENGTH_EXTRA: seq<nat> :=
    [0, 0, 0, 0, 0, 0, 0, 0, 1, 1, 1, 1, 2, 2, 2, 2, 3, 3, 3, 3, 4, 4, 4, 4, 5, 5, 5, 5, 0]
  const DIST_BASE: seq<nat> :=
    [1, 2, 3, 4, 5, 7, 9, 13, 17, 25, 33, 49, 65, 97, 129, 193, 257, 385, 513, 769,
     1025, 1537, 2049, 3073, 4097, 6145, 8193, 12289, 16385, 24577]
  const DIST_EXTRA: seq<nat> :=
    [0, 0, 0, 0, 1, 1, 2, 2, 3, 3, 4, 4, 5, 5, 6, 6, 7, 7, 8, 8, 9, 9, 10, 10, 11, 11, 12, 12, 13, 13]

  const END_OF_BLOCK := 256
  const NUM_LENGTHS := 29
  const NUM_DISTS := 30

  function LengthBase(z: nat): (r: nat)
    requires z < NUM_LENGTHS
    ensures r >= 3
  {
    LENGTH_BASE[z]
  }

  function LengthExtra(z: nat): (r: nat)
    requires z < NUM_LENGTHS
    ensures r <= 5
  {
    LENGTH_EXTRA[z]
  }

  function DistBase(d: nat): (r: nat)
    requires d < NUM_DISTS
    ensures r >= 1
  {
    DIST_BASE[d]
  }

  function DistExtra(d: nat): (r: nat)
    requires d < NUM_DISTS
    ensures r <= 13
  {
    DIST_EXTRA[d]
  }

  // ----- what a block means

  /** A literal byte, or a back reference by length code, distance code and their extra bits. */
  datatype Token = Literal(b: nat) | Match(z: nat, le: nat, d: nat, de: nat)

  datatype Item = Tok(t: Token) | End

  predicate Used(ls: seq<nat>, j: nat) {
    j < |ls| && ls[j] > 0
  }

  predicate DistOk(d: nat, de: nat, dl: seq<nat>) {
    d < NUM_DISTS && Used(dl, d) && de < Pow2(DistExtra(d))
  }

  ghost function DistBits(d: nat, de: nat, dl: seq<nat>): seq<nat>
    requires DistOk(d, de, dl)
  {
    CodeWord(dl, d) + BitsOf(de, DistExtra(d))
  }

  predicate MatchTailOk(t: Token, z: nat, dl: seq<nat>) {
    t.Match? && t.z == z < NUM_LENGTHS && t.le < Pow2(LengthExtra(z)) && DistOk(t.d, t.de, dl)
  }

  ghost function MatchTail(t: Token, dl: seq<nat>): seq<nat>
    requires t.Match? && MatchTailOk(t, t.z, dl)
  {
    BitsOf(t.le, LengthExtra(t.z)) + DistBits(t.d, t.de, dl)
  }

  /** The codes with lengths `ll` (literals and lengths) and `dl` (distances) can express the item. */
  predicate Encodable(i: Item, ll: seq<nat>, dl: seq<nat>) {
    match i
    case End => Used(ll, END_OF_BLOCK)
    case Tok(Literal(b)) => b < 256 && Used(ll, b)
    case Tok(t) => Used(ll, 257 + t.z) && MatchTailOk(t, t.z, dl)
  }

  ghost function EncodeItem(i: Item, ll: seq<nat>, dl: seq<nat>): seq<nat>
    requires Encodable(i, ll, dl)
  {
    match i
    case End => CodeWord(ll, END_OF_BLOCK)
    case Tok(Literal(b)) => CodeWord(ll, b)
    case Tok(t) => CodeWord(ll, 257 + t.z) + MatchTail(t, dl)
  }

  ghost predicate AllEncodable(ts: seq<Token>, ll: seq<nat>, dl: seq<nat>) {
    forall k :: 0 <= k < |ts| ==> Encodable(Tok(ts[k]), ll, dl)
  }

  ghost function Encode(ts: seq<Token>, ll: seq<nat>, dl: seq<nat>): seq<nat>
    requires AllEncodable(ts, ll, dl)
  {
    if ts == [] then [] else EncodeItem(Tok(ts[0]), ll, dl) + Encode(ts[1..], ll, dl)
  }

  /** Repeat the output `dist` bytes back, byte by byte, so that a copy may overlap itself. */
  function Copy(out: seq<nat>, dist: nat, len: nat): (r: seq<nat>)
    requires 0 < dist <= |out|
    ensures |r| == |out| + len
    decreases len
  {
    if len == 0 then out else Copy(out + [out[|out| - dist]], dist, len - 1)
  }

  function TokenLength(t: Token): (n: nat)
    requires t.Match? ==> t.z < NUM_LENGTHS
    ensures n > 0
  {
    match t case Literal(_) => 1 case Match(z, le, _, _) => LengthBase(z) + le
  }

  /** The token only refers back to bytes that exist. */
  predicate Playable(out: seq<nat>, t: Token) {
    t.Match? ==> t.z < NUM_LENGTHS && t.d < NUM_DISTS && DistBase(t.d) + t.de <= |out|
  }

  function Play(out: seq<nat>, t: Token): (r: seq<nat>)
    requires Playable(out, t)
    ensures |r| == |out| + TokenLength(t)
  {
    match t
    case Literal(b) => out + [b]
    case Match(z, le, d, de) => Copy(out, DistBase(d) + de, LengthBase(z) + le)
  }

  /** The output a token run stands for, if all its back references exist. */
  function Expand(out: seq<nat>, ts: seq<Token>): (r: Option<seq<nat>>)
    ensures r.Some? ==> |r.value| >= |out|
    decreases ts
  {
    if ts == [] then Some(out)
    else if Playable(out, ts[0]) then Expand(Play(out, ts[0]), ts[1..]) else None
  }

  /** A copy keeps what is there, and every new byte is the one `dist` before it. */
  lemma {:induction false} CopyRepeats(out: seq<nat>, dist: nat, len: nat)
    requires 0 < dist <= |out|
    ensures out <= Copy(out, dist, len) && |Copy(out, dist, len)| == |out| + len
    ensures forall i :: |out| <= i < |out| + len ==> Copy(out, dist, len)[i] == Copy(out, dist, len)[i - dist]
    decreases len
  {
    if len > 0 {
      var next := out + [out[|out| - dist]];
      CopyRepeats(next, dist, len - 1);
      assert Copy(out, dist, len)[|out|] == next[|out|] && Copy(out, dist, len)[|out| - dist] == next[|out| - dist];
    }
  }

  // ----- the ranges of section 3.2.5 of RFC 1951, without the tables

  /** How many extra bits follow a length code, and a distance code. */
  lemma ExtraBits(z: nat, d: nat)
    requires z < NUM_LENGTHS && d < NUM_DISTS
    ensures LengthExtra(z) == if z < 4 || z == 28 then 0 else z / 4 - 1
    ensures DistExtra(d) == if d < 2 then 0 else d / 2 - 1
  {
    LengthTable(z);
    DistTable(d);
  }

  lemma LengthTable(z: nat)
    requires z < NUM_LENGTHS
    ensures LENGTH_EXTRA[z] == if z < 4 || z == 28 then 0 else z / 4 - 1
  {
  }

  lemma DistTable(d: nat)
    requires d < NUM_DISTS
    ensures DIST_EXTRA[d] == if d < 2 then 0 else d / 2 - 1
  {
  }

  /** The lengths of one code end where those of the next begin; only 258 has a code of its own as well. */
  lemma LengthsTile(z: nat)
    requires z < NUM_LENGTHS
    ensures LengthBase(0) == 3 && LengthBase(28) == 258
    ensures z < 27 ==> LengthBase(z + 1) == LengthBase(z) + Pow2(LengthExtra(z))
    ensures z == 27 ==> LengthBase(z) + Pow2(LengthExtra(z)) == 259
  {
    SmallPowers();
    hide Pow2;
    if z < 9 {} else if z < 19 {} else {}
  }

  lemma DistsTile(d: nat)
    requires d < NUM_DISTS
    ensures DistBase(0) == 1
    ensures DistBase(d) + Pow2(DistExtra(d)) == if d == 29 then 32769 else DistBase(d + 1)
  {
    SmallPowers();
    hide Pow2;
  }

  lemma SmallPowers()
    ensures Pow2(0) == 1 && Pow2(1) == 2 && Pow2(2) == 4 && Pow2(3) == 8 && Pow2(4) == 16 && Pow2(5) == 32
    ensures Pow2(6) == 64 && Pow2(7) == 128 && Pow2(8) == 256 && Pow2(9) == 512 && Pow2(10) == 1024
    ensures Pow2(11) == 2048 && Pow2(12) == 4096 && Pow2(13) == 8192
  {
    assert Pow2(4) == 16;
    assert Pow2(8) == 16 * Pow2(4);
    assert Pow2(12) == 16 * Pow2(8);
  }

  /** Every length from 3 to 258 has a code and extra bits. */
  lemma {:induction false} LengthHasCode(n: nat, z: nat) returns (c: nat, le: nat)
    requires z < 28 && LengthBase(z) <= n <= 258
    ensures z <= c < 28 && le < Pow2(LengthExtra(c)) && LengthBase(c) + le == n
    decreases 28 - z
  {
    LengthsTile(z);
    hide LengthBase, LengthExtra, Pow2;
    if n < LengthBase(z) + Pow2(LengthExtra(z)) {
      c, le := z, n - LengthBase(z);
    } else {
      c, le := LengthHasCode(n, z + 1);
    }
  }

  /** Every distance from 1 to 32768 has a code and extra bits. */
  lemma {:induction false} DistHasCode(n: nat, d: nat) returns (c: nat, de: nat)
    requires d < NUM_DISTS && DistBase(d) <= n <= 32768
    ensures d <= c < NUM_DISTS && de < Pow2(DistExtra(c)) && DistBase(c) + de == n
    decreases NUM_DISTS - d
  {
    DistsTile(d);
    hide DistBase, DistExtra, Pow2;
    if n < DistBase(d) + Pow2(DistExtra(d)) {
      c, de := d, n - DistBase(d);
    } else {
      c, de := DistHasCode(n, d + 1);
    }
  }

  /** The lengths of a code lie below those of every later one. */
  lemma {:induction false} LengthsOrdered(z: nat, z': nat)
    requires z < z' < 28
    ensures LengthBase(z) + Pow2(LengthExtra(z)) <= LengthBase(z')
  {
    LengthsTile(z' - 1);
    hide LengthBase, LengthExtra, Pow2;
    if z < z' - 1 {
      LengthsOrdered(z, z' - 1);
      LengthsTile(z);
    }
  }

  lemma {:induction false} DistsOrdered(d: nat, d': nat)
    requires d < d' < NUM_DISTS
    ensures DistBase(d) + Pow2(DistExtra(d)) <= DistBase(d')
  {
    DistsTile(d' - 1);
    hide DistBase, DistExtra, Pow2;
    if d < d' - 1 { DistsOrdered(d, d' - 1); }
  }

  /** `t` is written with codes other than the extra one for 258, and says `len` bytes from `dist` back. */
  predicate Says(t: Token, len: nat, dist: nat) {
    && t.Match? && t.z < 28 && t.d < NUM_DISTS && t.le < Pow2(LengthExtra(t.z)) && t.de < Pow2(DistExtra(t.d))
    && TokenLength(t) == len && DistBase(t.d) + t.de == dist
  }

  /** Every length and distance of DEFLATE has exactly one such token. */
  lemma MatchExists(len: nat, dist: nat) returns (t: Token)
    requires 3 <= len <= 258 && 1 <= dist <= 32768
    ensures Says(t, len, dist) && forall u: Token :: Says(u, len, dist) ==> u == t
  {
    LengthsTile(0);
    DistsTile(0);
    var z, le := LengthHasCode(len, 0);
    var d, de := DistHasCode(dist, 0);
    t := Match(z, le, d, de);
    assert Says(t, len, dist);
    hide Says, LengthBase, LengthExtra, DistBase, DistExtra, Pow2;
    forall u: Token | Says(u, len, dist) ensures u == t { SaysOnce(u, t, len, dist); }
  }

  lemma SaysOnce(u: Token, t: Token, len: nat, dist: nat)
    requires Says(u, len, dist) && Says(t, len, dist)
    ensures u == t
  {
    hide LengthBase, LengthExtra, DistBase, DistExtra, Pow2;
    if u.z < t.z { LengthsOrdered(u.z, t.z); } else if u.z > t.z { LengthsOrdered(t.z, u.z); }
    if u.d < t.d { DistsOrdered(u.d, t.d); } else if u.d > t.d { DistsOrdered(t.d, u.d); }
  }

  /** And no token says any other length or distance. */
  lemma MatchInRange(t: Token)
    requires t.Match? && t.z < NUM_LENGTHS && t.d < NUM_DISTS && t.le < Pow2(LengthExtra(t.z)) && t.de < Pow2(DistExtra(t.d))
    ensures 3 <= TokenLength(t) <= 258 && 1 <= DistBase(t.d) + t.de <= 32768
  {
    LengthsTile(t.z);
    DistsTile(t.d);
    ExtraBits(t.z, t.d);
    SmallPowers();
    hide Pow2;
    if t.z < 27 { LengthsOrdered(t.z, 27); LengthsTile(27); }
    if t.d < 29 { DistsOrdered(t.d, 29); DistsTile(29); }
  }

  // ----- laws of encoding and expansion

  lemma {:induction false} EncodeAppend(ts: seq<Token>, t: Token, ll: seq<nat>, dl: seq<nat>)
    requires AllEncodable(ts, ll, dl) && Encodable(Tok(t), ll, dl)
    ensures AllEncodable(ts + [t], ll, dl)
    ensures Encode(ts + [t], ll, dl) == Encode(ts, ll, dl) + EncodeItem(Tok(t), ll, dl)
  {
    hide EncodeItem, Encodable;
    var all := ts + [t];
    if ts == [] {
      assert all[1..] == [];
    } else {
      EncodeAppend(ts[1..], t, ll, dl);
      assert all[1..] == ts[1..] + [t];
    }
  }

  lemma {:induction false} ExpandAppend(out: seq<nat>, ts: seq<Token>, t: Token)
    requires Expand(out, ts).Some? && Playable(Expand(out, ts).value, t)
    ensures Expand(out, ts + [t]) == Some(Play(Expand(out, ts).value, t))
    decreases ts
  {
    var all := ts + [t];
    if ts == [] {
      assert all[1..] == [];
    } else {
      ExpandAppend(Play(out, ts[0]), ts[1..], t);
      assert all[1..] == ts[1..] + [t];
    }
  }

  /** The literal/length symbol that announces an item. */
  function SymbolOf(i: Item): nat {
    match i case End => END_OF_BLOCK case Tok(Literal(b)) => b case Tok(t) => 257 + t.z
  }

  /** What follows the symbol in an item's encoding. */
  ghost function AfterSymbol(i: Item, ll: seq<nat>, dl: seq<nat>): seq<nat>
    requires Encodable(i, ll, dl)
  {
    if i.Tok? && i.t.Match? then MatchTail(i.t, dl) else []
  }

  // ----- how far the buffer is used

  /** After distance code `d` and its extra bits. */
  function DistMeter(m: Meter, d: nat, dl: seq<nat>): Option<Meter>
    requires d < NUM_DISTS && Used(dl, d)
  {
    var c := AfterCode(m, dl[d]);
    if c.None? then None else Some(AfterBits(c.value, DistExtra(d)))
  }

  function MatchMeter(m: Meter, t: Token, dl: seq<nat>): Option<Meter>
    requires t.Match? && MatchTailOk(t, t.z, dl)
  {
    DistMeter(AfterBits(m, LengthExtra(t.z)), t.d, dl)
  }

  /** After one item, in the order in which `stbi__parse_huffman_block` reads its parts. */
  function ItemMeter(m: Meter, i: Item, ll: seq<nat>, dl: seq<nat>): Option<Meter>
    requires Encodable(i, ll, dl)
  {
    var c := AfterCode(m, ll[SymbolOf(i)]);
    if c.Some? && i.Tok? && i.t.Match? then MatchMeter(c.value, i.t, dl) else c
  }

  ghost function RunMeter(m: Meter, ts: seq<Token>, ll: seq<nat>, dl: seq<nat>): Option<Meter>
    requires AllEncodable(ts, ll, dl)
    decreases ts
  {
    if ts == [] then Some(m)
    else
      var n := ItemMeter(m, Tok(ts[0]), ll, dl);
      if n.None? then None else RunMeter(n.value, ts[1..], ll, dl)
  }

  /** The end-of-data tests let a whole block pass that is read with the buffer at `m`. */
  ghost predicate Passes(m: Meter, ts: seq<Token>, ll: seq<nat>, dl: seq<nat>)
    requires AllEncodable(ts, ll, dl) && Encodable(End, ll, dl)
  {
    var n := RunMeter(m, ts, ll, dl);
    n.Some? &&
    var last := ItemMeter(n.value, End, ll, dl);
    last.Some? && !(last.value.hit && last.value.bits < 16)
  }

  lemma {:induction false} MeterAppend(m: Meter, ts: seq<Token>, t: Token, ll: seq<nat>, dl: seq<nat>)
    requires AllEncodable(ts, ll, dl) && Encodable(Tok(t), ll, dl) && RunMeter(m, ts, ll, dl).Some?
    ensures AllEncodable(ts + [t], ll, dl)
    ensures RunMeter(m, ts + [t], ll, dl) == ItemMeter(RunMeter(m, ts, ll, dl).value, Tok(t), ll, dl)
    decreases ts
  {
    var all := ts + [t];
    if ts == [] {
      assert all[1..] == [];
    } else {
      MeterAppend(ItemMeter(m, Tok(ts[0]), ll, dl).value, ts[1..], t, ll, dl);
      assert all[1..] == ts[1..] + [t];
    }
  }

  // ----- what the stream may hold

  /** The tokens' back references exist and their output fits. */
  predicate Fits(out: seq<nat>, capacity: nat, ts: seq<Token>) {
    Expand(out, ts).Some? && (ts == [] || |Expand(out, ts).value| <= capacity)
  }

  ghost predicate ReadsDist(s: seq<nat>, m: Meter, d: nat, de: nat, dl: seq<nat>) {
    DistOk(d, de, dl) && Starts(s, DistBits(d, de, dl)) && DistMeter(m, d, dl).Some?
  }

  ghost predicate ReadsMatch(s: seq<nat>, m: Meter, t: Token, z: nat, dl: seq<nat>) {
    MatchTailOk(t, z, dl) && Starts(s, MatchTail(t, dl)) && MatchMeter(m, t, dl).Some?
  }

  /** The item is next on the stream, zero bits supplied behind its end included, and can be read. */
  ghost predicate Reads(s: seq<nat>, m: Meter, i: Item, ll: seq<nat>, dl: seq<nat>) {
    Encodable(i, ll, dl) && Starts(s, EncodeItem(i, ll, dl)) && ItemMeter(m, i, ll, dl).Some?
  }

  ghost function BlockBits(ts: seq<Token>, ll: seq<nat>, dl: seq<nat>): seq<nat>
    requires AllEncodable(ts, ll, dl) && Encodable(End, ll, dl)
  {
    Encode(ts, ll, dl) + EncodeItem(End, ll, dl)
  }

  /**
   What `stbi__parse_huffman_block` accepts: the block of `ts` is next on the stream, zero bits supplied
   behind its end included, its output fits, and no end-of-data test stops it.
   */
  ghost predicate Accepts(s: seq<nat>, m: Meter, out: seq<nat>, capacity: nat, ts: seq<Token>,
                          ll: seq<nat>, dl: seq<nat>)
  {
    && AllEncodable(ts, ll, dl) && Encodable(End, ll, dl)
    && Starts(s, BlockBits(ts, ll, dl))
    && Fits(out, capacity, ts)
    && Passes(m, ts, ll, dl)
  }

  lemma {:induction false} BitsInjective(x: nat, y: nat, n: nat)
    requires x < Pow2(n) && y < Pow2(n) && BitsOf(x, n) == BitsOf(y, n)
    ensures x == y
  {
    if n > 0 {
      forall t | 0 <= t < n - 1 ensures WindowBit(x / 2, t) == WindowBit(y / 2, t) {
        assert BitsOf(x, n)[t + 1] == BitsOf(y, n)[t + 1];
      }
      assert BitsOf(x / 2, n - 1) == BitsOf(y / 2, n - 1);
      BitsInjective(x / 2, y / 2, n - 1);
      assert BitsOf(x, n)[0] == BitsOf(y, n)[0];
    }
  }

  lemma ItemUnique(s: seq<nat>, i: Item, j: Item, ll: seq<nat>, dl: seq<nat>)
    requires Feasible(ll) && Feasible(dl) && Encodable(i, ll, dl) && Encodable(j, ll, dl)
    requires Starts(s, EncodeItem(i, ll, dl)) && Starts(s, EncodeItem(j, ll, dl))
    ensures i == j
  {
    hide CodeWord, Starts, BitsOf, Pow2, LengthExtra, DistExtra;
    SplitItem(i, ll, dl);
    SplitItem(j, ll, dl);
    StartsFirst(s, CodeWord(ll, SymbolOf(i)), AfterSymbol(i, ll, dl));
    StartsFirst(s, CodeWord(ll, SymbolOf(j)), AfterSymbol(j, ll, dl));
    StartsUnique(ll, SymbolOf(i), SymbolOf(j), s);
    if i.Tok? && i.t.Match? {
      var left := Behind(s, CodeWord(ll, SymbolOf(i)));
      StartsBehind(s, CodeWord(ll, SymbolOf(i)), AfterSymbol(i, ll, dl));
      StartsBehind(s, CodeWord(ll, SymbolOf(j)), AfterSymbol(j, ll, dl));
      MatchUnique(left, i.t, j.t, dl);
    }
  }

  lemma MatchUnique(s: seq<nat>, i: Token, j: Token, dl: seq<nat>)
    requires Feasible(dl) && i.Match? && MatchTailOk(i, i.z, dl) && MatchTailOk(j, i.z, dl)
    requires Starts(s, MatchTail(i, dl)) && Starts(s, MatchTail(j, dl))
    ensures i == j
  {
    hide CodeWord, BitsOf, Pow2, LengthExtra, DistExtra;
    var n := LengthExtra(i.z);
    BitsStart(s, i.le, j.le, n, DistBits(i.d, i.de, dl), DistBits(j.d, j.de, dl));
    var left := Behind(s, BitsOf(i.le, n));
    StartsBehind(s, BitsOf(i.le, n), DistBits(i.d, i.de, dl));
    StartsBehind(s, BitsOf(i.le, n), DistBits(j.d, j.de, dl));
    StartsFirst(left, CodeWord(dl, i.d), BitsOf(i.de, DistExtra(i.d)));
    StartsFirst(left, CodeWord(dl, j.d), BitsOf(j.de, DistExtra(j.d)));
    StartsUnique(dl, i.d, j.d, left);
    var w := CodeWord(dl, i.d);
    StartsBehind(left, w, BitsOf(i.de, DistExtra(i.d)));
    StartsBehind(left, w, BitsOf(j.de, DistExtra(i.d)));
    var last := Behind(left, w);
    assert BitsOf(i.de, DistExtra(i.d)) + [] == BitsOf(i.de, DistExtra(i.d));
    assert BitsOf(j.de, DistExtra(i.d)) + [] == BitsOf(j.de, DistExtra(i.d));
    BitsStart(last, i.de, j.de, DistExtra(i.d), [], []);
  }

  /** What is left behind `w`. */
  function Behind(s: seq<nat>, w: seq<nat>): seq<nat> {
    if |w| <= |s| then s[|w|..] else []
  }

  lemma StartsBehind(s: seq<nat>, w: seq<nat>, more: seq<nat>)
    requires Starts(s, w)
    ensures Starts(s, w + more) <==> Starts(Behind(s, w), more)
  {
    var n := if |w| <= |s| then 0 else |w| - |s|;
    StartsPadded(s, n, w);
    assert s + Zeros(n) == w + Behind(s, w);
    StartsRest(s, n, w, Behind(s, w), more);
  }

  /** A number read off a stream is the only one that the stream starts with. */
  lemma BitsStart(s: seq<nat>, x: nat, y: nat, n: nat, restX: seq<nat>, restY: seq<nat>)
    requires x < Pow2(n) && y < Pow2(n)
    requires Starts(s, BitsOf(x, n) + restX) && Starts(s, BitsOf(y, n) + restY)
    ensures x == y
  {
    StartsFirst(s, BitsOf(x, n), restX);
    StartsFirst(s, BitsOf(y, n), restY);
    assert BitsOf(x, n) == BitsOf(y, n);
    BitsInjective(x, y, n);
  }

  lemma SplitItem(i: Item, ll: seq<nat>, dl: seq<nat>)
    requires Encodable(i, ll, dl)
    ensures Used(ll, SymbolOf(i))
    ensures EncodeItem(i, ll, dl) == CodeWord(ll, SymbolOf(i)) + AfterSymbol(i, ll, dl)
  {
  }

  // ----- reading one item

  /** Two reads in a row, each padded at the end, are one read padded at the end. */
  lemma Chain2(s0: seq<nat>, s1: seq<nat>, s2: seq<nat>, w1: seq<nat>, w2: seq<nat>, p1: nat, p2: nat)
    requires s0 + Zeros(p1) == w1 + s1 && s1 + Zeros(p2) == w2 + s2
    ensures s0 + Zeros(p1 + p2) == w1 + w2 + s2
  {
    assert s0 + Zeros(p1 + p2) == s0 + Zeros(p1) + Zeros(p2);
    assert w1 + s1 + Zeros(p2) == w1 + (s1 + Zeros(p2));
    assert w1 + (w2 + s2) == w1 + w2 + s2;
  }

  /** Distance code and extra distance bits of a back reference. */
  method ReadDist(a: ZBuf, zd: ZHuffman, ghost dl: seq<nat>) returns (ok: bool, d: nat, de: nat, ghost pad: nat)
    requires a.Valid() && zd.Represents(dl)
    modifies a`pos, a`code_buffer, a`num_bits, a`stream, a`hit_zeof_once
    ensures a.Valid() && ((pad > 0 || old(a.Eof())) ==> a.Eof())
    ensures ok ==>
              && DistOk(d, de, dl) && old(a.stream) + Zeros(pad) == DistBits(d, de, dl) + a.stream
              && Some(a.Gauge()) == DistMeter(old(a.Gauge()), d, dl)
    ensures !ok ==> forall wd: nat, wde: nat :: !ReadsDist(old(a.stream), old(a.Gauge()), wd, wde, dl)
  {
    hide CodeWord, Starts, BitsOf, Pow2, ZBuf.Valid, Refill;
    d, de := 0, 0;
    ghost var s0 := a.stream;
    var sym;
    sym, pad := a.HuffmanDecode(zd, dl);
    ghost var s1, pad1, pad2 := a.stream, pad, 0;
    ok := 0 <= sym < NUM_DISTS;
    if ok {
      d := sym;
      de, pad2 := a.Receive(DistExtra(d));
      Chain2(s0, s1, a.stream, CodeWord(dl, d), BitsOf(de, DistExtra(d)), pad1, pad2);
      pad := pad1 + pad2;
    } else {
      forall wd: nat, wde: nat | ReadsDist(s0, old(a.Gauge()), wd, wde, dl) ensures false {
        StartsFirst(s0, CodeWord(dl, wd), BitsOf(wde, DistExtra(wd)));
        if sym >= 0 {
          StartsRest(s0, pad1, CodeWord(dl, sym), s1, []);
          StartsUnique(dl, wd, sym, s0);
        }
      }
    }
  }

  /** What follows the length code of a back reference: extra length bits, then the distance. */
  method ReadMatch(a: ZBuf, zd: ZHuffman, ghost dl: seq<nat>, z: nat) returns (r: Option<Token>, ghost pad: nat)
    requires a.Valid() && zd.Represents(dl) && z < NUM_LENGTHS
    modifies a`pos, a`code_buffer, a`num_bits, a`stream, a`hit_zeof_once
    ensures a.Valid() && ((pad > 0 || old(a.Eof())) ==> a.Eof())
    ensures r.Some? ==>
              && MatchTailOk(r.value, z, dl)
              && old(a.stream) + Zeros(pad) == MatchTail(r.value, dl) + a.stream
              && Some(a.Gauge()) == MatchMeter(old(a.Gauge()), r.value, dl)
    ensures r.None? ==> forall t :: !ReadsMatch(old(a.stream), old(a.Gauge()), t, z, dl)
  {
    hide CodeWord, Starts, BitsOf, Pow2, ZBuf.Valid, Refill;
    ghost var s0, m0 := a.stream, a.Gauge();
    var le, pad1 := a.Receive(LengthExtra(z));
    ghost var s1, m1 := a.stream, a.Gauge();
    var ok, d, de, pad2 := ReadDist(a, zd, dl);
    pad := pad1 + pad2;
    r := None;
    if ok {
      r := Some(Match(z, le, d, de));
      Chain2(s0, s1, a.stream, BitsOf(le, LengthExtra(z)), DistBits(d, de, dl), pad1, pad2);
    } else {
      forall t | ReadsMatch(s0, m0, t, z, dl) ensures false {
        NoMatch(s0, m0, s1, m1, t, z, le, pad1, dl);
      }
    }
  }

  /** Behind the extra length bits `le`, what is left of any readable back reference is a readable distance. */
  lemma NoMatch(s0: seq<nat>, m0: Meter, s1: seq<nat>, m1: Meter, t: Token, z: nat, le: nat, pad: nat, dl: seq<nat>)
    requires z < NUM_LENGTHS && ReadsMatch(s0, m0, t, z, dl) && le < Pow2(LengthExtra(z))
    requires s0 + Zeros(pad) == BitsOf(le, LengthExtra(z)) + s1 && m1 == AfterBits(m0, LengthExtra(z))
    ensures ReadsDist(s1, m1, t.d, t.de, dl)
  {
    hide CodeWord, Starts, BitsOf, Pow2, Refill;
    var w := BitsOf(le, LengthExtra(z));
    StartsRest(s0, pad, w, s1, []);
    BitsStart(s0, t.le, le, LengthExtra(z), DistBits(t.d, t.de, dl), []);
    StartsRest(s0, pad, w, s1, DistBits(t.d, t.de, dl));
  }

  /** One round of reads in `stbi__parse_huffman_block`. */
  method ReadItem(a: ZBuf, zl: ZHuffman, zd: ZHuffman, ghost ll: seq<nat>, ghost dl: seq<nat>)
    returns (r: Option<Item>, ghost pad: nat)
    requires a.Valid() && zl.Represents(ll) && zd.Represents(dl)
    modifies a`pos, a`code_buffer, a`num_bits, a`stream, a`hit_zeof_once
    ensures a.Valid() && ((pad > 0 || old(a.Eof())) ==> a.Eof())
    ensures r.Some? ==>
              && Encodable(r.value, ll, dl)
              && old(a.stream) + Zeros(pad) == EncodeItem(r.value, ll, dl) + a.stream
              && Some(a.Gauge()) == ItemMeter(old(a.Gauge()), r.value, ll, dl)
    ensures r.None? ==> forall i :: !Reads(old(a.stream), old(a.Gauge()), i, ll, dl)
  {
    hide CodeWord, Starts, MatchTail, ZBuf.Valid, DistOk, Pow2, LengthExtra, Refill;
    ghost var s0, m0 := a.stream, a.Gauge();
    var sym;
    sym, pad := a.HuffmanDecode(zl, ll);
    ghost var s1, m1, pad1 := a.stream, a.Gauge(), pad;
    if 0 <= sym < 256 {
      return Some(Tok(Literal(sym))), pad;
    } else if sym == END_OF_BLOCK {
      return Some(End), pad;
    }
    r := None;
    if 0 <= sym < 286 {
      var m, more := ReadMatch(a, zd, dl, sym - 257);
      pad := pad1 + more;
      if m.Some? {
        Chain2(s0, s1, a.stream, CodeWord(ll, sym), MatchTail(m.value, dl), pad1, more);
        return Some(Tok(m.value)), pad;
      }
    }
    forall i | Reads(s0, m0, i, ll, dl) ensures false {
      ReadsSymbol(s0, m0, i, ll, dl);
      if sym >= 0 { NoItem(s0, m0, s1, m1, i, sym, pad1, ll, dl); }
    }
  }

  lemma ReadsSymbol(s: seq<nat>, m: Meter, i: Item, ll: seq<nat>, dl: seq<nat>)
    requires Reads(s, m, i, ll, dl)
    ensures Used(ll, SymbolOf(i)) && Starts(s, CodeWord(ll, SymbolOf(i))) && Window(m).Some?
  {
    SplitItem(i, ll, dl);
    StartsFirst(s, CodeWord(ll, SymbolOf(i)), AfterSymbol(i, ll, dl));
  }

  /** A readable item has the symbol that was read, and behind that symbol its rest is readable. */
  lemma NoItem(s0: seq<nat>, m0: Meter, s1: seq<nat>, m1: Meter, i: Item, sym: nat, pad: nat, ll: seq<nat>, dl: seq<nat>)
    requires Feasible(ll) && Reads(s0, m0, i, ll, dl) && Used(ll, sym)
    requires s0 + Zeros(pad) == CodeWord(ll, sym) + s1 && Some(m1) == AfterCode(m0, ll[sym])
    ensures sym == SymbolOf(i)
    ensures i.Tok? && i.t.Match? ==> ReadsMatch(s1, m1, i.t, sym - 257, dl)
  {
    hide CodeWord, Starts, MatchTail, Pow2, Refill;
    ReadsSymbol(s0, m0, i, ll, dl);
    SplitItem(i, ll, dl);
    StartsRest(s0, pad, CodeWord(ll, sym), s1, AfterSymbol(i, ll, dl));
    StartsUnique(ll, sym, SymbolOf(i), s0);
  }

  /** The copy loops of `stbi__parse_huffman_block`; a run of one byte is copied from a local. */
  method CopyMatch(a: ZBuf, dist: nat, len: nat)
    requires 0 < dist <= |a.zout|
    modifies a`zout
    ensures a.zout == Copy(old(a.zout), dist, len)
  {
    var left := len;
    if dist == 1 {
      var v := a.zout[|a.zout| - 1];
      while left > 0
        invariant |a.zout| > 0 && a.zout[|a.zout| - 1] == v
        invariant Copy(a.zout, dist, left) == Copy(old(a.zout), dist, len)
      {
        a.zout := a.zout + [v];
        left := left - 1;
      }
    } else {
      var p := |a.zout| - dist;
      while left > 0
        invariant 0 <= p == |a.zout| - dist
        invariant Copy(a.zout, dist, left) == Copy(old(a.zout), dist, len)
      {
        a.zout := a.zout + [a.zout[p]];
        p := p + 1;
        left := left - 1;
      }
    }
  }

  /** Play one token onto the output, unless a bound forbids it. */
  method PlayToken(a: ZBuf, t: Token) returns (ok: bool)
    requires t.Match? ==> t.z < NUM_LENGTHS && t.d < NUM_DISTS
    modifies a`zout
    ensures ok <==> Playable(old(a.zout), t) && |old(a.zout)| + TokenLength(t) <= a.capacity
    ensures ok ==> a.zout == Play(old(a.zout), t)
    ensures !ok ==> a.zout == old(a.zout)
  {
    match t {
      case Literal(b) =>
        if |a.zout| >= a.capacity { return false; }
        a.zout := a.zout + [b];
      case Match(z, le, d, de) =>
        var len, dist := LengthBase(z) + le, DistBase(d) + de;
        if |a.zout| < dist { return false; }
        if len + |a.zout| > a.capacity { return false; }
        CopyMatch(a, dist, len);
    }
    ok := true;
  }

  // ----- the whole block

  /** What has been read so far is the encoding of `got`, and the output is its expansion. */
  ghost predicate Decoded(a: ZBuf, s0: seq<nat>, m0: Meter, out0: seq<nat>, got: seq<Token>, pad: nat,
                          ll: seq<nat>, dl: seq<nat>)
    reads a
  {
    && AllEncodable(got, ll, dl)
    && s0 + Zeros(pad) == Encode(got, ll, dl) + a.stream
    && Expand(out0, got) == Some(a.zout) && (got == [] || |a.zout| <= a.capacity)
    && RunMeter(m0, got, ll, dl) == Some(a.Gauge())
  }

  /** Every block that could be accepted at the start goes on from `got` with a block that can be accepted now. */
  ghost predicate Narrowed(s0: seq<nat>, m0: Meter, out0: seq<nat>, capacity: nat, got: seq<Token>,
                           s: seq<nat>, m: Meter, out: seq<nat>, ll: seq<nat>, dl: seq<nat>)
  {
    forall ts :: Accepts(s0, m0, out0, capacity, ts, ll, dl) ==>
                   got <= ts && Accepts(s, m, out, capacity, ts[|got|..], ll, dl)
  }

  ghost function NextItem(ts: seq<Token>): Item {
    if ts == [] then End else Tok(ts[0])
  }

  /** The first item of an acceptable block can be read. */
  lemma AcceptsReads(s: seq<nat>, m: Meter, out: seq<nat>, capacity: nat, ts: seq<Token>, ll: seq<nat>, dl: seq<nat>)
    requires Accepts(s, m, out, capacity, ts, ll, dl)
    ensures Reads(s, m, NextItem(ts), ll, dl)
  {
    hide Starts, EncodeItem, Encodable, ItemMeter;
    BlockStep(ts, ll, dl);
    if ts != [] {
      StartsFirst(s, EncodeItem(Tok(ts[0]), ll, dl), BlockBits(ts[1..], ll, dl));
    }
  }

  lemma BlockStep(ts: seq<Token>, ll: seq<nat>, dl: seq<nat>)
    requires AllEncodable(ts, ll, dl) && Encodable(End, ll, dl)
    ensures ts == [] ==> BlockBits(ts, ll, dl) == EncodeItem(End, ll, dl)
    ensures ts != [] ==> BlockBits(ts, ll, dl) == EncodeItem(Tok(ts[0]), ll, dl) + BlockBits(ts[1..], ll, dl)
  {
  }

  /** With the first token read and played, the rest of an acceptable block is acceptable. */
  lemma AcceptsTail(s: seq<nat>, m: Meter, out: seq<nat>, capacity: nat, ts: seq<Token>, pad: nat, left: seq<nat>,
                    ll: seq<nat>, dl: seq<nat>)
    requires Accepts(s, m, out, capacity, ts, ll, dl) && ts != []
    requires s + Zeros(pad) == EncodeItem(Tok(ts[0]), ll, dl) + left
    ensures Playable(out, ts[0]) && |out| + TokenLength(ts[0]) <= capacity
    ensures Accepts(left, ItemMeter(m, Tok(ts[0]), ll, dl).value, Play(out, ts[0]), capacity, ts[1..], ll, dl)
  {
    hide Starts, EncodeItem, Encodable, ItemMeter, Play;
    BlockStep(ts, ll, dl);
    StartsRest(s, pad, EncodeItem(Tok(ts[0]), ll, dl), left, BlockBits(ts[1..], ll, dl));
  }

  datatype Status = Running | Finished | Failed

  /** One round of the loop of `stbi__parse_huffman_block`. */
  method Round(a: ZBuf, zl: ZHuffman, zd: ZHuffman, ghost ll: seq<nat>, ghost dl: seq<nat>)
    returns (r: Status, ghost t: Token, ghost pad: nat)
    requires a.Valid() && zl.Represents(ll) && zd.Represents(dl)
    modifies a
    ensures a.Valid() && ((pad > 0 || old(a.Eof())) ==> a.Eof())
    ensures r == Running ==>
              && Encodable(Tok(t), ll, dl)
              && old(a.stream) + Zeros(pad) == EncodeItem(Tok(t), ll, dl) + a.stream
              && Some(a.Gauge()) == ItemMeter(old(a.Gauge()), Tok(t), ll, dl)
              && Playable(old(a.zout), t) && a.zout == Play(old(a.zout), t) && |a.zout| <= a.capacity
    ensures r == Finished ==>
              && Encodable(End, ll, dl) && a.zout == old(a.zout)
              && old(a.stream) + Zeros(pad) == EncodeItem(End, ll, dl) + a.stream
              && Some(a.Gauge()) == ItemMeter(old(a.Gauge()), End, ll, dl)
              && !(a.hit_zeof_once && a.num_bits < 16)
    ensures r == Failed ==>
              forall ts :: !Accepts(old(a.stream), old(a.Gauge()), old(a.zout), a.capacity, ts, ll, dl)
  {
    hide EncodeItem, Zeros, Encode, Expand, ItemMeter, Starts, ZBuf.Valid, Play;
    t := Literal(0);
    ghost var s0, m0, out0 := a.stream, a.Gauge(), a.zout;
    var item;
    item, pad := ReadItem(a, zl, zd, ll, dl);
    r := Failed;
    if item.Some? && item.value.End? {
      if !(a.hit_zeof_once && a.num_bits < 16) { r := Finished; }
    } else if item.Some? {
      t := item.value.t;
      var ok := PlayToken(a, item.value.t);
      if ok { r := Running; }
    }
    if r == Failed {
      forall ts | Accepts(s0, m0, out0, a.capacity, ts, ll, dl) ensures false {
        AcceptsReads(s0, m0, out0, a.capacity, ts, ll, dl);
        if item.Some? {
          StartsRest(s0, pad, EncodeItem(item.value, ll, dl), a.stream, []);
          ItemUnique(s0, NextItem(ts), item.value, ll, dl);
          if ts != [] { AcceptsTail(s0, m0, out0, a.capacity, ts, pad, a.stream, ll, dl); }
        }
      }
    }
  }

  /** A token that was read and played is the next token of every acceptable block. */
  lemma NextToken(s: seq<nat>, m: Meter, out: seq<nat>, capacity: nat, ts: seq<Token>, t: Token, pad: nat,
                  left: seq<nat>, ll: seq<nat>, dl: seq<nat>)
    requires Feasible(ll) && Feasible(dl) && Encodable(Tok(t), ll, dl) && Playable(out, t)
    requires Accepts(s, m, out, capacity, ts, ll, dl)
    requires s + Zeros(pad) == EncodeItem(Tok(t), ll, dl) + left
    ensures ts != [] && ts[0] == t && ItemMeter(m, Tok(t), ll, dl).Some?
    ensures Accepts(left, ItemMeter(m, Tok(t), ll, dl).value, Play(out, t), capacity, ts[1..], ll, dl)
  {
    hide EncodeItem, Encodable, ItemMeter, Starts, Play, Accepts;
    AcceptsReads(s, m, out, capacity, ts, ll, dl);
    StartsRest(s, pad, EncodeItem(Tok(t), ll, dl), left, []);
    ItemUnique(s, NextItem(ts), Tok(t), ll, dl);
    AcceptsTail(s, m, out, capacity, ts, pad, left, ll, dl);
  }

  lemma NarrowStep(s0: seq<nat>, m0: Meter, out0: seq<nat>, capacity: nat, got: seq<Token>,
                   s: seq<nat>, m: Meter, out: seq<nat>, t: Token, pad: nat, left: seq<nat>, ll: seq<nat>, dl: seq<nat>)
    requires Feasible(ll) && Feasible(dl) && Encodable(Tok(t), ll, dl) && Playable(out, t)
    requires Narrowed(s0, m0, out0, capacity, got, s, m, out, ll, dl)
    requires s + Zeros(pad) == EncodeItem(Tok(t), ll, dl) + left && ItemMeter(m, Tok(t), ll, dl).Some?
    ensures Narrowed(s0, m0, out0, capacity, got + [t],
                     left, ItemMeter(m, Tok(t), ll, dl).value, Play(out, t), ll, dl)
  {
    hide EncodeItem, Encodable, ItemMeter, Starts, Play, Accepts;
    forall ts | Accepts(s0, m0, out0, capacity, ts, ll, dl)
      ensures && got + [t] <= ts
              && Accepts(left, ItemMeter(m, Tok(t), ll, dl).value, Play(out, t), capacity, ts[|got + [t]|..], ll, dl)
    {
      NextToken(s, m, out, capacity, ts[|got|..], t, pad, left, ll, dl);
      assert ts[|got|..][1..] == ts[|got + [t]|..];
    }
  }

  lemma NarrowNothing(s: seq<nat>, m: Meter, out: seq<nat>, capacity: nat, ll: seq<nat>, dl: seq<nat>)
    ensures Narrowed(s, m, out, capacity, [], s, m, out, ll, dl)
  {
    assert forall ts: seq<Token> :: ts[0..] == ts;
  }

  // ----- a block inside the data

  /** `need` more bits can be read without consuming a bit of the sixteen that mark the end of the data. */
  predicate Ample(m: Meter, need: nat) {
    if m.hit then m.bytes == 0 && m.bits >= need + 16 else m.bits + 8 * m.bytes >= need
  }

  /** There are enough bits, or one is missing and the last byte is still to come, with zero bytes behind it. */
  predicate Enough(m: Meter, need: nat) {
    Ample(m, need) || (!m.hit && m.bytes == 1 && m.bits + 9 == need)
  }

  lemma {:induction false} RefillGrows(m: Meter)
    requires m.bits <= 24
    ensures var r := Refill(m);
            r.bits + 8 * r.bytes >= m.bits + 8 * m.bytes && (m.bytes == 0 ==> r.bytes == 0)
    decreases 24 - m.bits
  {
    var next := Meter(m.bits + 8, if m.bytes > 0 then m.bytes - 1 else 0, m.hit);
    if next.bits <= 24 { RefillGrows(next); }
  }

  lemma EnoughCode(m: Meter, l: nat, need: nat)
    requires l <= 15 && Enough(m, l + need)
    ensures AfterCode(m, l).Some? && Enough(AfterCode(m, l).value, need)
  {
    if m.bits < 16 { RefillGrows(m); }
  }

  lemma EnoughBits(m: Meter, n: nat, need: nat)
    requires n <= 15 && Enough(m, n + need)
    ensures Enough(AfterBits(m, n), need)
  {
    if m.bits < n { RefillGrows(m); }
  }

  lemma EnoughMatch(m: Meter, t: Token, need: nat, dl: seq<nat>)
    requires Lengths(dl) && t.Match? && MatchTailOk(t, t.z, dl) && Enough(m, |MatchTail(t, dl)| + need)
    ensures MatchMeter(m, t, dl).Some? && Enough(MatchMeter(m, t, dl).value, need)
  {
    hide Enough, AfterCode, AfterBits, LengthExtra, DistExtra, Pow2;
    var n, l, e := LengthExtra(t.z), dl[t.d], DistExtra(t.d);
    EnoughBits(m, n, l + e + need);
    EnoughCode(AfterBits(m, n), l, e + need);
    EnoughBits(AfterCode(AfterBits(m, n), l).value, e, need);
  }

  lemma EnoughItem(m: Meter, i: Item, need: nat, ll: seq<nat>, dl: seq<nat>)
    requires Lengths(ll) && Lengths(dl) && Encodable(i, ll, dl)
    requires Enough(m, |EncodeItem(i, ll, dl)| + need)
    ensures ItemMeter(m, i, ll, dl).Some? && Enough(ItemMeter(m, i, ll, dl).value, need)
  {
    hide Enough, AfterCode, MatchMeter, MatchTail, MatchTailOk;
    SplitItem(i, ll, dl);
    EnoughCode(m, ll[SymbolOf(i)], |AfterSymbol(i, ll, dl)| + need);
    if i.Tok? && i.t.Match? {
      EnoughMatch(AfterCode(m, ll[SymbolOf(i)]).value, i.t, need, dl);
    }
  }

  lemma {:induction false} EnoughPasses(m: Meter, ts: seq<Token>, ll: seq<nat>, dl: seq<nat>)
    requires Lengths(ll) && Lengths(dl) && AllEncodable(ts, ll, dl) && Encodable(End, ll, dl)
    requires Enough(m, |BlockBits(ts, ll, dl)|)
    ensures Passes(m, ts, ll, dl)
    decreases ts
  {
    hide EncodeItem, Encodable, ItemMeter;
    BlockStep(ts, ll, dl);
    if ts == [] {
      EnoughItem(m, End, 0, ll, dl);
    } else {
      EnoughItem(m, Tok(ts[0]), |BlockBits(ts[1..], ll, dl)|, ll, dl);
      EnoughPasses(ItemMeter(m, Tok(ts[0]), ll, dl).value, ts[1..], ll, dl);
    }
  }

  /** The block of `ts` lies on the stream, and its output fits. */
  ghost predicate Holds(s: seq<nat>, out: seq<nat>, capacity: nat, ts: seq<Token>, ll: seq<nat>, dl: seq<nat>) {
    && AllEncodable(ts, ll, dl) && Encodable(End, ll, dl)
    && BlockBits(ts, ll, dl) <= s
    && Fits(out, capacity, ts)
  }

  /** No end-of-data test stops a block that lies on the stream. */
  lemma HoldsExact(s: seq<nat>, m: Meter, out: seq<nat>, capacity: nat, ts: seq<Token>, ll: seq<nat>, dl: seq<nat>)
    requires Lengths(ll) && Lengths(dl) && AllEncodable(ts, ll, dl) && Encodable(End, ll, dl)
    requires !m.hit && |s| == m.bits + 8 * m.bytes
    ensures Holds(s, out, capacity, ts, ll, dl)
            <==> Accepts(s, m, out, capacity, ts, ll, dl) && |BlockBits(ts, ll, dl)| <= |s|
  {
    hide Starts, Passes, Encodable, Fits;
    if |BlockBits(ts, ll, dl)| <= |s| {
      StartsPadded(s, 0, BlockBits(ts, ll, dl));
      assert s + Zeros(0) == s;
      EnoughPasses(m, ts, ll, dl);
    }
  }

  lemma HoldsAccepted(a: ZBuf, ll: seq<nat>, dl: seq<nat>)
    requires a.Valid() && Feasible(ll) && Feasible(dl) && !a.hit_zeof_once
    ensures forall ts :: Holds(a.stream, a.zout, a.capacity, ts, ll, dl) ==>
                           Accepts(a.stream, a.Gauge(), a.zout, a.capacity, ts, ll, dl)
  {
    hide Starts, Passes, Encodable, Fits, ZBuf.Valid, Accepts;
    a.GaugeLength();
    forall ts | Holds(a.stream, a.zout, a.capacity, ts, ll, dl)
      ensures Accepts(a.stream, a.Gauge(), a.zout, a.capacity, ts, ll, dl)
    {
      HoldsExact(a.stream, a.Gauge(), a.zout, a.capacity, ts, ll, dl);
    }
  }

  /** Words taken off a padded stream lie on the stream itself when the supplied zeros are left. */
  lemma InsideOrNot(s: seq<nat>, pad: nat, w: seq<nat>, left: seq<nat>)
    requires s + Zeros(pad) == w + left
    ensures w <= s <==> pad <= |left|
  {
    assert |s| + pad == |w| + |left|;
    if |w| <= |s| {
      assert w == (w + left)[..|w|] == (s + Zeros(pad))[..|w|] == s[..|w|];
    }
  }

  /**
   `stbi__parse_huffman_block`.  It succeeds exactly when some token run is acceptable; that run is unique,
   its encoding has been taken off the stream and its expansion is the output.  The block lies on the
   stream exactly when no more zero bits were supplied than are left, and a block that lies on the stream
   is always accepted.
   */
  method ParseHuffmanBlock(a: ZBuf, zl: ZHuffman, zd: ZHuffman, ghost ll: seq<nat>, ghost dl: seq<nat>)
    returns (ok: bool, ghost got: seq<Token>, ghost pad: nat)
    requires a.Valid() && zl.Represents(ll) && zd.Represents(dl)
    modifies a
    ensures a.Valid() && ((pad > 0 || old(a.Eof())) ==> a.Eof())
    ensures ok <==> exists ts :: Accepts(old(a.stream), old(a.Gauge()), old(a.zout), a.capacity, ts, ll, dl)
    ensures forall ts :: Accepts(old(a.stream), old(a.Gauge()), old(a.zout), a.capacity, ts, ll, dl) ==> ts == got
    ensures ok ==>
              && Accepts(old(a.stream), old(a.Gauge()), old(a.zout), a.capacity, got, ll, dl)
              && old(a.stream) + Zeros(pad) == BlockBits(got, ll, dl) + a.stream
              && Expand(old(a.zout), got) == Some(a.zout)
    ensures ok ==> (BlockBits(got, ll, dl) <= old(a.stream) <==> pad <= |a.stream|)
    ensures !old(a.hit_zeof_once) ==>
              forall ts :: Holds(old(a.stream), old(a.zout), a.capacity, ts, ll, dl) ==> ok && got == ts
  {
    hide EncodeItem, Encodable, ItemMeter, Starts, Play, Accepts, ZBuf.Valid, Zeros, BlockBits, Holds, Passes, Expand, Encode, RunMeter;
    if !a.hit_zeof_once { HoldsAccepted(a, ll, dl); }
    ghost var s0, m0, out0 := a.stream, a.Gauge(), a.zout;
    got, pad := [], 0;
    NothingRead(a, ll, dl);
    NarrowNothing(a.stream, a.Gauge(), a.zout, a.capacity, ll, dl);
    while true
      invariant a.Valid() && ((pad > 0 || old(a.Eof())) ==> a.Eof())
      invariant Decoded(a, s0, m0, out0, got, pad, ll, dl)
      invariant Narrowed(s0, m0, out0, a.capacity, got, a.stream, a.Gauge(), a.zout, ll, dl)
      decreases if |a.zout| < a.capacity then a.capacity - |a.zout| else 0
    {
      ghost var s1, m1, out1, pad1 := a.stream, a.Gauge(), a.zout, pad;
      var r, t, more := Round(a, zl, zd, ll, dl);
      pad := pad1 + more;
      if r == Failed {
        return false, got, pad;
      } else if r == Finished {
        Finish(a, s0, m0, out0, got, pad1, s1, m1, more, ll, dl);
        OnlyEnd(s0, m0, out0, a.capacity, got, s1, m1, out1, more, a.stream, ll, dl);
        return true, got, pad;
      }
      DecodedStep(a, s0, m0, out0, got, pad1, s1, m1, out1, t, more, ll, dl);
      NarrowStep(s0, m0, out0, a.capacity, got, s1, m1, out1, t, more, a.stream, ll, dl);
      got := got + [t];
    }
  }

  lemma NothingRead(a: ZBuf, ll: seq<nat>, dl: seq<nat>)
    ensures Decoded(a, a.stream, a.Gauge(), a.zout, [], 0, ll, dl)
  {
    assert a.stream + Zeros(0) == [] + a.stream;
  }

  /** When end-of-block has been read, no acceptable block goes on. */
  lemma OnlyEnd(s0: seq<nat>, m0: Meter, out0: seq<nat>, capacity: nat, got: seq<Token>,
                s: seq<nat>, m: Meter, out: seq<nat>, pad: nat, left: seq<nat>, ll: seq<nat>, dl: seq<nat>)
    requires Feasible(ll) && Feasible(dl) && Encodable(End, ll, dl)
    requires Narrowed(s0, m0, out0, capacity, got, s, m, out, ll, dl)
    requires s + Zeros(pad) == EncodeItem(End, ll, dl) + left
    ensures forall ts :: Accepts(s0, m0, out0, capacity, ts, ll, dl) ==> ts == got
  {
    hide EncodeItem, Encodable, Starts, Accepts;
    forall ts | Accepts(s0, m0, out0, capacity, ts, ll, dl) ensures ts == got {
      AcceptsReads(s, m, out, capacity, ts[|got|..], ll, dl);
      StartsRest(s, pad, EncodeItem(End, ll, dl), left, []);
      ItemUnique(s, NextItem(ts[|got|..]), End, ll, dl);
    }
  }

  lemma DecodedStep(a: ZBuf, s0: seq<nat>, m0: Meter, out0: seq<nat>, got: seq<Token>, pad: nat,
                    s1: seq<nat>, m1: Meter, out1: seq<nat>, t: Token, more: nat, ll: seq<nat>, dl: seq<nat>)
    requires AllEncodable(got, ll, dl) && s0 + Zeros(pad) == Encode(got, ll, dl) + s1
    requires Expand(out0, got) == Some(out1) && RunMeter(m0, got, ll, dl) == Some(m1)
    requires Encodable(Tok(t), ll, dl) && s1 + Zeros(more) == EncodeItem(Tok(t), ll, dl) + a.stream
    requires Some(a.Gauge()) == ItemMeter(m1, Tok(t), ll, dl)
    requires Playable(out1, t) && a.zout == Play(out1, t) && |a.zout| <= a.capacity
    ensures Decoded(a, s0, m0, out0, got + [t], pad + more, ll, dl)
  {
    hide EncodeItem, Encodable, ItemMeter, Play, Zeros;
    EncodeAppend(got, t, ll, dl);
    ExpandAppend(out0, got, t);
    MeterAppend(m0, got, t, ll, dl);
    Chain2(s0, s1, a.stream, Encode(got, ll, dl), EncodeItem(Tok(t), ll, dl), pad, more);
  }

  lemma Finish(a: ZBuf, s0: seq<nat>, m0: Meter, out0: seq<nat>, got: seq<Token>, pad: nat,
               s1: seq<nat>, m1: Meter, more: nat, ll: seq<nat>, dl: seq<nat>)
    requires AllEncodable(got, ll, dl) && s0 + Zeros(pad) == Encode(got, ll, dl) + s1
    requires Expand(out0, got) == Some(a.zout) && (got == [] || |a.zout| <= a.capacity)
    requires RunMeter(m0, got, ll, dl) == Some(m1)
    requires Encodable(End, ll, dl) && s1 + Zeros(more) == EncodeItem(End, ll, dl) + a.stream
    requires Some(a.Gauge()) == ItemMeter(m1, End, ll, dl) && !(a.hit_zeof_once && a.num_bits < 16)
    ensures Accepts(s0, m0, out0, a.capacity, got, ll, dl)
    ensures s0 + Zeros(pad + more) == BlockBits(got, ll, dl) + a.stream
    ensures BlockBits(got, ll, dl) <= s0 <==> pad + more <= |a.stream|
  {
    hide EncodeItem, Encodable, ItemMeter, Zeros, Starts;
    Chain2(s0, s1, a.stream, Encode(got, ll, dl), EncodeItem(End, ll, dl), pad, more);
    StartsRest(s0, pad + more, BlockBits(got, ll, dl), a.stream, []);
    InsideOrNot(s0, pad + more, BlockBits(got, ll, dl), a.stream);
  }
}
