/** PNG row filters (section 9 of the W3C PNG Specification) and their reconstruction in two row buffers. */
module PngFilter {

  type Byte = b: int | 0 <= b < 256

  function Plus(x: Byte, y: Byte): Byte {
    (x as int + y as int) % 256
  }

  function Minus(x: Byte, y: Byte): Byte {
    (x as int - y as int) % 256
  }

  function Average(x: Byte, y: Byte): Byte {
    (x as int + y as int) / 2
  }

  // ----- the filters as specified

  function Abs(x: int): nat {
    if x < 0 then -x else x
  }

  /** The Paeth predictor of section 9.4: whichever of the three is nearest to `a + b - c`, in this order. */
  function Paeth(a: int, b: int, c: int): int {
    var p := a + b - c;
    if Abs(p - a) <= Abs(p - b) && Abs(p - a) <= Abs(p - c) then a
    else if Abs(p - b) <= Abs(p - c) then b
    else c
  }

  /** `stbi__paeth`. */
  function StbPaeth(a: int, b: int, c: int): int {
    var thresh := c * 3 - (a + b);
    var lo := if a < b then a else b;
    var hi := if a < b then b else a;
    var t0 := if hi <= thresh then lo else c;
    if thresh <= lo then hi else t0
  }

  lemma PaethAgrees(a: int, b: int, c: int)
    ensures StbPaeth(a, b, c) == Paeth(a, b, c)
  {
  }

  const AVG_FIRST := 5

  /** The value a filter predicts from the left, upper and upper left byte; type 5 exists only in the decoder. */
  function Predict(f: nat, a: Byte, b: Byte, c: Byte): (p: Byte) {
    match f
    case 0 => 0
    case 1 => a
    case 2 => b
    case 3 => Average(a, b)
    case 4 => Paeth(a, b, c)
    case _ => a / 2
  }

  /** The five filter types of section 9.2: none, left, up, the average rounded down, and the nearest to `a + b - c`. */
  lemma FilterPredictors(a: Byte, b: Byte, c: Byte)
    ensures Predict(0, a, b, c) == 0 && Predict(1, a, b, c) == a && Predict(2, a, b, c) == b
    ensures 2 * Predict(3, a, b, c) <= a + b < 2 * Predict(3, a, b, c) + 2
    ensures var p, d := Predict(4, a, b, c) as int, a as int + b as int - c as int;
            && (p == a || p == b || p == c)
            && Abs(d - p) <= Abs(d - a) && Abs(d - p) <= Abs(d - b) && Abs(d - p) <= Abs(d - c)
            && (Abs(d - p) == Abs(d - a) ==> p == a)
            && (Abs(d - p) == Abs(d - b) && Abs(d - p) < Abs(d - a) ==> p == b)
  {
  }

  function FirstRowFilter(f: nat): nat
    requires f <= 4
  {
    [0, 1, 0, AVG_FIRST, 1][f]
  }

  /** On the first row the substitute filter does what the filter does below a row of zeros. */
  lemma FirstRowAgrees(f: nat, a: Byte, b: Byte, c: Byte)
    requires f <= 4
    ensures Predict(FirstRowFilter(f), a, b, c) == Predict(f, a, 0, 0)
  {
  }

  /** Byte `k - bpp` of a row, 0 to the left of it. */
  function Left(row: seq<Byte>, k: nat, bpp: nat): Byte
    requires k < |row|
  {
    if k < bpp || bpp == 0 then 0 else row[k - bpp]
  }

  function PredictAt(f: nat, cur: seq<Byte>, prior: seq<Byte>, k: nat, bpp: nat): Byte
    requires k < |cur| == |prior|
  {
    Predict(f, Left(cur, k, bpp), prior[k], Left(prior, k, bpp))
  }

  function FilterRow(f: nat, cur: seq<Byte>, prior: seq<Byte>, bpp: nat): (raw: seq<Byte>)
    requires |cur| == |prior|
    ensures |raw| == |cur|
  {
    seq(|cur|, k requires 0 <= k < |cur| => Minus(cur[k], PredictAt(f, cur, prior, k, bpp)))
  }

  /** Reconstruction, byte by byte. */
  ghost predicate Reconstructs(f: nat, raw: seq<Byte>, cur: seq<Byte>, prior: seq<Byte>, bpp: nat) {
    && |raw| == |cur| == |prior|
    && forall k :: 0 <= k < |cur| ==> cur[k] == Plus(raw[k], PredictAt(f, cur, prior, k, bpp))
  }

  /** Reconstruction and filtering are the two directions of one relation. */
  lemma ReconstructsFiltered(f: nat, raw: seq<Byte>, cur: seq<Byte>, prior: seq<Byte>, bpp: nat)
    requires |raw| == |cur| == |prior|
    ensures Reconstructs(f, raw, cur, prior, bpp) <==> raw == FilterRow(f, cur, prior, bpp)
  {
    hide PredictAt;
    var fr := FilterRow(f, cur, prior, bpp);
    forall k | 0 <= k < |cur|
      ensures cur[k] == Plus(raw[k], PredictAt(f, cur, prior, k, bpp)) <==> raw[k] == fr[k]
    {
      Opposite(raw[k], cur[k], PredictAt(f, cur, prior, k, bpp));
    }
  }

  lemma Opposite(raw: Byte, cur: Byte, p: Byte)
    ensures cur == Plus(raw, p) <==> raw == Minus(cur, p)
  {
  }

  /** Filtered bytes determine the row. */
  lemma {:induction false} FilterInjective(f: nat, cur: seq<Byte>, cur': seq<Byte>, prior: seq<Byte>, bpp: nat, n: nat)
    requires |cur| == |cur'| == |prior| && n <= |cur| && bpp > 0
    requires FilterRow(f, cur, prior, bpp) == FilterRow(f, cur', prior, bpp)
    ensures cur[..n] == cur'[..n]
  {
    if n > 0 {
      FilterInjective(f, cur, cur', prior, bpp, n - 1);
      var k := n - 1;
      assert k >= bpp ==> cur[k - bpp] == cur[..k][k - bpp] == cur'[..k][k - bpp] == cur'[k - bpp];
      var p := PredictAt(f, cur, prior, k, bpp);
      assert PredictAt(f, cur', prior, k, bpp) == p;
      assert FilterRow(f, cur, prior, bpp)[k] == Minus(cur[k], p);
      assert FilterRow(f, cur', prior, bpp)[k] == Minus(cur'[k], p);
      Opposite(Minus(cur[k], p), cur[k], p);
      Opposite(Minus(cur[k], p), cur'[k], p);
    }
  }

  // ----- reconstruction in the row buffers

  /** The byte `bpp` before index `k` of the row starting at `base`. */
  function BufLeft(buf: array<Byte>, base: nat, k: nat, bpp: nat): Byte
    requires base + k < buf.Length
    reads buf
  {
    if k < bpp || bpp == 0 then 0 else buf[base + k - bpp]
  }

  function BufPredict(f: nat, buf: array<Byte>, cur: nat, prior: nat, k: nat, bpp: nat): Byte
    requires cur + k < buf.Length && prior + k < buf.Length
    reads buf
  {
    Predict(f, BufLeft(buf, cur, k, bpp), buf[prior + k], BufLeft(buf, prior, k, bpp))
  }

  /** The first `n` bytes of the current row are reconstructed. */
  ghost predicate Done(f: nat, raw: seq<Byte>, pos: nat, buf: array<Byte>, cur: nat, prior: nat, n: nat, bpp: nat)
    requires pos + n <= |raw| && cur + n <= buf.Length && prior + n <= buf.Length
    reads buf
  {
    forall k :: 0 <= k < n ==> buf[cur + k] == Plus(raw[pos + k], BufPredict(f, buf, cur, prior, k, bpp))
  }

  /** What the row loops need: input for a row, and two row buffers that do not overlap. */
  predicate Ready(raw: seq<Byte>, pos: nat, buf: array<Byte>, cur: nat, prior: nat, nk: nat, bpp: nat) {
    && pos + nk <= |raw| && cur + nk <= buf.Length && prior + nk <= buf.Length
    && (cur + nk <= prior || prior + nk <= cur) && 0 < bpp <= nk
  }

  /** Only bytes of the current row differ from what the buffer was. */
  ghost predicate OnlyRow(was: seq<Byte>, buf: array<Byte>, cur: nat, nk: nat)
    reads buf
  {
    |was| == buf.Length && forall i :: 0 <= i < buf.Length && !(cur <= i < cur + nk) ==> buf[i] == was[i]
  }

  /** One reconstructed byte. */
  method Put(f: nat, raw: seq<Byte>, pos: nat, buf: array<Byte>, cur: nat, prior: nat, nk: nat, bpp: nat, k: nat, v: Byte,
             ghost was: seq<Byte>)
    requires Ready(raw, pos, buf, cur, prior, nk, bpp) && k < nk
    requires OnlyRow(was, buf, cur, nk) && Done(f, raw, pos, buf, cur, prior, k, bpp)
    requires v == Plus(raw[pos + k], BufPredict(f, buf, cur, prior, k, bpp))
    modifies buf
    ensures OnlyRow(was, buf, cur, nk) && Done(f, raw, pos, buf, cur, prior, k + 1, bpp)
  {
    hide Plus, Predict;
    buf[cur + k] := v;
    forall j | 0 <= j <= k
      ensures BufPredict(f, buf, cur, prior, j, bpp) == old(BufPredict(f, buf, cur, prior, j, bpp))
    {
    }
  }

  lemma NothingDone(f: nat, raw: seq<Byte>, pos: nat, buf: array<Byte>, cur: nat, prior: nat, bpp: nat)
    requires pos <= |raw| && cur <= buf.Length && prior <= buf.Length
    ensures Done(f, raw, pos, buf, cur, prior, 0, bpp)
  {
  }

  method UnfilterNone(raw: seq<Byte>, pos: nat, buf: array<Byte>, cur: nat, prior: nat, nk: nat, bpp: nat)
    requires Ready(raw, pos, buf, cur, prior, nk, bpp)
    modifies buf
    ensures OnlyRow(old(buf[..]), buf, cur, nk) && Done(0, raw, pos, buf, cur, prior, nk, bpp)
  {
    hide Done;
    NothingDone(0, raw, pos, buf, cur, prior, bpp);
    ghost var was := buf[..];
    for k := 0 to nk
      invariant OnlyRow(was, buf, cur, nk) && Done(0, raw, pos, buf, cur, prior, k, bpp)
    {
      Put(0, raw, pos, buf, cur, prior, nk, bpp, k, raw[pos + k], was);
    }
  }

  method UnfilterSub(raw: seq<Byte>, pos: nat, buf: array<Byte>, cur: nat, prior: nat, nk: nat, bpp: nat)
    requires Ready(raw, pos, buf, cur, prior, nk, bpp)
    modifies buf
    ensures OnlyRow(old(buf[..]), buf, cur, nk) && Done(1, raw, pos, buf, cur, prior, nk, bpp)
  {
    hide Done;
    NothingDone(1, raw, pos, buf, cur, prior, bpp);
    ghost var was := buf[..];
    for k := 0 to bpp
      invariant OnlyRow(was, buf, cur, nk) && Done(1, raw, pos, buf, cur, prior, k, bpp)
    {
      Put(1, raw, pos, buf, cur, prior, nk, bpp, k, raw[pos + k], was);
    }
    for k := bpp to nk
      invariant OnlyRow(was, buf, cur, nk) && Done(1, raw, pos, buf, cur, prior, k, bpp)
    {
      Put(1, raw, pos, buf, cur, prior, nk, bpp, k, Plus(raw[pos + k], buf[cur + k - bpp]), was);
    }
  }

  method UnfilterUp(raw: seq<Byte>, pos: nat, buf: array<Byte>, cur: nat, prior: nat, nk: nat, bpp: nat)
    requires Ready(raw, pos, buf, cur, prior, nk, bpp)
    modifies buf
    ensures OnlyRow(old(buf[..]), buf, cur, nk) && Done(2, raw, pos, buf, cur, prior, nk, bpp)
  {
    hide Done;
    NothingDone(2, raw, pos, buf, cur, prior, bpp);
    ghost var was := buf[..];
    for k := 0 to nk
      invariant OnlyRow(was, buf, cur, nk) && Done(2, raw, pos, buf, cur, prior, k, bpp)
    {
      Put(2, raw, pos, buf, cur, prior, nk, bpp, k, Plus(raw[pos + k], buf[prior + k]), was);
    }
  }

  lemma AverageZero(b: Byte)
    ensures Average(0, b) == b / 2
  {
  }

  lemma AverageSwap(a: Byte, b: Byte)
    ensures Average(a, b) == Average(b, a)
  {
  }

  method UnfilterAvg(raw: seq<Byte>, pos: nat, buf: array<Byte>, cur: nat, prior: nat, nk: nat, bpp: nat)
    requires Ready(raw, pos, buf, cur, prior, nk, bpp)
    modifies buf
    ensures OnlyRow(old(buf[..]), buf, cur, nk) && Done(3, raw, pos, buf, cur, prior, nk, bpp)
  {
    hide Done, Plus, Average;
    NothingDone(3, raw, pos, buf, cur, prior, bpp);
    ghost var was := buf[..];
    for k := 0 to bpp
      invariant OnlyRow(was, buf, cur, nk) && Done(3, raw, pos, buf, cur, prior, k, bpp)
    {
      AverageZero(buf[prior + k]);
      Put(3, raw, pos, buf, cur, prior, nk, bpp, k, Plus(raw[pos + k], buf[prior + k] / 2), was);
    }
    for k := bpp to nk
      invariant OnlyRow(was, buf, cur, nk) && Done(3, raw, pos, buf, cur, prior, k, bpp)
    {
      AverageSwap(buf[prior + k], buf[cur + k - bpp]);
      Put(3, raw, pos, buf, cur, prior, nk, bpp, k, Plus(raw[pos + k], Average(buf[prior + k], buf[cur + k - bpp])), was);
    }
  }

  method UnfilterPaeth(raw: seq<Byte>, pos: nat, buf: array<Byte>, cur: nat, prior: nat, nk: nat, bpp: nat)
    requires Ready(raw, pos, buf, cur, prior, nk, bpp)
    modifies buf
    ensures OnlyRow(old(buf[..]), buf, cur, nk) && Done(4, raw, pos, buf, cur, prior, nk, bpp)
  {
    hide Done;
    NothingDone(4, raw, pos, buf, cur, prior, bpp);
    ghost var was := buf[..];
    for k := 0 to bpp
      invariant OnlyRow(was, buf, cur, nk) && Done(4, raw, pos, buf, cur, prior, k, bpp)
    {
      Put(4, raw, pos, buf, cur, prior, nk, bpp, k, Plus(raw[pos + k], buf[prior + k]), was);
    }
    for k := bpp to nk
      invariant OnlyRow(was, buf, cur, nk) && Done(4, raw, pos, buf, cur, prior, k, bpp)
    {
      PaethAgrees(buf[cur + k - bpp], buf[prior + k], buf[prior + k - bpp]);
      Put(4, raw, pos, buf, cur, prior, nk, bpp, k, Plus(raw[pos + k], StbPaeth(buf[cur + k - bpp], buf[prior + k], buf[prior + k - bpp])), was);
    }
  }

  method UnfilterAvgFirst(raw: seq<Byte>, pos: nat, buf: array<Byte>, cur: nat, prior: nat, nk: nat, bpp: nat)
    requires Ready(raw, pos, buf, cur, prior, nk, bpp)
    modifies buf
    ensures OnlyRow(old(buf[..]), buf, cur, nk) && Done(AVG_FIRST, raw, pos, buf, cur, prior, nk, bpp)
  {
    hide Done;
    NothingDone(AVG_FIRST, raw, pos, buf, cur, prior, bpp);
    ghost var was := buf[..];
    for k := 0 to bpp
      invariant OnlyRow(was, buf, cur, nk) && Done(AVG_FIRST, raw, pos, buf, cur, prior, k, bpp)
    {
      Put(AVG_FIRST, raw, pos, buf, cur, prior, nk, bpp, k, raw[pos + k], was);
    }
    for k := bpp to nk
      invariant OnlyRow(was, buf, cur, nk) && Done(AVG_FIRST, raw, pos, buf, cur, prior, k, bpp)
    {
      Put(AVG_FIRST, raw, pos, buf, cur, prior, nk, bpp, k, Plus(raw[pos + k], buf[cur + k - bpp] / 2), was);
    }
  }

  /** The filter switch; on the first row the substitute filter stands for a prior row of zeros. */
  method UnfilterRow(filter: nat, first: bool, raw: seq<Byte>, pos: nat, buf: array<Byte>, cur: nat, prior: nat, nk: nat, bpp: nat)
    requires Ready(raw, pos, buf, cur, prior, nk, bpp) && filter <= 4
    modifies buf
    ensures buf[prior..prior + nk] == old(buf[prior..prior + nk])
    ensures Reconstructs(filter, raw[pos..pos + nk], buf[cur..cur + nk],
                         if first then Zeros(nk) else old(buf[prior..prior + nk]), bpp)
  {
    var f := if first then FirstRowFilter(filter) else filter;
    match f {
    case 0 => UnfilterNone(raw, pos, buf, cur, prior, nk, bpp);
    case 1 => UnfilterSub(raw, pos, buf, cur, prior, nk, bpp);
    case 2 => UnfilterUp(raw, pos, buf, cur, prior, nk, bpp);
    case 3 => UnfilterAvg(raw, pos, buf, cur, prior, nk, bpp);
    case 4 => UnfilterPaeth(raw, pos, buf, cur, prior, nk, bpp);
    case _ => UnfilterAvgFirst(raw, pos, buf, cur, prior, nk, bpp);
    }
    assert buf[prior..prior + nk] == old(buf[prior..prior + nk]);
    RowReconstructed(filter, f, first, raw, pos, buf, cur, prior, nk, bpp);
  }

  function Zeros(n: nat): seq<Byte> {
    seq(n, _ => 0)
  }

  lemma RowReconstructed(filter: nat, f: nat, first: bool, raw: seq<Byte>, pos: nat, buf: array<Byte>,
                         cur: nat, prior: nat, nk: nat, bpp: nat)
    requires Ready(raw, pos, buf, cur, prior, nk, bpp) && Done(f, raw, pos, buf, cur, prior, nk, bpp)
    requires filter <= 4 && f == if first then FirstRowFilter(filter) else filter
    ensures Reconstructs(filter, raw[pos..pos + nk], buf[cur..cur + nk],
                         if first then Zeros(nk) else buf[prior..prior + nk], bpp)
  {
    hide Plus, Predict, FirstRowFilter;
    var row, above := buf[cur..cur + nk], if first then Zeros(nk) else buf[prior..prior + nk];
    forall k | 0 <= k < nk
      ensures row[k] == Plus(raw[pos..pos + nk][k], PredictAt(filter, row, above, k, bpp))
    {
      assert row[k] == Plus(raw[pos + k], BufPredict(f, buf, cur, prior, k, bpp));
      if first { FirstRowAgrees(filter, BufLeft(buf, cur, k, bpp), buf[prior + k], BufLeft(buf, prior, k, bpp)); }
    }
  }
}
