/** PNG images as filtered rows, and their reconstruction row by row. */
module PngImage {
  import opened PngFilter

  type Rows = seq<seq<Byte>>

  /** All rows are `w` bytes wide. */
  ghost predicate Rectangle(rows: Rows, w: nat) {
    forall j :: 0 <= j < |rows| ==> |rows[j]| == w
  }

  ghost predicate FilterTypes(fs: seq<Byte>, n: nat) {
    |fs| == n && forall j :: 0 <= j < n ==> fs[j] <= 4
  }

  /** The row above row `j`: zeros above the first. */
  function Above(rows: Rows, j: nat, w: nat): seq<Byte>
    requires j <= |rows|
  {
    if j == 0 then Zeros(w) else rows[j - 1]
  }

  /** Filtered rows one after the other, each behind its filter type. */
  ghost function Encode(rows: Rows, fs: seq<Byte>, w: nat, bpp: nat): seq<Byte>
    requires Rectangle(rows, w) && |fs| == |rows|
  {
    if rows == [] then []
    else
      var n := |rows| - 1;
      Encode(rows[..n], fs[..n], w, bpp) + ([fs[n]] + FilterRow(fs[n], rows[n], Above(rows, n, w), bpp))
  }

  /** Encoded size of `n` rows. */
  function RowBytes(n: nat, w: nat): nat {
    if n == 0 then 0 else RowBytes(n - 1, w) + 1 + w
  }

  lemma {:induction false} EncodeSize(rows: Rows, fs: seq<Byte>, w: nat, bpp: nat)
    requires Rectangle(rows, w) && |fs| == |rows|
    ensures |Encode(rows, fs, w, bpp)| == RowBytes(|rows|, w)
  {
    if rows != [] {
      var n := |rows| - 1;
      EncodeSize(rows[..n], fs[..n], w, bpp);
    }
  }

  lemma EncodeSnoc(rows: Rows, fs: seq<Byte>, row: seq<Byte>, f: Byte, w: nat, bpp: nat)
    requires Rectangle(rows, w) && |fs| == |rows| && |row| == w
    ensures Rectangle(rows + [row], w)
    ensures Encode(rows + [row], fs + [f], w, bpp)
         == Encode(rows, fs, w, bpp) + ([f] + FilterRow(f, row, Above(rows, |rows|, w), bpp))
  {
    var n := |rows|;
    assert (rows + [row])[..n] == rows && (fs + [f])[..n] == fs;
  }

  /** A shorter image encodes to a prefix. */
  lemma {:induction false} EncodePrefix(rows: Rows, fs: seq<Byte>, w: nat, bpp: nat, j: nat)
    requires Rectangle(rows, w) && |fs| == |rows| && j <= |rows|
    ensures Encode(rows[..j], fs[..j], w, bpp) <= Encode(rows, fs, w, bpp)
  {
    hide FilterRow, Above;
    if j < |rows| {
      var n := |rows| - 1;
      EncodePrefix(rows[..n], fs[..n], w, bpp, j);
      assert rows[..n][..j] == rows[..j] && fs[..n][..j] == fs[..j];
    } else {
      assert rows[..j] == rows && fs[..j] == fs;
    }
  }

  /** The byte that names the filter of row `j`. */
  lemma FilterByte(rows: Rows, fs: seq<Byte>, w: nat, bpp: nat, j: nat)
    requires Rectangle(rows, w) && |fs| == |rows| && j < |rows|
    ensures RowBytes(j, w) < |Encode(rows, fs, w, bpp)| && Encode(rows, fs, w, bpp)[RowBytes(j, w)] == fs[j]
  {
    hide FilterRow, Encode;
    EncodePrefix(rows, fs, w, bpp, j + 1);
    EncodeSize(rows[..j], fs[..j], w, bpp);
    assert rows[..j + 1] == rows[..j] + [rows[j]] && fs[..j + 1] == fs[..j] + [fs[j]];
    EncodeSnoc(rows[..j], fs[..j], rows[j], fs[j], w, bpp);
  }

  /** An encoding determines the image and the filter types. */
  lemma {:induction false} EncodeInjective(rows: Rows, fs: seq<Byte>, rows': Rows, fs': seq<Byte>, w: nat, bpp: nat)
    requires Rectangle(rows, w) && |fs| == |rows| && Rectangle(rows', w) && |fs'| == |rows'| == |rows| && bpp > 0
    requires Encode(rows, fs, w, bpp) == Encode(rows', fs', w, bpp)
    ensures rows == rows' && fs == fs'
    decreases |rows|
  {
    hide FilterRow;
    if rows != [] {
      var n := |rows| - 1;
      EncodeSize(rows[..n], fs[..n], w, bpp);
      EncodeSize(rows'[..n], fs'[..n], w, bpp);
      var e, e' := Encode(rows[..n], fs[..n], w, bpp), Encode(rows'[..n], fs'[..n], w, bpp);
      var t, t' := FilterRow(fs[n], rows[n], Above(rows, n, w), bpp), FilterRow(fs'[n], rows'[n], Above(rows', n, w), bpp);
      SameParts(e, [fs[n]] + t, e', [fs'[n]] + t');
      SameParts([fs[n]], t, [fs'[n]], t');
      EncodeInjective(rows[..n], fs[..n], rows'[..n], fs'[..n], w, bpp);
      assert n > 0 ==> rows[n - 1] == rows[..n][n - 1] == rows'[..n][n - 1] == rows'[n - 1];
      assert [fs[n]][0] == [fs'[n]][0];
      FilterInjective(fs[n], rows[n], rows'[n], Above(rows, n, w), bpp, w);
      assert rows[n][..w] == rows[n] && rows'[n][..w] == rows'[n];
      assert rows == rows[..n] + [rows[n]] && rows' == rows'[..n] + [rows'[n]];
      assert fs == fs[..n] + [fs[n]] && fs' == fs'[..n] + [fs'[n]];
    }
  }

  lemma SameParts(a: seq<Byte>, b: seq<Byte>, a': seq<Byte>, b': seq<Byte>)
    requires a + b == a' + b' && |a| == |a'|
    ensures a == a' && b == b'
  {
    assert a == (a + b)[..|a|] && a' == (a' + b')[..|a|];
    assert b == (a + b)[|a|..] && b' == (a' + b')[|a|..];
  }

  // ----- the decoder

  /** The image in a two-dimensional buffer, row by row. */
  function RowOf(out: array2<Byte>, j: nat): seq<Byte>
    requires j < out.Length0
    reads out
  {
    seq(out.Length1, k requires 0 <= k < out.Length1 reads out => out[j, k])
  }

  ghost predicate Holds(out: array2<Byte>, rows: Rows)
    reads out
  {
    |rows| <= out.Length0 && forall j :: 0 <= j < |rows| ==> rows[j] == RowOf(out, j)
  }

  /** `rows` is an image whose encoding the data begins with. */
  ghost predicate EncodedBy(raw: seq<Byte>, rows: Rows, fs: seq<Byte>, w: nat, bpp: nat) {
    Rectangle(rows, w) && FilterTypes(fs, |rows|) && Encode(rows, fs, w, bpp) <= raw
  }

  /** Copy a finished row out of its buffer. */
  method CopyRow(buf: array<Byte>, cur: nat, out: array2<Byte>, j: nat, ghost rows: Rows)
    requires cur + out.Length1 <= buf.Length && j < out.Length0 && |rows| == j && Holds(out, rows)
    modifies out
    ensures Holds(out, rows + [buf[cur..cur + out.Length1]])
  {
    for k := 0 to out.Length1
      invariant forall i, l :: 0 <= i < j && 0 <= l < out.Length1 ==> out[i, l] == old(out[i, l])
      invariant forall l :: 0 <= l < k ==> out[j, l] == buf[cur + l]
    {
      out[j, k] := buf[cur + k];
    }
    assert RowOf(out, j) == buf[cur..cur + out.Length1];
    forall i | 0 <= i < j ensures rows[i] == RowOf(out, i) {
      assert rows[i] == old(RowOf(out, i));
    }
  }

  /** The data does not begin with the encoding of an image of this size. */
  ghost predicate NotEncoded(raw: seq<Byte>, y: nat, w: nat, bpp: nat) {
    forall rows: Rows, fs: seq<Byte> :: |rows| == y ==> !EncodedBy(raw, rows, fs, w, bpp)
  }

  /** `stbi__create_png_image_raw` up to the expansion of samples: `bpp` bytes per pixel, rows of `w` bytes. */
  method CreateImageRaw(raw: seq<Byte>, y: nat, w: nat, bpp: nat) returns (ok: bool, out: array2<Byte>, ghost rows: Rows, ghost fs: seq<Byte>)
    requires 0 < bpp <= w
    ensures fresh(out) && out.Length0 == y && out.Length1 == w
    ensures ok ==> |rows| == y && Holds(out, rows) && EncodedBy(raw, rows, fs, w, bpp)
    ensures !ok ==> NotEncoded(raw, y, w, bpp)
  {
    hide EncodedBy, NotEncoded;
    ok, rows, fs := true, [], [];
    NoRows(raw, w, bpp);
    out := new Byte[y, w];
    if |raw| < RowBytes(y, w) {
      TooShort(raw, y, w, bpp);
      ok := false;
      return;
    }
    var buf := new Byte[2 * w];
    var pos := 0;
    for j := 0 to y
      invariant fresh(buf) && buf.Length == 2 * w
      invariant |rows| == j && Holds(out, rows) && EncodedBy(raw, rows, fs, w, bpp) && pos == RowBytes(j, w)
      invariant j > 0 ==> buf[w - Half(j, w)..w - Half(j, w) + w] == rows[j - 1]
    {
      MoreRows(j + 1, y, w);
      if raw[pos] > 4 {
        BadFilter(raw, j, y, w, bpp);
        ok := false;
        return;
      }
      rows, fs := NextRow(raw, pos, j, w, bpp, buf, out, rows, fs);
      pos := pos + 1 + w;
    }
  }

  /** Where in the buffer row `j` is built: the two halves alternate. */
  function Half(j: nat, w: nat): nat {
    if j % 2 == 0 then 0 else w
  }

  /** Reconstruct one row below the one in the other half of the buffer, and copy it out. */
  method NextRow(raw: seq<Byte>, pos: nat, j: nat, w: nat, bpp: nat, buf: array<Byte>, out: array2<Byte>,
                 ghost rows: Rows, ghost fs: seq<Byte>) returns (ghost rows': Rows, ghost fs': seq<Byte>)
    requires 0 < bpp <= w && buf.Length == 2 * w && out.Length1 == w && j < out.Length0
    requires |rows| == j && Holds(out, rows) && EncodedBy(raw, rows, fs, w, bpp)
    requires pos == RowBytes(j, w) && pos + 1 + w <= |raw| && raw[pos] <= 4
    requires j > 0 ==> buf[w - Half(j, w)..w - Half(j, w) + w] == rows[j - 1]
    modifies buf, out
    ensures |rows'| == j + 1 && Holds(out, rows') && EncodedBy(raw, rows', fs', w, bpp)
    ensures buf[Half(j, w)..Half(j, w) + w] == rows'[j]
  {
    hide Encode, RowBytes, Reconstructs;
    var cur, prior := Half(j, w), w - Half(j, w);
    UnfilterRow(raw[pos], j == 0, raw, pos + 1, buf, cur, prior, w, bpp);
    ghost var row := buf[cur..cur + w];
    RowAppended(raw, pos, rows, fs, row, w, bpp);
    CopyRow(buf, cur, out, j, rows);
    rows', fs' := rows + [row], fs + [raw[pos]];
  }

  lemma RowAppended(raw: seq<Byte>, pos: nat, rows: Rows, fs: seq<Byte>, row: seq<Byte>, w: nat, bpp: nat)
    requires EncodedBy(raw, rows, fs, w, bpp) && |row| == w
    requires pos == RowBytes(|rows|, w) && pos + 1 + w <= |raw| && raw[pos] <= 4
    requires Reconstructs(raw[pos], raw[pos + 1..pos + 1 + w], row, Above(rows, |rows|, w), bpp)
    ensures EncodedBy(raw, rows + [row], fs + [raw[pos]], w, bpp)
  {
    hide Encode, RowBytes, Reconstructs, FilterRow;
    var f, data := raw[pos], raw[pos + 1..pos + 1 + w];
    ReconstructsFiltered(f, data, row, Above(rows, |rows|, w), bpp);
    EncodeSize(rows, fs, w, bpp);
    EncodeSnoc(rows, fs, row, f, w, bpp);
    assert raw[..pos + 1 + w] == raw[..pos] + ([f] + data);
  }

  lemma NoRows(raw: seq<Byte>, w: nat, bpp: nat)
    ensures EncodedBy(raw, [], [], w, bpp)
  {
  }

  lemma {:induction false} MoreRows(j: nat, y: nat, w: nat)
    requires j <= y
    ensures RowBytes(j, w) <= RowBytes(y, w)
    decreases y
  {
    if j < y { MoreRows(j, y - 1, w); }
  }

  lemma TooShort(raw: seq<Byte>, y: nat, w: nat, bpp: nat)
    requires |raw| < RowBytes(y, w)
    ensures NotEncoded(raw, y, w, bpp)
  {
    forall rows: Rows, fs: seq<Byte> | |rows| == y ensures !EncodedBy(raw, rows, fs, w, bpp) {
      if Rectangle(rows, w) && |fs| == |rows| { EncodeSize(rows, fs, w, bpp); }
    }
  }

  lemma BadFilter(raw: seq<Byte>, j: nat, y: nat, w: nat, bpp: nat)
    requires j < y && RowBytes(j, w) < |raw| && raw[RowBytes(j, w)] > 4
    ensures NotEncoded(raw, y, w, bpp)
  {
    forall rows: Rows, fs: seq<Byte> | |rows| == y ensures !EncodedBy(raw, rows, fs, w, bpp) {
      if Rectangle(rows, w) && |fs| == |rows| { FilterByte(rows, fs, w, bpp, j); }
    }
  }

  /** The decoded image is the only one. */
  lemma EncodedUnique(raw: seq<Byte>, rows: Rows, fs: seq<Byte>, rows': Rows, fs': seq<Byte>, w: nat, bpp: nat)
    requires EncodedBy(raw, rows, fs, w, bpp) && EncodedBy(raw, rows', fs', w, bpp) && |rows| == |rows'| && bpp > 0
    ensures rows == rows' && fs == fs'
  {
    EncodeSize(rows, fs, w, bpp);
    EncodeSize(rows', fs', w, bpp);
    EncodeInjective(rows, fs, rows', fs', w, bpp);
  }
}
