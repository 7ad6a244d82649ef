/** Decoding of interlaced images: seven reduced images, each decoded and spread over the final one. */
module PngInterlaced {
  import opened PngFilter
  import opened PngImage
  import opened Adam7

  function PixelIn(final: array2<Pixel>, y: nat, x: nat): Pixel
    reads final
  {
    if y < final.Length0 && x < final.Length1 then final[y, x] else []
  }

  function Picture(final: array2<Pixel>): Image
    reads final
  {
    seq(final.Length0, y requires 0 <= y reads final => seq(final.Length1, x requires 0 <= x reads final => PixelIn(final, y, x)))
  }

  function RowAt(rows: Rows, j: int): seq<Byte> {
    if 0 <= j < |rows| then rows[j] else []
  }

  /** The pixel a pass writes at a place that is its own. */
  function Written(rows: Rows, p: Pass, y: nat, x: nat, ob: nat): Pixel {
    var i := ColumnOf(p, x);
    if i < 0 then [] else PixelAt(RowAt(rows, LineOf(p, y)), i, ob)
  }

  /** Whether the copying loops of pass `p`, at row `j` and column `i`, have written this place. */
  predicate Reached(p: Pass, j: nat, i: nat, y: nat, x: nat) {
    PassOf(x, y) == p && (LineOf(p, y) < j || (LineOf(p, y) == j && ColumnOf(p, x) < i))
  }

  ghost predicate Spread(was: Image, final: array2<Pixel>, rows: Rows, p: Pass, ob: nat, j: nat, i: nat)
    reads final
  {
    forall y: nat, x: nat :: y < final.Length0 && x < final.Length1 ==>
      final[y, x] == if Reached(p, j, i, y, x) then Written(rows, p, y, x, ob) else PixelOf(was, y, x)
  }

  /** The bytes of pixel `i` in row `j`. */
  function CopiedBytes(out: array2<Byte>, j: nat, i: nat, ob: nat): (b: Pixel)
    requires j < out.Length0 && i * ob + ob <= out.Length1
    reads out
    ensures b == PixelAt(RowOf(out, j), i, ob)
  {
    seq(ob, b requires 0 <= b < ob && j < out.Length0 && i * ob + ob <= out.Length1 reads out => out[j, i * ob + b])
  }

  /** One pixel of the pass. */
  method CopyPixel(out: array2<Byte>, final: array2<Pixel>, p: Pass, ob: nat, j: nat, i: nat, ghost rows: Rows, ghost was: Image)
    requires Holds(out, rows) && |rows| == out.Length0 == Lines(p, final.Length0)
    requires out.Length1 == Columns(p, final.Length1) * ob
    requires j < out.Length0 && i < Columns(p, final.Length1)
    requires Spread(was, final, rows, p, ob, j, i)
    modifies final
    ensures Spread(was, final, rows, p, ob, j, i + 1)
  {
    var w, h := final.Length1, final.Length0;
    hide Columns, Lines, ToX, ToY, PassOf, ColumnOf, LineOf, OutX, OutY;
    PassPixel(p, i, j, w, h);
    var outY, outX := OutY(p, j), OutX(p, i);
    Fits(i, Columns(p, w), ob);
    assert PixelAt(rows[j], i, ob) == Written(rows, p, outY, outX, ob);
    final[outY, outX] := CopiedBytes(out, j, i, ob);
    hide Written, Reached;
    forall y: nat, x: nat | y < h && x < w
      ensures final[y, x] == if Reached(p, j, i + 1, y, x) then Written(rows, p, y, x, ob) else PixelOf(was, y, x)
    {
      ReachedNext(p, j, i, w, h, y, x);
    }
  }

  lemma ReachedNext(p: Pass, j: nat, i: nat, w: nat, h: nat, y: nat, x: nat)
    requires y < h && x < w
    ensures Reached(p, j, i + 1, y, x) <==> Reached(p, j, i, y, x) || (y == ToY(p, j) && x == ToX(p, i))
  {
    hide Columns, Lines, ToX, ToY, PassOf, ColumnOf, LineOf;
    PixelInPass(x, y, w, h);
    PassPixel(p, i, j, w, h);
  }

  /** The two copying loops of a pass. */
  method CopyPass(out: array2<Byte>, final: array2<Pixel>, p: Pass, ob: nat, ghost rows: Rows)
    requires Holds(out, rows) && |rows| == out.Length0 == Lines(p, final.Length0)
    requires out.Length1 == Columns(p, final.Length1) * ob
    modifies final
    ensures Spread(old(Picture(final)), final, rows, p, ob, Lines(p, final.Length0), 0)
  {
    hide Columns, Lines, ToX, ToY, PassOf, ColumnOf, LineOf, Written, Holds;
    ghost var was := Picture(final);
    var x, y := Columns(p, final.Length1), Lines(p, final.Length0);
    NothingReached(p, final);
    for j := 0 to y
      invariant Spread(was, final, rows, p, ob, j, 0)
    {
      for i := 0 to x
        invariant Spread(was, final, rows, p, ob, j, i)
      {
        CopyPixel(out, final, p, ob, j, i, rows, was);
      }
      NextLine(was, final, rows, p, ob, j);
    }
  }

  lemma NothingReached(p: Pass, final: array2<Pixel>)
    ensures forall y: nat, x: nat :: y < final.Length0 && x < final.Length1 ==> !Reached(p, 0, 0, y, x)
  {
    hide Columns, Lines, ToX, ToY, PassOf, ColumnOf, LineOf;
    forall y: nat, x: nat | y < final.Length0 && x < final.Length1 ensures !Reached(p, 0, 0, y, x) {
      PixelInPass(x, y, final.Length1, final.Length0);
    }
  }

  /** The end of one line is the beginning of the next. */
  lemma NextLine(was: Image, final: array2<Pixel>, rows: Rows, p: Pass, ob: nat, j: nat)
    requires Spread(was, final, rows, p, ob, j, Columns(p, final.Length1))
    ensures Spread(was, final, rows, p, ob, j + 1, 0)
  {
    hide Columns, Lines, ToX, ToY, PassOf, ColumnOf, LineOf, Written;
    forall y: nat, x: nat | y < final.Length0 && x < final.Length1
      ensures Reached(p, j, Columns(p, final.Length1), y, x) <==> Reached(p, j + 1, 0, y, x)
    {
      PixelInPass(x, y, final.Length1, final.Length0);
    }
  }

  /** A pass adds its own pixels and leaves those of the passes before it. */
  lemma PassShows(was: Image, final: array2<Pixel>, ds: seq<Reduced>, d: Reduced, p: Pass, ob: nat)
    requires Spread(was, final, d.rows, p, ob, Lines(p, final.Length0), 0)
    requires |ds| == p && Shows(was, ds, final.Length1, final.Length0, ob)
    ensures Shows(Picture(final), ds + [d], final.Length1, final.Length0, ob)
  {
    hide Columns, Lines, ToX, ToY, PassOf, ColumnOf, LineOf, PixelAt;
    var w, h, ds' := final.Length1, final.Length0, ds + [d];
    forall q: Pass, j: nat, i: nat | q < |ds'| && j < Lines(q, h) && i < Columns(q, w) && j < |ds'[q].rows|
      ensures PixelOf(Picture(final), ToY(q, j), ToX(q, i)) == PixelAt(ds'[q].rows[j], i, ob)
    {
      PassPixel(q, i, j, w, h);
      var y, x := ToY(q, j), ToX(q, i);
      assert PixelOf(Picture(final), y, x) == final[y, x];
      if q < p { assert PixelOf(was, y, x) == PixelAt(ds[q].rows[j], i, ob); }
    }
  }

  /** An empty pass has no pixels. */
  lemma EmptyPassShows(img: Image, ds: seq<Reduced>, p: Pass, w: nat, h: nat, ob: nat)
    requires |ds| == p && Shows(img, ds, w, h, ob)
    ensures Shows(img, ds + [Reduced([], [])], w, h, ob)
  {
    hide Columns, Lines, ToX, ToY, PixelAt, PixelOf;
    var ds' := ds + [Reduced([], [])];
    forall q: Pass, j: nat, i: nat | q < |ds'| && j < Lines(q, h) && i < Columns(q, w) && j < |ds'[q].rows|
      ensures PixelOf(img, ToY(q, j), ToX(q, i)) == PixelAt(ds'[q].rows[j], i, ob)
    {
      assert ds'[q] == ds[q];
    }
  }

  /** The data begins with the passes `ds`. */
  ghost predicate Begins(raw: seq<Byte>, ds: seq<Reduced>, w: nat, h: nat, ob: nat) {
    AreReduced(ds, w, h, ob) && EncodePasses(ds, w, h, ob) <= raw
  }

  lemma PassAppended(raw: seq<Byte>, ds: seq<Reduced>, d: Reduced, p: Pass, w: nat, h: nat, ob: nat)
    requires |ds| == p && Begins(raw, ds, w, h, ob) && IsReduced(d, p, w, h, ob)
    requires PassesSize(p, w, h, ob) <= |raw| && EncodePass(d, p, w, h, ob) <= raw[PassesSize(p, w, h, ob)..]
    ensures Begins(raw, ds + [d], w, h, ob)
  {
    hide EncodePass, IsReduced, PassesSize;
    EncodePassesSize(ds, w, h, ob);
    var ds', n := ds + [d], PassesSize(p, w, h, ob);
    assert ds'[..p] == ds && ds'[p] == d;
    assert AreReduced(ds', w, h, ob);
    var e := EncodePass(d, p, w, h, ob);
    assert raw[..n + |e|] == raw[..n] + raw[n..][..|e|];
    assert raw[..n] == EncodePasses(ds, w, h, ob);
  }

  lemma {:induction false} PassesPrefix(raw: seq<Byte>, ds: seq<Reduced>, w: nat, h: nat, ob: nat, n: nat)
    requires Begins(raw, ds, w, h, ob) && n <= |ds|
    ensures Begins(raw, ds[..n], w, h, ob)
    decreases |ds|
  {
    hide EncodePass, IsReduced;
    if n == |ds| {
      assert ds[..n] == ds;
    } else {
      var k := |ds| - 1;
      PassesPrefix(raw, ds[..k], w, h, ob, n);
      assert ds[..k][..n] == ds[..n];
    }
  }

  /** The data does not begin with seven passes of this size. */
  ghost predicate NotInterlaced(raw: seq<Byte>, w: nat, h: nat, ob: nat) {
    forall ds: seq<Reduced> :: |ds| == 7 ==> !Begins(raw, ds, w, h, ob)
  }

  lemma PassMissing(raw: seq<Byte>, p: Pass, w: nat, h: nat, ob: nat)
    requires !Empty(p, w, h) && PassesSize(p, w, h, ob) <= |raw|
    requires NotEncoded(raw[PassesSize(p, w, h, ob)..], Lines(p, h), Columns(p, w) * ob, ob)
    ensures NotInterlaced(raw, w, h, ob)
  {
    hide Columns, Lines, PassesSize, Encode;
    forall ds: seq<Reduced> | |ds| == 7 ensures !Begins(raw, ds, w, h, ob) {
      if Begins(raw, ds, w, h, ob) { PassPresent(raw, ds, p, w, h, ob); }
    }
  }

  lemma PassPresent(raw: seq<Byte>, ds: seq<Reduced>, p: Pass, w: nat, h: nat, ob: nat)
    requires !Empty(p, w, h) && |ds| == 7 && Begins(raw, ds, w, h, ob) && PassesSize(p, w, h, ob) <= |raw|
    ensures |ds[p].rows| == Lines(p, h)
    ensures EncodedBy(raw[PassesSize(p, w, h, ob)..], ds[p].rows, ds[p].fs, Columns(p, w) * ob, ob)
  {
    hide Columns, Lines, PassesSize, Encode;
    PassesPrefix(raw, ds, w, h, ob, p + 1);
    assert IsReduced(ds[p], p, w, h, ob);
    var part := ds[..p + 1];
    assert part[..p] == ds[..p] && part[p] == ds[p];
    EncodePassesSize(ds[..p], w, h, ob);
    var front, e := EncodePasses(ds[..p], w, h, ob), EncodePass(ds[p], p, w, h, ob);
    assert EncodePasses(part, w, h, ob) == front + e;
    assert raw[|front|..][..|e|] == raw[..|front| + |e|][|front|..];
  }

  lemma NoPasses(raw: seq<Byte>, img: Image, w: nat, h: nat, ob: nat)
    ensures Begins(raw, [], w, h, ob) && Shows(img, [], w, h, ob)
  {
  }

  /** The interlaced branch of `stbi__create_png_image`. */
  method CreateImage(raw: seq<Byte>, w: nat, h: nat, ob: nat) returns (ok: bool, final: array2<Pixel>, ghost ds: seq<Reduced>)
    requires ob > 0
    ensures final.Length0 == h && final.Length1 == w
    ensures ok ==> |ds| == 7 && Begins(raw, ds, w, h, ob) && Shows(Picture(final), ds, w, h, ob)
    ensures !ok ==> NotInterlaced(raw, w, h, ob)
  {
    hide Columns, Lines, Begins, Shows, NotInterlaced, Picture, EncodedBy, NotEncoded, Spread, Holds, XOrig, YOrig;
    ok, ds := true, [];
    final := new Pixel[h, w];
    NoPasses(raw, Picture(final), w, h, ob);
    var pos := 0;
    for p := 0 to 7
      invariant fresh(final)
      invariant |ds| == p && Begins(raw, ds, w, h, ob) && Shows(Picture(final), ds, w, h, ob)
      invariant pos == PassesSize(p, w, h, ob) <= |raw|
    {
      SizesAreQuotients(p, w);
      SizesAreQuotients(p, h);
      var x: nat, y: nat := (w - XOrig(p) + XSpace(p) - 1) / XSpace(p), (h - YOrig(p) + YSpace(p) - 1) / YSpace(p);
      if x > 0 && y > 0 {
        Fits(0, x, ob);
        var out: array2<Byte>;
        ghost var rows: Rows, fs: seq<Byte>;
        ok, out, rows, fs := CreateImageRaw(raw[pos..], y, x * ob, ob);
        if !ok {
          PassMissing(raw, p, w, h, ob);
          return;
        }
        ghost var was := Picture(final);
        CopyPass(out, final, p, ob, rows);
        PassShows(was, final, ds, Reduced(rows, fs), p, ob);
        PassDecoded(raw, ds, rows, fs, p, w, h, ob);
        ds := ds + [Reduced(rows, fs)];
        pos := pos + RowBytes(y, x * ob);
      } else {
        EmptyPassShows(Picture(final), ds, p, w, h, ob);
        EmptyPassDecoded(raw, ds, p, w, h, ob);
        ds := ds + [Reduced([], [])];
      }
    }
  }

  lemma PassDecoded(raw: seq<Byte>, ds: seq<Reduced>, rows: Rows, fs: seq<Byte>, p: Pass, w: nat, h: nat, ob: nat)
    requires !Empty(p, w, h) && |ds| == p && Begins(raw, ds, w, h, ob) && PassesSize(p, w, h, ob) <= |raw|
    requires |rows| == Lines(p, h) && EncodedBy(raw[PassesSize(p, w, h, ob)..], rows, fs, Columns(p, w) * ob, ob)
    ensures Begins(raw, ds + [Reduced(rows, fs)], w, h, ob) && PassesSize(p + 1, w, h, ob) <= |raw|
  {
    hide Columns, Lines, Encode;
    var d := Reduced(rows, fs);
    EncodePassSize(d, p, w, h, ob);
    PassAppended(raw, ds, d, p, w, h, ob);
  }

  lemma EmptyPassDecoded(raw: seq<Byte>, ds: seq<Reduced>, p: Pass, w: nat, h: nat, ob: nat)
    requires Empty(p, w, h) && |ds| == p && Begins(raw, ds, w, h, ob) && PassesSize(p, w, h, ob) <= |raw|
    ensures Begins(raw, ds + [Reduced([], [])], w, h, ob) && PassesSize(p + 1, w, h, ob) == PassesSize(p, w, h, ob)
  {
    hide Columns, Lines, Encode;
    PassAppended(raw, ds, Reduced([], []), p, w, h, ob);
  }

  // ----- the round trip

  /** Data that begins with an interlaced image decodes to that image and no other. */
  lemma DecodesToImage(raw: seq<Byte>, img: Image, fss: seq<seq<Byte>>, got: Image, ds: seq<Reduced>, w: nat, h: nat, ob: nat)
    requires ob > 0 && IsImage(img, w, h, ob) && PassFilters(fss, w, h)
    requires Begins(raw, Interlace(img, fss, w, h), w, h, ob)
    requires IsImage(got, w, h, ob) && |ds| == 7 && Begins(raw, ds, w, h, ob) && Shows(got, ds, w, h, ob)
    ensures got == img
  {
    hide Columns, Lines, EncodePasses;
    var ds' := Interlace(img, fss, w, h);
    InterlaceReduces(img, fss, w, h, ob);
    EncodePassesSize(ds, w, h, ob);
    EncodePassesSize(ds', w, h, ob);
    assert EncodePasses(ds, w, h, ob) == raw[..PassesSize(7, w, h, ob)] == EncodePasses(ds', w, h, ob);
    PassesInjective(ds, ds', w, h, ob);
    ShowsUnique(got, img, ds, w, h, ob);
  }

  /** What the decoder produces is an image ... */
  lemma ShownIsImage(final: array2<Pixel>, ds: seq<Reduced>, ob: nat)
    requires |ds| == 7 && AreReduced(ds, final.Length1, final.Length0, ob)
    requires Shows(Picture(final), ds, final.Length1, final.Length0, ob)
    ensures IsImage(Picture(final), final.Length1, final.Length0, ob)
  {
    var w, h, img := final.Length1, final.Length0, Picture(final);
    forall y, x | 0 <= y < h && 0 <= x < w ensures |img[y][x]| == ob {
      ShownPixel(img, ds, w, h, ob, y, x);
    }
  }

  lemma ShownPixel(img: Image, ds: seq<Reduced>, w: nat, h: nat, ob: nat, y: nat, x: nat)
    requires |ds| == 7 && AreReduced(ds, w, h, ob) && Shows(img, ds, w, h, ob) && y < h && x < w
    ensures |PixelOf(img, y, x)| == ob
  {
    hide Columns, Lines, ToX, ToY, PixelOf, PassOf, ColumnOf, LineOf;
    PixelInPass(x, y, w, h);
    var p := PassOf(x, y);
    assert IsReduced(ds[p], p, w, h, ob);
    var j: nat, i: nat := LineOf(p, y), ColumnOf(p, x);
    assert PixelOf(img, ToY(p, j), ToX(p, i)) == PixelAt(ds[p].rows[j], i, ob);
    Fits(i, Columns(p, w), ob);
  }

  /** ... whose interlaced form is what was decoded. */
  lemma ShownIsInterlaced(img: Image, ds: seq<Reduced>, w: nat, h: nat, ob: nat) returns (fss: seq<seq<Byte>>)
    requires |ds| == 7 && AreReduced(ds, w, h, ob) && Shows(img, ds, w, h, ob)
    ensures PassFilters(fss, w, h) && Interlace(img, fss, w, h) == ds
  {
    hide Columns, Lines, ToX, ToY, PixelOf, PixelAt, Flatten, PassRow;
    fss := seq(7, p requires 0 <= p < 7 => ds[p].fs);
    forall p: Pass ensures IsReduced(ds[p], p, w, h, ob) && ds[p].rows == PassRows(img, p, w, h) {
      assert IsReduced(ds[p], p, w, h, ob);
      if !Empty(p, w, h) {
        forall j: nat | j < Lines(p, h) ensures ds[p].rows[j] == Flatten(PassRow(img, p, j, w)) {
          ShownRow(img, ds, p, j, w, h, ob);
        }
      }
    }
    forall p: Pass ensures Interlace(img, fss, w, h)[p] == ds[p] {
      assert IsReduced(ds[p], p, w, h, ob);
    }
  }

  lemma ShownRow(img: Image, ds: seq<Reduced>, p: Pass, j: nat, w: nat, h: nat, ob: nat)
    requires p < |ds| && IsReduced(ds[p], p, w, h, ob) && !Empty(p, w, h) && j < Lines(p, h) && Shows(img, ds, w, h, ob)
    ensures ds[p].rows[j] == Flatten(PassRow(img, p, j, w))
  {
    hide Columns, Lines, ToX, ToY, PixelOf, PixelAt, Flatten;
    FlattenPixels(PassRow(img, p, j, w), ds[p].rows[j], ob);
  }

  /** The whole decoder: it accepts exactly the data that begins with an interlaced image, and returns that image. */
  method DecodeInterlaced(raw: seq<Byte>, w: nat, h: nat, ob: nat) returns (ok: bool, final: array2<Pixel>)
    requires ob > 0
    ensures final.Length0 == h && final.Length1 == w
    ensures ok ==> IsImage(Picture(final), w, h, ob)
    ensures ok <==> exists img, fss :: InterlacedAs(raw, img, fss, w, h, ob)
    ensures forall img, fss :: InterlacedAs(raw, img, fss, w, h, ob) ==> Picture(final) == img
  {
    hide Columns, Lines, Begins, Shows, NotInterlaced, Picture, Interlace, AreReduced, PassFilters;
    ghost var ds;
    ok, final, ds := CreateImage(raw, w, h, ob);
    if ok {
      BeginsReduced(raw, ds, w, h, ob);
      ShownIsImage(final, ds, ob);
      ghost var fss := ShownIsInterlaced(Picture(final), ds, w, h, ob);
      assert InterlacedAs(raw, Picture(final), fss, w, h, ob);
      forall img, fss | InterlacedAs(raw, img, fss, w, h, ob) ensures Picture(final) == img {
        DecodesToImage(raw, img, fss, Picture(final), ds, w, h, ob);
      }
    } else {
      forall img, fss ensures !InterlacedAs(raw, img, fss, w, h, ob) {
        NotInterlacedAs(raw, img, fss, w, h, ob);
      }
    }
  }

  /** The data begins with the interlaced form of `img`, filtered with the types `fss`. */
  ghost predicate InterlacedAs(raw: seq<Byte>, img: Image, fss: seq<seq<Byte>>, w: nat, h: nat, ob: nat) {
    IsImage(img, w, h, ob) && PassFilters(fss, w, h) && Begins(raw, Interlace(img, fss, w, h), w, h, ob)
  }

  lemma BeginsReduced(raw: seq<Byte>, ds: seq<Reduced>, w: nat, h: nat, ob: nat)
    requires Begins(raw, ds, w, h, ob)
    ensures AreReduced(ds, w, h, ob)
  {
  }

  lemma NotInterlacedAs(raw: seq<Byte>, img: Image, fss: seq<seq<Byte>>, w: nat, h: nat, ob: nat)
    requires NotInterlaced(raw, w, h, ob)
    ensures !InterlacedAs(raw, img, fss, w, h, ob)
  {
    hide Begins;
    if PassFilters(fss, w, h) { assert |Interlace(img, fss, w, h)| == 7; }
  }
}
