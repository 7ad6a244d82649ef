/** The Adam7 interlace (section 8.2 of the W3C PNG Specification): seven passes that tile every image. */
module Adam7 {
  import opened PngFilter
  import opened PngImage

  // ----- the pass geometry

  type Pass = p: nat | p < 7

  function XOrig(p: Pass): nat {
    [0, 4, 0, 2, 0, 1, 0][p]
  }

  function YOrig(p: Pass): nat {
    [0, 0, 4, 0, 2, 0, 1][p]
  }

  function XSpace(p: Pass): nat {
    [8, 8, 4, 4, 2, 2, 1][p]
  }

  function YSpace(p: Pass): nat {
    [8, 8, 8, 4, 4, 2, 2][p]
  }

  /** Where column `i` and row `j` of a pass lie in the image. */
  function ToX(p: Pass, i: nat): nat {
    match XSpace(p) case 8 => 8 * i + XOrig(p) case 4 => 4 * i + XOrig(p) case 2 => 2 * i + XOrig(p) case _ => i + XOrig(p)
  }

  function ToY(p: Pass, j: nat): nat {
    match YSpace(p) case 8 => 8 * j + YOrig(p) case 4 => 4 * j + YOrig(p) case _ => 2 * j + YOrig(p)
  }

  lemma ToIsProduct(p: Pass, i: nat)
    ensures ToX(p, i) == i * XSpace(p) + XOrig(p) && ToY(p, i) == i * YSpace(p) + YOrig(p)
  {
  }

  /** The expressions of `stbi__create_png_image` for the same place. */
  function OutX(p: Pass, i: nat): (x: nat)
    ensures x == ToX(p, i)
  {
    ToIsProduct(p, i);
    i * XSpace(p) + XOrig(p)
  }

  function OutY(p: Pass, j: nat): (y: nat)
    ensures y == ToY(p, j)
  {
    ToIsProduct(p, j);
    j * YSpace(p) + YOrig(p)
  }

  /** Size of a pass of an image of width `w` or height `h`. */
  function Columns(p: Pass, w: nat): nat {
    var n := w - XOrig(p) + XSpace(p) - 1;
    match XSpace(p) case 8 => n / 8 case 4 => n / 4 case 2 => n / 2 case _ => n
  }

  function Lines(p: Pass, h: nat): nat {
    var n := h - YOrig(p) + YSpace(p) - 1;
    match YSpace(p) case 8 => n / 8 case 4 => n / 4 case _ => n / 2
  }

  lemma SizesAreQuotients(p: Pass, n: nat)
    ensures Columns(p, n) == (n - XOrig(p) + XSpace(p) - 1) / XSpace(p)
    ensures Lines(p, n) == (n - YOrig(p) + YSpace(p) - 1) / YSpace(p)
  {
  }

  /** The pass a pixel belongs to, by its place in the 8 by 8 pattern. */
  function PassOf(x: nat, y: nat): Pass {
    if y % 2 == 1 then 6
    else if x % 2 == 1 then 5
    else if y % 4 == 2 then 4
    else if x % 4 == 2 then 3
    else if y % 8 == 4 then 2
    else if x % 8 == 4 then 1
    else 0
  }

  /** That pattern as section 8.2 prints it, its passes numbered from 1. */
  const PATTERN: seq<seq<nat>> := [
    [1, 6, 4, 6, 2, 6, 4, 6],
    [7, 7, 7, 7, 7, 7, 7, 7],
    [5, 6, 5, 6, 5, 6, 5, 6],
    [7, 7, 7, 7, 7, 7, 7, 7],
    [3, 6, 4, 6, 3, 6, 4, 6],
    [7, 7, 7, 7, 7, 7, 7, 7],
    [5, 6, 5, 6, 5, 6, 5, 6],
    [7, 7, 7, 7, 7, 7, 7, 7]]

  /** The passes repeat the pattern over the image. */
  lemma PatternRepeats(x: nat, y: nat)
    ensures PassOf(x, y) + 1 == PATTERN[y % 8][x % 8]
  {
    WithinPattern(x, y);
    PatternAt(x % 8, y % 8);
    hide PATTERN;
  }

  lemma WithinPattern(x: nat, y: nat)
    ensures PassOf(x, y) == PassOf(x % 8, y % 8)
  {
    Within(x);
    Within(y);
  }

  lemma Within(n: nat)
    ensures n % 8 % 2 == n % 2 && n % 8 % 4 == n % 4 && n % 8 % 8 == n % 8
  {
    Eights(n / 8, n % 8);
  }

  lemma PatternAt(x: nat, y: nat)
    requires x < 8 && y < 8
    ensures PassOf(x, y) + 1 == PATTERN[y][x]
  {
  }

  /** The column and row a pixel has in its pass. */
  function ColumnOf(p: Pass, x: nat): int {
    match XSpace(p) case 8 => (x - XOrig(p)) / 8 case 4 => (x - XOrig(p)) / 4 case 2 => (x - XOrig(p)) / 2 case _ => x
  }

  function LineOf(p: Pass, y: nat): int {
    match YSpace(p) case 8 => (y - YOrig(p)) / 8 case 4 => (y - YOrig(p)) / 4 case _ => (y - YOrig(p)) / 2
  }

  /** The columns and rows that have pixels of a pass. */
  predicate OnColumn(p: Pass, x: nat) {
    match XSpace(p) case 8 => x % 8 == XOrig(p) case 4 => x % 4 == XOrig(p) case 2 => x % 2 == XOrig(p) case _ => true
  }

  predicate OnLine(p: Pass, y: nat) {
    match YSpace(p) case 8 => y % 8 == YOrig(p) case 4 => y % 4 == YOrig(p) case _ => y % 2 == YOrig(p)
  }

  lemma PassMeets(x: nat, y: nat)
    ensures OnColumn(PassOf(x, y), x) && OnLine(PassOf(x, y), y)
  {
  }

  lemma ColumnInPass(p: Pass, x: nat, w: nat)
    requires x < w && OnColumn(p, x)
    ensures 0 <= ColumnOf(p, x) < Columns(p, w) && ToX(p, ColumnOf(p, x)) == x
  {
    match p { case 0 => case 1 => case 2 => case 3 => case 4 => case 5 => case 6 => }
  }

  lemma LineInPass(p: Pass, y: nat, h: nat)
    requires y < h && OnLine(p, y)
    ensures 0 <= LineOf(p, y) < Lines(p, h) && ToY(p, LineOf(p, y)) == y
  {
    match p { case 0 => case 1 => case 2 => case 3 => case 4 => case 5 => case 6 => }
  }

  /** Every pixel is a pixel of its pass ... */
  lemma PixelInPass(x: nat, y: nat, w: nat, h: nat)
    requires x < w && y < h
    ensures 0 <= ColumnOf(PassOf(x, y), x) < Columns(PassOf(x, y), w) && ToX(PassOf(x, y), ColumnOf(PassOf(x, y), x)) == x
    ensures 0 <= LineOf(PassOf(x, y), y) < Lines(PassOf(x, y), h) && ToY(PassOf(x, y), LineOf(PassOf(x, y), y)) == y
  {
    hide PassOf, ColumnOf, LineOf, Columns, Lines, ToX, ToY, OnColumn, OnLine;
    PassMeets(x, y);
    ColumnInPass(PassOf(x, y), x, w);
    LineInPass(PassOf(x, y), y, h);
  }

  lemma PassColumn(p: Pass, i: nat, w: nat)
    ensures i < Columns(p, w) <==> ToX(p, i) < w
    ensures ColumnOf(p, ToX(p, i)) == i
  {
    match p { case 0 => case 1 => case 2 => case 3 => case 4 => case 5 => case 6 => }
  }

  lemma PassLine(p: Pass, j: nat, h: nat)
    ensures j < Lines(p, h) <==> ToY(p, j) < h
    ensures LineOf(p, ToY(p, j)) == j
  {
    match p { case 0 => case 1 => case 2 => case 3 => case 4 => case 5 => case 6 => }
  }

  lemma PassPlace(p: Pass, i: nat, j: nat)
    ensures PassOf(ToX(p, i), ToY(p, j)) == p
  {
    PassColumns(p, i);
    PassLines(p, j);
    hide ToX, ToY;
  }

  lemma PassColumns(p: Pass, i: nat)
    ensures p < 6 ==> (p == 5 <==> ToX(p, i) % 2 == 1)
    ensures p < 4 ==> (p == 3 <==> ToX(p, i) % 4 == 2)
    ensures p < 2 ==> (p == 1 <==> ToX(p, i) % 8 == 4)
  {
    if p < 2 { Eights(i, XOrig(p)); } else if p < 4 { Fours(i, XOrig(p)); } else if p < 6 { Twos(i, XOrig(p)); }
  }

  lemma PassLines(p: Pass, j: nat)
    ensures p == 6 <==> ToY(p, j) % 2 == 1
    ensures p < 5 ==> (p == 4 <==> ToY(p, j) % 4 == 2)
    ensures p < 3 ==> (p == 2 <==> ToY(p, j) % 8 == 4)
  {
    if p < 3 { Eights(j, YOrig(p)); } else if p < 5 { Fours(j, YOrig(p)); } else { Twos(j, YOrig(p)); }
  }

  // Adding a multiple changes no remainder.

  lemma Twos(q: nat, r: nat)
    ensures (2 * q + r) % 2 == r % 2
  {
  }

  lemma FoursAlone(q: nat, r: nat)
    ensures (4 * q + r) % 4 == r % 4
  {
  }

  lemma EightsAlone(q: nat, r: nat)
    ensures (8 * q + r) % 8 == r % 8
  {
  }

  lemma Fours(q: nat, r: nat)
    ensures (4 * q + r) % 4 == r % 4 && (4 * q + r) % 2 == r % 2
  {
    FoursAlone(q, r);
    Twos(2 * q, r);
  }

  lemma Eights(q: nat, r: nat)
    ensures (8 * q + r) % 8 == r % 8 && (8 * q + r) % 4 == r % 4 && (8 * q + r) % 2 == r % 2
  {
    EightsAlone(q, r);
    FoursAlone(2 * q, r);
    Twos(4 * q, r);
  }

  /** ... and every pixel of a pass is a pixel of the image, of that pass and no other. */
  lemma PassPixel(p: Pass, i: nat, j: nat, w: nat, h: nat)
    ensures i < Columns(p, w) <==> ToX(p, i) < w
    ensures j < Lines(p, h) <==> ToY(p, j) < h
    ensures PassOf(ToX(p, i), ToY(p, j)) == p && ColumnOf(p, ToX(p, i)) == i && LineOf(p, ToY(p, j)) == j
  {
    hide PassOf, ColumnOf, LineOf, Columns, Lines, ToX, ToY;
    PassColumn(p, i, w);
    PassLine(p, j, h);
    PassPlace(p, i, j);
  }

  // ----- pixels of a row

  type Pixel = seq<Byte>

  ghost predicate Pixels(ps: seq<Pixel>, ob: nat) {
    forall i :: 0 <= i < |ps| ==> |ps[i]| == ob
  }

  /** The bytes of a row of pixels. */
  function Flatten(ps: seq<Pixel>): seq<Byte> {
    if ps == [] then [] else Flatten(ps[..|ps| - 1]) + ps[|ps| - 1]
  }

  lemma {:induction false} FlattenSize(ps: seq<Pixel>, ob: nat)
    requires Pixels(ps, ob)
    ensures |Flatten(ps)| == |ps| * ob
  {
    if ps != [] {
      Fits(|ps| - 1, |ps|, ob);
      FlattenSize(ps[..|ps| - 1], ob);
    }
  }

  /** Pixel `i` of a row. */
  function PixelAt(row: seq<Byte>, i: nat, ob: nat): Pixel {
    if i * ob + ob <= |row| then row[i * ob..i * ob + ob] else []
  }

  lemma {:induction false} PixelOfFlatten(ps: seq<Pixel>, i: nat, ob: nat)
    requires Pixels(ps, ob) && i < |ps|
    ensures PixelAt(Flatten(ps), i, ob) == ps[i]
  {
    hide PixelAt;
    var n := |ps| - 1;
    FlattenSize(ps[..n], ob);
    if i < n {
      Fits(i, n, ob);
      PixelAtFront(Flatten(ps[..n]), ps[n], i, ob);
      PixelOfFlatten(ps[..n], i, ob);
    } else {
      PixelAtEnd(Flatten(ps[..n]), ps[n], i, ob);
    }
  }

  lemma PixelAtFront(a: seq<Byte>, b: seq<Byte>, i: nat, ob: nat)
    requires i * ob + ob <= |a|
    ensures PixelAt(a + b, i, ob) == PixelAt(a, i, ob)
  {
  }

  lemma PixelAtEnd(a: seq<Byte>, b: seq<Byte>, i: nat, ob: nat)
    requires |a| == i * ob && |b| == ob
    ensures PixelAt(a + b, i, ob) == b
  {
  }

  lemma Fits(i: nat, n: nat, ob: nat)
    requires i < n
    ensures i * ob + ob <= n * ob && (i == n - 1 ==> i * ob + ob == n * ob)
  {
    var d := n - 1 - i;
    assert n * ob == i * ob + ob + d * ob;
  }

  /** A row is its pixels. */
  lemma {:induction false} FlattenPixels(ps: seq<Pixel>, row: seq<Byte>, ob: nat)
    requires |row| == |ps| * ob && forall i :: 0 <= i < |ps| ==> ps[i] == PixelAt(row, i, ob)
    ensures Flatten(ps) == row
    decreases |ps|
  {
    if ps != [] {
      var n := |ps| - 1;
      Fits(n, |ps|, ob);
      var front, back := row[..n * ob], row[n * ob..];
      assert row == front + back;
      PixelAtEnd(front, back, n, ob);
      hide PixelAt, Flatten;
      forall i | 0 <= i < n ensures ps[..n][i] == PixelAt(front, i, ob) {
        Fits(i, n, ob);
        PixelAtFront(front, back, i, ob);
      }
      FlattenPixels(ps[..n], front, ob);
      FlattenLast(ps);
    } else {
      FlattenNone(ps);
    }
  }

  lemma FlattenLast(ps: seq<Pixel>)
    requires ps != []
    ensures Flatten(ps) == Flatten(ps[..|ps| - 1]) + ps[|ps| - 1]
  {
  }

  lemma FlattenNone(ps: seq<Pixel>)
    ensures ps == [] ==> Flatten(ps) == []
  {
  }

  // ----- interlaced images

  type Image = seq<seq<Pixel>>

  ghost predicate IsImage(img: Image, w: nat, h: nat, ob: nat) {
    |img| == h && forall y :: 0 <= y < h ==> |img[y]| == w && Pixels(img[y], ob)
  }

  function PixelOf(img: Image, y: nat, x: nat): Pixel {
    if y < |img| && x < |img[y]| then img[y][x] else []
  }

  predicate Empty(p: Pass, w: nat, h: nat) {
    Columns(p, w) == 0 || Lines(p, h) == 0
  }

  /** One reduced image, as rows of bytes with a filter type for each. */
  datatype Reduced = Reduced(rows: Rows, fs: seq<Byte>)

  ghost predicate IsReduced(d: Reduced, p: Pass, w: nat, h: nat, ob: nat) {
    if Empty(p, w, h) then d == Reduced([], [])
    else |d.rows| == Lines(p, h) && Rectangle(d.rows, Columns(p, w) * ob) && FilterTypes(d.fs, |d.rows|)
  }

  ghost predicate AreReduced(ds: seq<Reduced>, w: nat, h: nat, ob: nat) {
    |ds| <= 7 && forall p: Pass :: p < |ds| ==> IsReduced(ds[p], p, w, h, ob)
  }

  ghost function EncodePass(d: Reduced, p: Pass, w: nat, h: nat, ob: nat): seq<Byte>
    requires IsReduced(d, p, w, h, ob)
  {
    if Empty(p, w, h) then [] else Encode(d.rows, d.fs, Columns(p, w) * ob, ob)
  }

  /** The passes one after the other; an empty pass has no data. */
  ghost function EncodePasses(ds: seq<Reduced>, w: nat, h: nat, ob: nat): seq<Byte>
    requires AreReduced(ds, w, h, ob)
  {
    if ds == [] then []
    else var n := |ds| - 1; EncodePasses(ds[..n], w, h, ob) + EncodePass(ds[n], n, w, h, ob)
  }

  function PassSize(p: Pass, w: nat, h: nat, ob: nat): nat {
    if Empty(p, w, h) then 0 else RowBytes(Lines(p, h), Columns(p, w) * ob)
  }

  function PassesSize(n: nat, w: nat, h: nat, ob: nat): nat
    requires n <= 7
  {
    if n == 0 then 0 else PassesSize(n - 1, w, h, ob) + PassSize(n - 1, w, h, ob)
  }

  lemma EncodePassSize(d: Reduced, p: Pass, w: nat, h: nat, ob: nat)
    requires IsReduced(d, p, w, h, ob)
    ensures |EncodePass(d, p, w, h, ob)| == PassSize(p, w, h, ob)
  {
    if !Empty(p, w, h) { EncodeSize(d.rows, d.fs, Columns(p, w) * ob, ob); }
  }

  lemma {:induction false} EncodePassesSize(ds: seq<Reduced>, w: nat, h: nat, ob: nat)
    requires AreReduced(ds, w, h, ob)
    ensures |EncodePasses(ds, w, h, ob)| == PassesSize(|ds|, w, h, ob)
  {
    hide EncodePass, PassSize, IsReduced;
    if ds != [] {
      var n := |ds| - 1;
      EncodePassesSize(ds[..n], w, h, ob);
      EncodePassSize(ds[n], n, w, h, ob);
    }
  }

  /** The image has the pixels of the reduced images where the passes put them. */
  ghost predicate Shows(img: Image, ds: seq<Reduced>, w: nat, h: nat, ob: nat) {
    forall p: Pass, j: nat, i: nat :: p < |ds| && j < Lines(p, h) && i < Columns(p, w) && j < |ds[p].rows| ==>
      PixelOf(img, ToY(p, j), ToX(p, i)) == PixelAt(ds[p].rows[j], i, ob)
  }

  ghost function PassRow(img: Image, p: Pass, j: nat, w: nat): seq<Pixel> {
    seq(Columns(p, w), i requires 0 <= i => PixelOf(img, ToY(p, j), ToX(p, i)))
  }

  ghost function PassRows(img: Image, p: Pass, w: nat, h: nat): Rows {
    if Empty(p, w, h) then [] else seq(Lines(p, h), j requires 0 <= j => Flatten(PassRow(img, p, j, w)))
  }

  lemma PassRowPixels(img: Image, p: Pass, j: nat, w: nat, h: nat, ob: nat)
    requires IsImage(img, w, h, ob) && j < Lines(p, h)
    ensures Pixels(PassRow(img, p, j, w), ob)
  {
    hide Columns, Lines, ToX, ToY;
    forall i | 0 <= i < Columns(p, w) ensures |PassRow(img, p, j, w)[i]| == ob {
      PassPixel(p, i, j, w, h);
    }
  }

  /** Interlacing an image: its reduced images, with any filter types. */
  ghost function Interlace(img: Image, fss: seq<seq<Byte>>, w: nat, h: nat): seq<Reduced>
    requires |fss| == 7
  {
    seq(7, p requires 0 <= p < 7 => Reduced(PassRows(img, p, w, h), if Empty(p, w, h) then [] else fss[p]))
  }

  ghost predicate PassFilters(fss: seq<seq<Byte>>, w: nat, h: nat) {
    |fss| == 7 && forall p: Pass :: p < |fss| && !Empty(p, w, h) ==> FilterTypes(fss[p], Lines(p, h))
  }

  lemma InterlaceReduces(img: Image, fss: seq<seq<Byte>>, w: nat, h: nat, ob: nat)
    requires IsImage(img, w, h, ob) && PassFilters(fss, w, h)
    ensures AreReduced(Interlace(img, fss, w, h), w, h, ob) && Shows(img, Interlace(img, fss, w, h), w, h, ob)
  {
    hide Columns, Lines, ToX, ToY, PassRow, PixelAt, Flatten, PixelOf;
    var ds := Interlace(img, fss, w, h);
    forall p: Pass, j: nat | p < 7 && !Empty(p, w, h) && j < Lines(p, h)
      ensures |ds[p].rows[j]| == Columns(p, w) * ob
    {
      PassRowSize(img, p, j, w, h, ob);
    }
    forall p: Pass, j: nat, i: nat | p < |ds| && j < Lines(p, h) && i < Columns(p, w) && j < |ds[p].rows|
      ensures PixelOf(img, ToY(p, j), ToX(p, i)) == PixelAt(ds[p].rows[j], i, ob)
    {
      PassRowShows(img, p, j, i, w, h, ob);
    }
  }

  lemma PassRowSize(img: Image, p: Pass, j: nat, w: nat, h: nat, ob: nat)
    requires IsImage(img, w, h, ob) && j < Lines(p, h)
    ensures |Flatten(PassRow(img, p, j, w))| == Columns(p, w) * ob
  {
    hide Columns, Lines, ToX, ToY, Flatten, PixelOf;
    PassRowPixels(img, p, j, w, h, ob);
    FlattenSize(PassRow(img, p, j, w), ob);
  }

  lemma PassRowShows(img: Image, p: Pass, j: nat, i: nat, w: nat, h: nat, ob: nat)
    requires IsImage(img, w, h, ob) && j < Lines(p, h) && i < Columns(p, w)
    ensures PixelAt(Flatten(PassRow(img, p, j, w)), i, ob) == PixelOf(img, ToY(p, j), ToX(p, i))
  {
    hide Columns, Lines, ToX, ToY, Flatten, PixelOf, PixelAt;
    PassRowPixels(img, p, j, w, h, ob);
    PixelOfFlatten(PassRow(img, p, j, w), i, ob);
  }

  /** The passes cover the image: two images with the same reduced images are the same. */
  lemma ShowsUnique(img: Image, img': Image, ds: seq<Reduced>, w: nat, h: nat, ob: nat)
    requires |ds| == 7 && AreReduced(ds, w, h, ob) && IsImage(img, w, h, ob) && IsImage(img', w, h, ob)
    requires Shows(img, ds, w, h, ob) && Shows(img', ds, w, h, ob)
    ensures img == img'
  {
    forall y, x | 0 <= y < h && 0 <= x < w ensures img[y][x] == img'[y][x] {
      SamePixel(img, img', ds, w, h, ob, y, x);
    }
    forall y | 0 <= y < h ensures img[y] == img'[y] {
      assert forall x :: 0 <= x < w ==> img[y][x] == img'[y][x];
    }
  }

  lemma SamePixel(img: Image, img': Image, ds: seq<Reduced>, w: nat, h: nat, ob: nat, y: nat, x: nat)
    requires |ds| == 7 && AreReduced(ds, w, h, ob) && Shows(img, ds, w, h, ob) && Shows(img', ds, w, h, ob)
    requires y < h && x < w
    ensures PixelOf(img, y, x) == PixelOf(img', y, x)
  {
    hide Columns, Lines, ToX, ToY, PixelOf, PixelAt, PassOf, ColumnOf, LineOf;
    PixelInPass(x, y, w, h);
    var p := PassOf(x, y);
    assert IsReduced(ds[p], p, w, h, ob);
    var j: nat, i: nat := LineOf(p, y), ColumnOf(p, x);
    assert PixelOf(img, ToY(p, j), ToX(p, i)) == PixelAt(ds[p].rows[j], i, ob);
  }

  /** The data of all passes determines the reduced images. */
  lemma {:induction false} PassesInjective(ds: seq<Reduced>, ds': seq<Reduced>, w: nat, h: nat, ob: nat)
    requires AreReduced(ds, w, h, ob) && AreReduced(ds', w, h, ob) && |ds| == |ds'| && ob > 0
    requires EncodePasses(ds, w, h, ob) == EncodePasses(ds', w, h, ob)
    ensures ds == ds'
    decreases |ds|
  {
    hide EncodePass, PassSize, IsReduced;
    if ds != [] {
      var n := |ds| - 1;
      EncodePassesSize(ds[..n], w, h, ob);
      EncodePassesSize(ds'[..n], w, h, ob);
      SameParts(EncodePasses(ds[..n], w, h, ob), EncodePass(ds[n], n, w, h, ob),
                EncodePasses(ds'[..n], w, h, ob), EncodePass(ds'[n], n, w, h, ob));
      PassesInjective(ds[..n], ds'[..n], w, h, ob);
      PassInjective(ds[n], ds'[n], n, w, h, ob);
      assert ds == ds[..n] + [ds[n]] && ds' == ds'[..n] + [ds'[n]];
    }
  }

  lemma PassInjective(d: Reduced, d': Reduced, p: Pass, w: nat, h: nat, ob: nat)
    requires IsReduced(d, p, w, h, ob) && IsReduced(d', p, w, h, ob) && ob > 0
    requires EncodePass(d, p, w, h, ob) == EncodePass(d', p, w, h, ob)
    ensures d == d'
  {
    hide Columns, Lines;
    if !Empty(p, w, h) { EncodeInjective(d.rows, d.fs, d'.rows, d'.fs, Columns(p, w) * ob, ob); }
  }
}
