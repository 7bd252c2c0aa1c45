/** Rectangles of a blit: clipping, rotation, scaling by integer division and flips, and the
    batching of the requests of one call. */
module Copybit {
  import opened Arithmetic

  datatype Rect = Rect(l: int, t: int, r: int, b: int)

  /** A rectangle of the display processor; its fields are unsigned. */
  datatype Area = Area(x: uint32, y: uint32, w: uint32, h: uint32)

  datatype Format = RGBA8888 | BGRA8888 | RGBA5551 | RGBA4444 | Other(code: nat)

  datatype Image = Image(w: uint32, h: uint32, format: Format)

  datatype Transform = Transform(rot90: bool, flipH: bool, flipV: bool)

  datatype Request = Request(dst: Image, src: Image, dstArea: Area, srcArea: Area)

  function U(i: int): uint32 { i % WORD }

  lemma AsUnsigned(i: int)
    requires 0 <= i < WORD
    ensures U(i) == i
  {
  }

  lemma AsWrapped(i: int)
    requires -WORD <= i < WORD
    ensures U(i) == if i < 0 then i + WORD else i
  {
  }

  function Min(a: int, b: int): int { if a < b then a else b }
  function Max(a: int, b: int): int { if a > b then a else b }

  function Intersect(a: Rect, b: Rect): Rect {
    Rect(Max(a.l, b.l), Max(a.t, b.t), Min(a.r, b.r), Min(a.b, b.b))
  }

  /** a * mul / div in unsigned arithmetic, for one of MULDIV's two numbers. */
  function MulDiv(a: uint32, mul: int, div: int): uint32
    requires U(mul) == U(div) || U(div) != 0
  {
    if U(mul) == U(div) then a else Quotient(U(U(mul) * a), U(div))
  }

  function Quotient(a: uint32, div: int): (q: uint32)
    requires div > 0
  {
    QuotientBounds(a, div);
    a / div
  }

  lemma QuotientBounds(a: nat, div: int)
    requires div > 0
    ensures 0 <= a / div <= a && a / div * div <= a < (a / div + 1) * div
  {
    var q := a / div;
    assert a == div * q + a % div;
    assert q < 0 ==> div * q <= -div by { if q < 0 { Product(div, -q - 1); } }
    if q >= 0 { Product(q, div - 1); }
  }

  lemma Product(a: int, b: int)
    requires a >= 0 && b >= 0
    ensures a * b >= 0 && a * (b + 1) == a * b + a
  {
  }

  // ---------- One request ----------

  /** The rectangles of a call: the whole destination rectangle, the source rectangle that is
      scaled to it, and the images they lie in. */
  datatype Job = Job(tr: Transform, dst: Image, src: Image, dstRect: Rect, srcRect: Rect)

  /** The size of the destination as the source sees it. */
  function Wide(j: Job): int {
    if j.tr.rot90 then j.dstRect.b - j.dstRect.t else j.dstRect.r - j.dstRect.l
  }

  function High(j: Job): int {
    if j.tr.rot90 then j.dstRect.r - j.dstRect.l else j.dstRect.b - j.dstRect.t
  }

  /** No division by zero: MULDIV divides unless the two sizes, which may wrap around, are equal. */
  predicate Divisible(j: Job) {
    && (U(Wide(j)) == 0 ==> U(j.srcRect.r - j.srcRect.l) == 0)
    && (U(High(j)) == 0 ==> U(j.srcRect.b - j.srcRect.t) == 0)
  }

  /** The coordinates are ints. */
  predicate Ints(r: Rect) {
    -SIGN <= r.l < SIGN && -SIGN <= r.t < SIGN && -SIGN <= r.r < SIGN && -SIGN <= r.b < SIGN
  }

  /** The part of the destination that a region's rectangle asks for. */
  function Clip(j: Job, clip: Rect): Rect {
    Intersect(Intersect(Rect(0, 0, j.dst.w, j.dst.h), clip), j.dstRect)
  }

  function DstArea(c: Rect): Area {
    Area(U(c.l), U(c.t), U(c.r - c.l), U(c.b - c.t))
  }

  /** The source rectangle of a clip before scaling. */
  function Unscaled(j: Job, c: Rect): Area {
    if j.tr.rot90 then
      Area(U(c.t - j.dstRect.t + j.srcRect.t), U(j.dstRect.r - c.r + j.srcRect.l), U(c.b - c.t), U(c.r - c.l))
    else
      Area(U(c.l - j.dstRect.l + j.srcRect.l), U(c.t - j.dstRect.t + j.srcRect.t), U(c.r - c.l), U(c.b - c.t))
  }

  function Scaled(j: Job, a: Area): Area
    requires Divisible(j)
  {
    var mx, my := j.srcRect.r - j.srcRect.l, j.srcRect.b - j.srcRect.t;
    Area(MulDiv(a.x, mx, Wide(j)), MulDiv(a.y, my, High(j)), MulDiv(a.w, mx, Wide(j)), MulDiv(a.h, my, High(j)))
  }

  function Flipped(j: Job, a: Area): Area {
    var v := if j.tr.flipV then a.(y := U(j.src.h - (a.y + a.h))) else a;
    if j.tr.flipH then v.(x := U(j.src.w - (v.x + v.w))) else v
  }

  /** set_rects */
  function MakeRequest(j: Job, clip: Rect): Request
    requires Divisible(j)
  {
    var c := Clip(j, clip);
    Request(j.dst, j.src, DstArea(c), Flipped(j, Scaled(j, Unscaled(j, c))))
  }

  predicate Inside(a: Area, image: Image) { a.x + a.w <= image.w && a.y + a.h <= image.h }

  predicate Ordered(r: Rect) { r.l <= r.r && r.t <= r.b }

  lemma CancelDivisor(q: int, m: int, div: int)
    requires div > 0 && q * div <= m * div
    ensures q <= m
  {
    if q > m { TimesMonotone(m + 1, q, div); }
  }

  lemma RoundedDown(a: nat, b: nat, x: nat, w: nat, mul: nat, div: int)
    requires div > 0 && x + w <= div && a * div <= mul * x && b * div <= mul * w
    ensures a + b <= mul
  {
    TimesMonotone(x + w, div, mul);
    assert (a + b) * div == a * div + b * div;
    assert (x + w) * mul == mul * x + mul * w;
    CancelDivisor(a + b, mul, div);
  }

  lemma ScaledBound(a: uint32, mul: uint32, div: uint32)
    requires div > 0 && mul != div
    ensures MulDiv(a, mul, div) * div <= mul * a
  {
    Product(mul, a);
    Wraps(mul * a);
    QuotientBounds(U(mul * a), div);
  }

  lemma Wraps(i: nat)
    ensures U(i) <= i
  {
  }

  /** Position and size, each rounded down, still end inside the source, even if the products
      wrap around. */
  lemma ScalesInside(x: uint32, w: uint32, mul: uint32, div: uint32)
    requires x + w <= div && (div == 0 ==> mul == 0)
    ensures MulDiv(x, mul, div) + MulDiv(w, mul, div) <= mul
  {
    if mul != div {
      ScaledBound(x, mul, div);
      ScaledBound(w, mul, div);
      RoundedDown(MulDiv(x, mul, div), MulDiv(w, mul, div), x, w, mul, div);
    }
  }

  /** Where the product does not wrap, scaling is division rounded down. */
  lemma ScalesExactly(a: uint32, mul: uint32, div: uint32)
    requires div > 0 && mul * a < WORD
    ensures MulDiv(a, mul, div) == mul * a / div
  {
    Product(mul, a);
    AsUnsigned(mul);
    AsUnsigned(div);
    AsUnsigned(mul * a);
    if mul == div {
      DivideProduct(a, div);
    } else {
      assert MulDiv(a, mul, div) == Quotient(mul * a, div);
    }
  }

  lemma DivideProduct(a: nat, div: int)
    requires div > 0
    ensures div * a / div == a
  {
    Product(a, div);
    assert div * a == a * div;
    QuotientBounds(div * a, div);
    CancelDivisor(div * a / div, a, div);
    CancelStrictly(a, div * a / div + 1, div);
  }

  lemma CancelStrictly(q: int, m: int, div: int)
    requires div > 0 && q * div < m * div
    ensures q < m
  {
    if q >= m { TimesMonotone(m, q, div); }
  }

  lemma UnscaledInside(j: Job, c: Rect)
    requires Ints(j.dstRect) && j.srcRect.l == 0 && j.srcRect.t == 0 && Ordered(c)
    requires j.dstRect.l <= c.l && c.r <= j.dstRect.r && j.dstRect.t <= c.t && c.b <= j.dstRect.b
    ensures var a := Unscaled(j, c); a.x + a.w <= Wide(j) && a.y + a.h <= High(j)
  {
    var x, y := c.l - j.dstRect.l, c.t - j.dstRect.t;
    AsUnsigned(x);
    AsUnsigned(y);
    AsUnsigned(j.dstRect.r - c.r);
    AsUnsigned(c.r - c.l);
    AsUnsigned(c.b - c.t);
  }

  lemma FlippedInside(j: Job, a: Area)
    requires Inside(a, j.src)
    ensures Inside(Flipped(j, a), j.src)
  {
    AsUnsigned(j.src.h - (a.y + a.h));
    AsUnsigned(j.src.w - (a.x + a.w));
  }

  lemma ScaledInside(j: Job, a: Area)
    requires Divisible(j) && j.srcRect.l == 0 && j.srcRect.t == 0
    requires 0 <= j.srcRect.r <= j.src.w && 0 <= j.srcRect.b <= j.src.h
    requires a.x + a.w <= Wide(j) < WORD && a.y + a.h <= High(j) < WORD
    ensures Inside(Scaled(j, a), j.src)
  {
    AsUnsigned(Wide(j));
    AsUnsigned(High(j));
    AsUnsigned(j.srcRect.r);
    AsUnsigned(j.srcRect.b);
    ScalesInside(a.x, a.w, j.srcRect.r, Wide(j));
    ScalesInside(a.y, a.h, j.srcRect.b, High(j));
  }

  /** With the source rectangle at the origin of the source image, the scaled source of every
      clip lies inside the source image, for every rotation and flip. */
  lemma SourceInside(j: Job, clip: Rect)
    requires Divisible(j) && Ints(j.dstRect) && j.srcRect.l == 0 && j.srcRect.t == 0
    requires 0 <= j.srcRect.r <= j.src.w && 0 <= j.srcRect.b <= j.src.h
    requires Ordered(Clip(j, clip))
    ensures Inside(MakeRequest(j, clip).srcArea, j.src)
  {
    var a := Unscaled(j, Clip(j, clip));
    UnscaledInside(j, Clip(j, clip));
    ScaledInside(j, a);
    FlippedInside(j, Scaled(j, a));
  }

  lemma AxisInside(from: int, to: int, size: nat)
    requires 0 <= from < SIGN && -SIGN <= to <= size <= 4096
    ensures U(from) + U(to - from) <= size <==> from <= to
  {
    AsUnsigned(from);
    if from <= to {
      AsUnsigned(to - from);
    } else {
      assert U(to - from) == to - from + WORD;
    }
  }

  /** The destination lies inside the destination image exactly if the clip is not inverted.  A
      rectangle of the region that misses the destination has a negative size, which becomes a
      huge unsigned one. */
  lemma DestinationInside(j: Job, clip: Rect)
    requires Divisible(j) && Ints(j.dstRect) && Ints(clip) && j.dst.w <= 4096 && j.dst.h <= 4096
    ensures Inside(MakeRequest(j, clip).dstArea, j.dst) <==> Ordered(Clip(j, clip))
  {
    var c := Clip(j, clip);
    AxisInside(c.l, c.r, j.dst.w);
    AxisInside(c.t, c.b, j.dst.h);
  }

  // ---------- Which part of the source a request takes ----------

  /** q is a * mul / div rounded down. */
  predicate IsFloor(q: int, a: int, mul: int, div: int) { q * div <= a * mul < (q + 1) * div }

  /** The product a * mul does not wrap, or is not needed to scale to the same size. */
  predicate NoOverflow(a: int, mul: int, div: int) { mul == div || a * mul < WORD }

  /** MULDIV rounds down exactly if it need not multiply or the product does not wrap. */
  lemma FloorExactly(a: uint32, mul: uint32, div: uint32)
    requires div > 0
    ensures IsFloor(MulDiv(a, mul, div), a, mul, div) <==> NoOverflow(a, mul, div)
  {
    AsUnsigned(mul);
    AsUnsigned(div);
    Product(mul, a);
    var q := MulDiv(a, mul, div);
    assert (q + 1) * div == q * div + div;
    if mul != div {
      QuotientBounds(U(mul * a), div);
      if a * mul >= WORD { WrapsAtLeastOnce(mul * a); }
    }
  }

  lemma FloorsExactly(a: uint32, b: uint32, mul: uint32, div: uint32)
    requires div > 0
    ensures IsFloor(MulDiv(a, mul, div), a, mul, div) <==> NoOverflow(a, mul, div)
    ensures IsFloor(MulDiv(b, mul, div), b, mul, div) <==> NoOverflow(b, mul, div)
  {
    FloorExactly(a, mul, div);
    FloorExactly(b, mul, div);
  }

  lemma WrapsAtLeastOnce(i: int)
    requires i >= WORD
    ensures U(i) <= i - WORD
  {
  }

  /** Mirroring twice. */
  lemma Mirrored(size: uint32, x: uint32, w: uint32)
    ensures U(size - (U(size - (x + w)) + w)) == x
  {
  }

  /** A clip of the destination with at least one pixel, in a job that stretch_copybit accepts. */
  predicate Proper(j: Job, c: Rect) {
    && c.l < c.r && c.t < c.b
    && Ints(j.dstRect) && j.dst.w <= 4096 && j.dst.h <= 4096 && j.src.w <= 4096 && j.src.h <= 4096
    && 0 <= j.srcRect.l <= j.srcRect.r <= j.src.w && 0 <= j.srcRect.t <= j.srcRect.b <= j.src.h
  }

  lemma ProperSizes(j: Job, clip: Rect)
    requires Proper(j, Clip(j, clip))
    ensures Divisible(j) && 0 < Wide(j) < WORD && 0 < High(j) < WORD
  {
    AsUnsigned(Wide(j));
    AsUnsigned(High(j));
  }

  lemma PositionExactly(j: Job, clip: Rect)
    requires Proper(j, Clip(j, clip))
    ensures var c, a := Clip(j, clip), Unscaled(j, Clip(j, clip));
            if j.tr.rot90 then
              && a.x == c.t - j.dstRect.t + j.srcRect.t && a.y == j.dstRect.r - c.r + j.srcRect.l
              && a.w == c.b - c.t && a.h == c.r - c.l
            else
              && a.x == c.l - j.dstRect.l + j.srcRect.l && a.y == c.t - j.dstRect.t + j.srcRect.t
              && a.w == c.r - c.l && a.h == c.b - c.t
  {
    var c := Clip(j, clip);
    AsUnsigned(c.r - c.l);
    AsUnsigned(c.b - c.t);
    if j.tr.rot90 {
      AsUnsigned(c.t - j.dstRect.t + j.srcRect.t);
      AsUnsigned(j.dstRect.r - c.r + j.srcRect.l);
    } else {
      AsUnsigned(c.l - j.dstRect.l + j.srcRect.l);
      AsUnsigned(c.t - j.dstRect.t + j.srcRect.t);
    }
  }

  /** What flips do to an area, undone. */
  lemma Unflipped(j: Job, a: Area)
    ensures var f := Flipped(j, a);
            && f.w == a.w && f.h == a.h
            && a.x == (if j.tr.flipH then U(j.src.w - (f.x + f.w)) else f.x)
            && a.y == (if j.tr.flipV then U(j.src.h - (f.y + f.h)) else f.y)
  {
    Mirrored(j.src.w, a.x, a.w);
    Mirrored(j.src.h, a.y, a.h);
  }

  /** The request of a clip with its flips undone: the clip's area, each number scaled. */
  lemma ScaledArea(j: Job, clip: Rect)
    requires Divisible(j)
    ensures var a, r := Unscaled(j, Clip(j, clip)), MakeRequest(j, clip).srcArea;
            && (if j.tr.flipH then (j.src.w - (r.x + r.w)) % WORD else r.x)
               == MulDiv(a.x, j.srcRect.r - j.srcRect.l, Wide(j))
            && (if j.tr.flipV then (j.src.h - (r.y + r.h)) % WORD else r.y)
               == MulDiv(a.y, j.srcRect.b - j.srcRect.t, High(j))
            && r.w == MulDiv(a.w, j.srcRect.r - j.srcRect.l, Wide(j))
            && r.h == MulDiv(a.h, j.srcRect.b - j.srcRect.t, High(j))
  {
    Unflipped(j, Scaled(j, Unscaled(j, Clip(j, clip))));
  }

  /** Which columns of the source are taken for a clip: its distance from the edge of the destination
      rectangle plus the offset of the source rectangle, and its size, each scaled and rounded
      down, from the opposite edge of the image under a flip.  Each of the two numbers is right
      exactly if it need not be scaled or its product does not wrap. */
  lemma SourceColumns(j: Job, clip: Rect)
    requires Proper(j, Clip(j, clip))
    ensures Divisible(j)
    ensures var c, r, sw := Clip(j, clip), MakeRequest(j, clip).srcArea, j.srcRect.r - j.srcRect.l;
            var left := if j.tr.flipH then (j.src.w - (r.x + r.w)) % WORD else r.x;
            var x := if j.tr.rot90 then c.t - j.dstRect.t + j.srcRect.t else c.l - j.dstRect.l + j.srcRect.l;
            var w := if j.tr.rot90 then c.b - c.t else c.r - c.l;
            var wide := if j.tr.rot90 then j.dstRect.b - j.dstRect.t else j.dstRect.r - j.dstRect.l;
            && (IsFloor(left, x, sw, wide) <==> NoOverflow(x, sw, wide))
            && (IsFloor(r.w, w, sw, wide) <==> NoOverflow(w, sw, wide))
  {
    ProperSizes(j, clip);
    PositionExactly(j, clip);
    ScaledArea(j, clip);
    var a := Unscaled(j, Clip(j, clip));
    FloorsExactly(a.x, a.w, j.srcRect.r - j.srcRect.l, Wide(j));
  }

  /** Which rows are taken, in the same way. */
  lemma SourceRows(j: Job, clip: Rect)
    requires Proper(j, Clip(j, clip))
    ensures Divisible(j)
    ensures var c, r, sh := Clip(j, clip), MakeRequest(j, clip).srcArea, j.srcRect.b - j.srcRect.t;
            var top := if j.tr.flipV then (j.src.h - (r.y + r.h)) % WORD else r.y;
            var y := if j.tr.rot90 then j.dstRect.r - c.r + j.srcRect.l else c.t - j.dstRect.t + j.srcRect.t;
            var h := if j.tr.rot90 then c.r - c.l else c.b - c.t;
            var high := if j.tr.rot90 then j.dstRect.r - j.dstRect.l else j.dstRect.b - j.dstRect.t;
            && (IsFloor(top, y, sh, high) <==> NoOverflow(y, sh, high))
            && (IsFloor(r.h, h, sh, high) <==> NoOverflow(h, sh, high))
  {
    ProperSizes(j, clip);
    PositionExactly(j, clip);
    ScaledArea(j, clip);
    var a := Unscaled(j, Clip(j, clip));
    FloorsExactly(a.y, a.h, j.srcRect.b - j.srcRect.t, High(j));
  }

  /** The lower right quarter of a picture stretched to twice its size comes from the lower right
      quarter of the source. */
  lemma StretchedExample()
    ensures var j := Job(Transform(false, false, false), Image(200, 200, Other(0)), Image(100, 100, Other(0)),
                         Rect(0, 0, 200, 200), Rect(0, 0, 100, 100));
            Divisible(j) && MakeRequest(j, Rect(100, 100, 200, 200)).srcArea == Area(50, 50, 50, 50)
  {
  }

  /** A pixel of the destination belongs to a request exactly if it is in the image, in the region's
      rectangle and in the destination rectangle. */
  lemma PixelsOfRequest(j: Job, clip: Rect, px: int, py: int)
    requires Divisible(j) && Ints(j.dstRect) && Ints(clip) && Ordered(Clip(j, clip))
    ensures var d := MakeRequest(j, clip).dstArea;
            (d.x <= px < d.x + d.w && d.y <= py < d.y + d.h) <==>
            && 0 <= px < j.dst.w && 0 <= py < j.dst.h
            && clip.l <= px < clip.r && clip.t <= py < clip.b
            && j.dstRect.l <= px < j.dstRect.r && j.dstRect.t <= py < j.dstRect.b
  {
    DstAreaExactly(j, Clip(j, clip));
  }

  // ---------- What a request shows ----------

  /** The source pixel that the display processor puts at (px, py): a rotation by 90 degrees
      turns the source clockwise, a flip mirrors the source rectangle in place. */
  function Fetched(tr: Transform, r: Request, px: int, py: int): (int, int) {
    var i, k := px - r.dstArea.x, py - r.dstArea.y;
    var a := if tr.rot90 then k else i;
    var b := if tr.rot90 then r.dstArea.w - 1 - i else k;
    (r.srcArea.x + (if tr.flipH then r.srcArea.w - 1 - a else a),
     r.srcArea.y + (if tr.flipV then r.srcArea.h - 1 - b else b))
  }

  /** The source pixel that belongs at (px, py) when the source rectangle, of the mirrored source
      image, is put on the destination rectangle without scaling.  No clip is involved. */
  function Pictured(j: Job, px: int, py: int): (int, int) {
    var u := j.srcRect.l + if j.tr.rot90 then py - j.dstRect.t else px - j.dstRect.l;
    var v := j.srcRect.t + if j.tr.rot90 then j.dstRect.r - 1 - px else py - j.dstRect.t;
    (if j.tr.flipH then j.src.w - 1 - u else u, if j.tr.flipV then j.src.h - 1 - v else v)
  }

  predicate Unscaling(j: Job) {
    && j.srcRect.r - j.srcRect.l == Wide(j) && j.srcRect.b - j.srcRect.t == High(j)
    && 0 <= j.srcRect.l && j.srcRect.r <= j.src.w && 0 <= j.srcRect.t && j.srcRect.b <= j.src.h
    && j.src.w <= 4096 && j.src.h <= 4096
  }

  /** Without scaling every clip shows, at every one of its pixels, what the whole picture shows
      there, for every rotation and flip, if and only if the picture is not rotated or its source
      is equally far from the left and the top: under rotation set_rects exchanges the two. */
  lemma ClippingKeepsPicture(j: Job, clip: Rect, px: int, py: int)
    requires Divisible(j) && Unscaling(j)
    requires var c := Clip(j, clip); c.l <= px < c.r && c.t <= py < c.b
    ensures Fetched(j.tr, MakeRequest(j, clip), px, py) == Pictured(j, px, py)
            <==> !j.tr.rot90 || j.srcRect.l == j.srcRect.t
  {
    var c := Clip(j, clip);
    var a := Unscaled(j, c);
    UnscaledExactly(j, c);
    assert Scaled(j, a) == a;
    DstAreaExactly(j, c);
    FlippedPixel(j, a, if j.tr.rot90 then py - c.t else px - c.l, if j.tr.rot90 then c.r - 1 - px else py - c.t);
  }

  /** The upper left pixel of the picture of a source at (10, 0), turned by 90 degrees: it should
      show the lower left one of that source, but shows one 10 further down and left. */
  lemma RotatedExample()
    ensures var i := Image(100, 100, Other(0));
            var j := Job(Transform(true, false, false), i, i, Rect(0, 0, 50, 50), Rect(10, 0, 60, 50));
            && !Refused(j, 255, 2048) && Divisible(j)
            && Pictured(j, 0, 0) == (10, 49) && Fetched(j.tr, MakeRequest(j, j.dstRect), 0, 0) == (0, 59)
  {
    var i := Image(100, 100, Other(0));
    var j := Job(Transform(true, false, false), i, i, Rect(0, 0, 50, 50), Rect(10, 0, 60, 50));
    assert Clip(j, j.dstRect) == j.dstRect;
    assert Unscaled(j, j.dstRect) == Area(0, 10, 50, 50);
    assert Scaled(j, Area(0, 10, 50, 50)) == Area(0, 10, 50, 50);
  }

  lemma UnscaledExactly(j: Job, c: Rect)
    requires Unscaling(j) && Ordered(c)
    requires j.dstRect.l <= c.l && c.r <= j.dstRect.r && j.dstRect.t <= c.t && c.b <= j.dstRect.b
    ensures var a := Unscaled(j, c);
            if j.tr.rot90 then
              && a.x == c.t - j.dstRect.t + j.srcRect.t && a.y == j.dstRect.r - c.r + j.srcRect.l
              && a.w == c.b - c.t && a.h == c.r - c.l
            else
              && a.x == c.l - j.dstRect.l + j.srcRect.l && a.y == c.t - j.dstRect.t + j.srcRect.t
              && a.w == c.r - c.l && a.h == c.b - c.t
  {
    AsUnsigned(c.r - c.l);
    AsUnsigned(c.b - c.t);
    if j.tr.rot90 {
      AsUnsigned(c.t - j.dstRect.t + j.srcRect.t);
      AsUnsigned(j.dstRect.r - c.r + j.srcRect.l);
    } else {
      AsUnsigned(c.l - j.dstRect.l + j.srcRect.l);
      AsUnsigned(c.t - j.dstRect.t + j.srcRect.t);
    }
  }

  lemma DstAreaExactly(j: Job, c: Rect)
    requires 0 <= c.l <= c.r < WORD && 0 <= c.t <= c.b < WORD
    ensures var d := DstArea(c); d.x == c.l && d.y == c.t && d.w == c.r - c.l && d.h == c.b - c.t
  {
    AsUnsigned(c.l);
    AsUnsigned(c.t);
    AsUnsigned(c.r - c.l);
    AsUnsigned(c.b - c.t);
  }

  /** A flip mirrors the pixel at (a, b) of an area in the whole image, unless the area does not
      lie in the image, in which case its position wraps around. */
  lemma FlippedPixel(j: Job, area: Area, a: int, b: int)
    requires area.x + area.w < SIGN && area.y + area.h < SIGN
    requires j.src.w <= 4096 && j.src.h <= 4096
    ensures var f := Flipped(j, area);
            && (if j.tr.flipH then
                  f.x + area.w - 1 - a == j.src.w - 1 - (area.x + a) +
                  if area.x + area.w <= j.src.w then 0 else WORD
                else f.x == area.x)
            && (if j.tr.flipV then
                  f.y + area.h - 1 - b == j.src.h - 1 - (area.y + b) +
                  if area.y + area.h <= j.src.h then 0 else WORD
                else f.y == area.y)
            && f.w == area.w && f.h == area.h
  {
    AsWrapped(j.src.w - (area.x + area.w));
    AsWrapped(j.src.h - (area.y + area.h));
  }

  /** blit_copybit: both rectangles are whole images. */
  function BlitJob(tr: Transform, dst: Image, src: Image): Job {
    Job(tr, dst, src, Rect(0, 0, dst.w, dst.h), Rect(0, 0, src.w, src.h))
  }

  lemma ScalesWhole(mul: uint32, div: uint32)
    requires 0 < div <= 4096 && mul <= 4096
    ensures MulDiv(div, mul, div) == mul && MulDiv(0, mul, div) == 0
  {
    TimesMonotone(div, 4096, mul);
    ScalesExactly(div, mul, div);
    assert mul * div == div * mul;
    DivideProduct(mul, div);
    ScalesExactly(0, mul, div);
  }

  /** A blit of everything takes the whole source to the whole destination, however it is
      rotated and flipped. */
  lemma BlitOfEverything(tr: Transform, dst: Image, src: Image)
    requires 0 < dst.w <= 4096 && 0 < dst.h <= 4096 && src.w <= 4096 && src.h <= 4096
    ensures var r := MakeRequest(BlitJob(tr, dst, src), Rect(0, 0, dst.w, dst.h));
            r.dstArea == Area(0, 0, dst.w, dst.h) && r.srcArea == Area(0, 0, src.w, src.h)
  {
    var j := BlitJob(tr, dst, src);
    assert Clip(j, j.dstRect) == j.dstRect;
    assert Unscaled(j, j.dstRect) == Area(0, 0, Wide(j), High(j));
    ScalesWhole(src.w, Wide(j));
    ScalesWhole(src.h, High(j));
    assert Scaled(j, Unscaled(j, j.dstRect)) == Area(0, 0, src.w, src.h);
  }

  // ---------- The requests of a call ----------

  const MAX_COUNT: nat := 12
  const EINVAL := 22

  /** What stretch_copybit refuses before it starts; limit is the largest image dimension. */
  predicate Refused(j: Job, alpha: int, limit: nat) {
    || (alpha < 255 && !j.src.format.Other?)
    || j.srcRect.l < 0 || U(j.srcRect.r) > j.src.w || j.srcRect.t < 0 || U(j.srcRect.b) > j.src.h
    || j.src.w > limit || j.src.h > limit || j.dst.w > limit || j.dst.h > limit
  }

  predicate Empty(r: Request) {
    r.srcArea.w == 0 || r.srcArea.h == 0 || r.dstArea.w == 0 || r.dstArea.h == 0
  }

  /** A call is refused exactly if its source has an alpha channel that plane alpha would have to be
      mixed with, or the sides of its source rectangle are not all in the image, or an image is too
      big. */
  lemma RefusedExactly(j: Job, alpha: int, limit: nat)
    requires Ints(j.srcRect) && limit < SIGN
    ensures !Refused(j, alpha, limit) <==>
            && (alpha >= 255 || j.src.format !in {RGBA8888, BGRA8888, RGBA5551, RGBA4444})
            && 0 <= j.srcRect.l && 0 <= j.srcRect.r <= j.src.w <= limit
            && 0 <= j.srcRect.t && 0 <= j.srcRect.b <= j.src.h <= limit
            && j.dst.w <= limit && j.dst.h <= limit
  {
    AsWrapped(j.srcRect.r);
    AsWrapped(j.srcRect.b);
  }

  lemma FloorIsZero(q: nat, a: int, mul: int, div: nat)
    requires div > 0 && IsFloor(q, a, mul, div)
    ensures q == 0 <==> a * mul < div
  {
    if q > 0 { TimesMonotone(1, q, div); }
  }

  /** The request of a clip with at least one pixel is skipped exactly if its source is less than one
      pixel wide or high. */
  lemma SkippedExactly(j: Job, clip: Rect)
    requires Proper(j, Clip(j, clip))
    ensures Divisible(j)
    ensures var c, sw, sh := Clip(j, clip), j.srcRect.r - j.srcRect.l, j.srcRect.b - j.srcRect.t;
            var w := if j.tr.rot90 then c.b - c.t else c.r - c.l;
            var h := if j.tr.rot90 then c.r - c.l else c.b - c.t;
            NoOverflow(w, sw, Wide(j)) && NoOverflow(h, sh, High(j)) ==>
              (Empty(MakeRequest(j, clip)) <==> w * sw < Wide(j) || h * sh < High(j))
  {
    var c, sw, sh := Clip(j, clip), j.srcRect.r - j.srcRect.l, j.srcRect.b - j.srcRect.t;
    var w := if j.tr.rot90 then c.b - c.t else c.r - c.l;
    var h := if j.tr.rot90 then c.r - c.l else c.b - c.t;
    SourceColumns(j, clip);
    SourceRows(j, clip);
    ProperSizes(j, clip);
    DstAreaExactly(j, c);
    if NoOverflow(w, sw, Wide(j)) && NoOverflow(h, sh, High(j)) {
      FloorIsZero(MakeRequest(j, clip).srcArea.w, w, sw, Wide(j));
      FloorIsZero(MakeRequest(j, clip).srcArea.h, h, sh, High(j));
    }
  }

  /** A clip without pixels is skipped. */
  lemma NothingIsSkipped(j: Job, clip: Rect)
    requires Divisible(j) && (Clip(j, clip).l == Clip(j, clip).r || Clip(j, clip).t == Clip(j, clip).b)
    ensures Empty(MakeRequest(j, clip))
  {
    assert U(0) == 0;
  }

  /** The non-empty requests of a region, in its order. */
  function Requests(j: Job, region: seq<Rect>): seq<Request>
    requires Divisible(j)
  {
    if region == [] then [] else
    var r := MakeRequest(j, region[0]);
    (if Empty(r) then [] else [r]) + Requests(j, region[1..])
  }

  /** One rectangle asks for its own request, if that is not empty. */
  lemma OneRequest(j: Job, clip: Rect)
    requires Divisible(j)
    ensures Requests(j, [clip]) == if Empty(MakeRequest(j, clip)) then [] else [MakeRequest(j, clip)]
  {
    assert [clip][1..] == [];
    assert Requests(j, []) == [];
  }

  lemma RequestsStep(j: Job, region: seq<Rect>, first: seq<Request>, rest: seq<Request>)
    requires Divisible(j) && region != [] && rest == Requests(j, region[1..])
    requires first == if Empty(MakeRequest(j, region[0])) then [] else [MakeRequest(j, region[0])]
    ensures Requests(j, region) == first + rest
  {
  }

  lemma SkipFirst(a: seq<Rect>, b: seq<Rect>)
    requires a != []
    ensures (a + b)[0] == a[0] && (a + b)[1..] == a[1..] + b
  {
  }

  lemma Regrouped(x: seq<Request>, y: seq<Request>, z: seq<Request>)
    ensures x + (y + z) == x + y + z
  {
  }

  /** More ask for theirs in turn. */
  lemma {:induction false} RequestsInOrder(j: Job, a: seq<Rect>, b: seq<Rect>)
    requires Divisible(j)
    ensures Requests(j, a + b) == Requests(j, a) + Requests(j, b)
  {
    if a == [] {
      assert a + b == b;
    } else {
      var r := MakeRequest(j, a[0]);
      var first, x, y := if Empty(r) then [] else [r], Requests(j, a[1..]), Requests(j, b);
      SkipFirst(a, b);
      RequestsInOrder(j, a[1..], b);
      RequestsStep(j, a + b, first, x + y);
      RequestsStep(j, a, first, x);
      Regrouped(first, x, y);
    }
  }

  /** Twelve at a time. */
  function Batches(rs: seq<Request>): seq<seq<Request>>
    decreases |rs|
  {
    if rs == [] then []
    else if |rs| <= MAX_COUNT then [rs]
    else [rs[..MAX_COUNT]] + Batches(rs[MAX_COUNT..])
  }

  function Flatten(bs: seq<seq<Request>>): seq<Request> {
    if bs == [] then [] else bs[0] + Flatten(bs[1..])
  }

  /** The batches hold every request once, in order, and at most twelve each. */
  lemma {:induction false} BatchesHoldEverything(rs: seq<Request>)
    ensures Flatten(Batches(rs)) == rs
    ensures forall b :: b in Batches(rs) ==> 0 < |b| <= MAX_COUNT
    decreases |rs|
  {
    if |rs| > MAX_COUNT {
      BatchesHoldEverything(rs[MAX_COUNT..]);
      assert Batches(rs)[1..] == Batches(rs[MAX_COUNT..]);
      assert rs == rs[..MAX_COUNT] + rs[MAX_COUNT..];
    } else if rs != [] {
      assert [rs][1..] == [];
    }
  }

  lemma NextBatch(pending: seq<Request>, rest: seq<Request>)
    requires |pending| == MAX_COUNT
    ensures Batches(pending + rest) == [pending] + Batches(rest)
  {
    if rest == [] {
      assert pending + rest == pending;
    } else {
      assert (pending + rest)[..MAX_COUNT] == pending && (pending + rest)[MAX_COUNT..] == rest;
    }
  }

  lemma NextRequest(j: Job, region: seq<Rect>, i: nat)
    requires Divisible(j) && i < |region|
    ensures var r, rest := MakeRequest(j, region[i]), Requests(j, region[i + 1..]);
            Requests(j, region[i..]) == if Empty(r) then rest else [r] + rest
  {
    assert region[i..][1..] == region[i + 1..];
  }

  /** What is still to be sent after the batches sent so far: the pending requests and the rest. */
  ghost predicate ToSend(sent: seq<seq<Request>>, pending: seq<Request>, rest: seq<Request>, all: seq<seq<Request>>) {
    sent + Batches(pending + rest) == all
  }

  lemma AddRequest(sent: seq<seq<Request>>, pending: seq<Request>, r: Request, rest: seq<Request>,
                   all: seq<seq<Request>>)
    requires ToSend(sent, pending, [r] + rest, all)
    ensures ToSend(sent, pending + [r], rest, all)
  {
    assert pending + ([r] + rest) == pending + [r] + rest;
  }

  lemma SendBatch(sent: seq<seq<Request>>, pending: seq<Request>, rest: seq<Request>, all: seq<seq<Request>>)
    requires ToSend(sent, pending, rest, all) && |pending| == MAX_COUNT
    ensures ToSend(sent + [pending], [], rest, all)
  {
    NextBatch(pending, rest);
    assert [] + rest == rest;
    assert sent + ([pending] + Batches(rest)) == sent + [pending] + Batches(rest);
  }

  lemma SendRemainder(sent: seq<seq<Request>>, pending: seq<Request>, all: seq<seq<Request>>)
    requires ToSend(sent, pending, [], all) && |pending| < MAX_COUNT
    ensures all == if pending == [] then sent else sent + [pending]
  {
    assert pending + [] == pending;
  }

  /** Submissions went on exactly while they succeeded. */
  ghost predicate Submitted(sent: seq<seq<Request>>, status: int, blit: nat -> int) {
    && status == (if sent == [] then 0 else blit(|sent| - 1))
    && forall k :: 0 <= k < |sent| - 1 ==> blit(k) == 0
  }

  /** A clip that misses the destination is sent, with areas in neither image. */
  lemma InvertedClipIsSent()
    ensures var i := Image(100, 100, Other(0));
            var j := Job(Transform(false, false, false), i, i, Rect(0, 0, 100, 100), Rect(0, 0, 100, 100));
            var r := MakeRequest(j, Rect(150, 0, 200, 50));
            && !Refused(j, 255, 2048) && !Ordered(Clip(j, Rect(150, 0, 200, 50)))
            && Requests(j, [Rect(150, 0, 200, 50)]) == [r] && !Inside(r.srcArea, i) && !Inside(r.dstArea, i)
  {
  }

  /** Every request of an uninverted clip is inside both images. */
  lemma {:induction false} RequestsAreInside(j: Job, region: seq<Rect>, k: nat)
    requires Divisible(j) && Ints(j.dstRect) && j.srcRect.l == 0 && j.srcRect.t == 0
    requires 0 <= j.srcRect.r <= j.src.w && 0 <= j.srcRect.b <= j.src.h && j.dst.w <= 4096 && j.dst.h <= 4096
    requires forall c :: c in region ==> Ints(c) && Ordered(Clip(j, c))
    requires k < |Requests(j, region)|
    ensures var r := Requests(j, region)[k]; Inside(r.srcArea, r.src) && Inside(r.dstArea, r.dst)
  {
    var r := MakeRequest(j, region[0]);
    if k == 0 && !Empty(r) {
      SourceInside(j, region[0]);
      DestinationInside(j, region[0]);
    } else {
      RequestsAreInside(j, region[1..], if Empty(r) then k else k - 1);
    }
  }

  lemma SubmitOne(sent: seq<seq<Request>>, batch: seq<Request>, blit: nat -> int)
    requires Submitted(sent, 0, blit)
    ensures Submitted(sent + [batch], blit(|sent|), blit)
  {
  }

  /** The loop of stretch_copybit.  The clips are what the region's iterator yields; blit(i) is
      the status of submission i.  The batches go out in order until one fails. */
  method SubmitAll(j: Job, region: seq<Rect>, blit: nat -> int) returns (status: int, sent: seq<seq<Request>>)
    requires Divisible(j)
    ensures Submitted(sent, status, blit) && sent <= Batches(Requests(j, region))
    ensures status == 0 ==> sent == Batches(Requests(j, region))
  {
    sent, status := [], 0;
    var req := new Request[MAX_COUNT];
    var count, i := 0, 0;
    ghost var all := Batches(Requests(j, region));
    assert region[0..] == region && req[..0] + Requests(j, region) == Requests(j, region);
    while status == 0 && i < |region|
      invariant 0 <= i <= |region| && 0 <= count < MAX_COUNT
      invariant ToSend(sent, req[..count], Requests(j, region[i..]), all)
      invariant Submitted(sent, status, blit)
    {
      var r := MakeRequest(j, region[i]);
      NextRequest(j, region, i);
      i := i + 1;
      if Empty(r) { continue; }
      ghost var rest := Requests(j, region[i..]);
      AddRequest(sent, req[..count], r, rest, all);
      req[count] := r;
      assert req[..count + 1] == req[..count] + [r];
      count := count + 1;
      if count == MAX_COUNT {
        SendBatch(sent, req[..count], rest, all);
        SubmitOne(sent, req[..count], blit);
        status := blit(|sent|);
        sent, count := sent + [req[..count]], 0;
        assert req[..0] == [];
      }
    }
    if status != 0 { return; }
    SendRemainder(sent, req[..count], all);
    if count != 0 {
      SubmitOne(sent, req[..count], blit);
      status := blit(|sent|);
      sent := sent + [req[..count]];
    }
  }

  /** stretch_copybit */
  method StretchCopybit(j: Job, alpha: int, limit: nat, region: seq<Rect>, blit: nat -> int)
    returns (status: int, sent: seq<seq<Request>>)
    requires !Refused(j, alpha, limit) ==> Divisible(j)
    ensures Refused(j, alpha, limit) ==> status == -EINVAL && sent == []
    ensures !Refused(j, alpha, limit) ==> Submitted(sent, status, blit) && sent <= Batches(Requests(j, region))
    ensures !Refused(j, alpha, limit) && status == 0 ==> sent == Batches(Requests(j, region))
  {
    if Refused(j, alpha, limit) { return -EINVAL, []; }
    status, sent := SubmitAll(j, region, blit);
  }
}
