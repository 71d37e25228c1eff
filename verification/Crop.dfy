/** Cropping a yuv420sp frame and swapping its chroma order (HAL3on1-adapter.cpp). */
module Crop {
  import opened Arith
  import opened VenusCopy

  // ----- Frames -----

  /** Bytes of a frame: a luma plane of W by H and an interleaved chroma plane of half as many rows. */
  function FrameSize(w: nat, h: nat): nat {
    Area(w, h) + Area(w, h / 2)
  }

  /** The window fits into the source. */
  predicate Inside(W: nat, H: nat, cx: nat, cy: nat, w: nat, h: nat) {
    cx + w <= W && cy + h <= H
  }

  /** The source planes of a crop start at the window; the destination planes are packed. */
  function SrcY(W: nat, cx: nat, cy: nat, h: nat): Plane {
    Plane(Ix(W, cy, cx), W, h)
  }

  function SrcUV(W: nat, H: nat, cx: nat, cy: nat, h: nat): Plane {
    Plane(Area(W, H) + Ix(W, cy / 2, cx), W, h / 2)
  }

  function DstY(w: nat, h: nat): Plane {
    Plane(0, w, h)
  }

  function DstUV(w: nat, h: nat): Plane {
    Plane(Area(w, h), w, h / 2)
  }

  lemma RectWithin(W: nat, H: nat, cx: nat, cy: nat, w: nat, h: nat)
    requires Inside(W, H, cx, cy, w, h) && h > 0
    ensures Ix(W, cy, cx) + (h - 1) * W + w <= Area(W, H)
  {
    IxShift(W, cy, cx, h - 1, w);
    MulMonotone(cy + h, H, W);
    assert (cy + h) * W == (cy + h - 1) * W + W;
  }

  lemma WindowWithin(W: nat, H: nat, cx: nat, cy: nat, w: nat, h: nat)
    requires Inside(W, H, cx, cy, w, h)
    ensures Within(SrcY(W, cx, cy, h), w, h, FrameSize(W, H)) && Within(SrcUV(W, H, cx, cy, h), w, h / 2, FrameSize(W, H))
  {
    hide Ix, Area;
    if h > 0 {
      RectWithin(W, H, cx, cy, w, h);
    }
    if h / 2 > 0 {
      RectWithin(W, H / 2, cx, cy / 2, w, h / 2);
    }
  }

  /** get_crop_point */
  function CropPoint(W: nat, H: nat, w: nat, h: nat): (p: (nat, nat))
    ensures w <= W && h <= H ==> Inside(W, H, p.0, p.1, w, h)
    ensures w <= W && h <= H ==> 0 <= (W - w - p.0) - p.0 <= 1 && 0 <= (H - h - p.1) - p.1 <= 1
    ensures w > W || h > H ==> p == (0, 0)
  {
    if w > W || h > H then (0, 0) else ((W - w) / 2, (H - h) / 2)
  }

  /** Byte i of the cropped frame. */
  function CropByte(src: seq<Byte>, W: nat, H: nat, cx: nat, cy: nat, w: nat, h: nat, i: nat): Byte
    requires Inside(W, H, cx, cy, w, h) && FrameSize(W, H) <= |src|
  {
    WindowWithin(W, H, cx, cy, w, h);
    if i < Area(w, h) then Copied(src, SrcY(W, cx, cy, h), DstY(w, h), w, h, 0, i)
    else Copied(src, SrcUV(W, H, cx, cy, h), DstUV(w, h), w, h / 2, 0, i - Area(w, h))
  }

  function Cropped(src: seq<Byte>, W: nat, H: nat, cx: nat, cy: nat, w: nat, h: nat): (d: seq<Byte>)
    requires Inside(W, H, cx, cy, w, h) && FrameSize(W, H) <= |src|
    ensures |d| == FrameSize(w, h)
  {
    seq(FrameSize(w, h), i requires 0 <= i => CropByte(src, W, H, cx, cy, w, h, i))
  }

  // ----- Staying inside the buffers -----

  /** The bytes that yuv420sp_crop allocates. */
  function CropSize(w: nat, h: nat): nat {
    w * h + w / 2 * (h / 2) * 2
  }

  /** No row copied leaves the buffer allocated for the crop. */
  predicate WritesInside(w: nat, h: nat) {
    Within(DstY(w, h), w, h, CropSize(w, h)) && Within(DstUV(w, h), w, h / 2, CropSize(w, h))
  }

  /** No row copied leaves a source buffer of n bytes. */
  predicate ReadsInside(W: nat, H: nat, cx: nat, cy: nat, w: nat, h: nat, n: nat) {
    Within(SrcY(W, cx, cy, h), w, h, n) && Within(SrcUV(W, H, cx, cy, h), w, h / 2, n)
  }

  /** That is, each row ends inside it. */
  lemma WritesInsideRows(w: nat, h: nat)
    requires w > 0
    ensures WritesInside(w, h) <==>
      && (forall y: nat :: y < h ==> At(DstY(w, h), y, w) <= CropSize(w, h))
      && (forall y: nat :: y < h / 2 ==> At(DstUV(w, h), y, w) <= CropSize(w, h))
  {
    hide Within, At;
    WithinRows(DstY(w, h), w, h, CropSize(w, h));
    WithinRows(DstUV(w, h), w, h / 2, CropSize(w, h));
  }

  /** The crop writes inside its buffer exactly if its width is even or it has no chroma row. */
  lemma WritesInsideExactly(w: nat, h: nat)
    ensures WritesInside(w, h) <==> w % 2 == 0 || h < 2
  {
    var m, k := w / 2, h / 2;
    assert (h - 1) * w + w == h * w;
    assert k > 0 ==> (k - 1) * w + w == k * w;
    if w % 2 == 0 {
      assert k * w == m * k * 2 by { assert w == 2 * m; }
    } else if k > 0 {
      assert k * w == m * k * 2 + k by { assert w == 2 * m + 1; }
    }
  }

  /** A crop of three by two: eight bytes are allocated, and its one chroma row ends at the ninth. */
  lemma OddCropOverruns()
    ensures CropSize(3, 2) == 8 && At(DstUV(3, 2), 0, 3) == 9 && !WritesInside(3, 2)
  {
    WritesInsideExactly(3, 2);
  }

  /** A window inside a whole frame is read inside it. */
  lemma InsideReads(W: nat, H: nat, cx: nat, cy: nat, w: nat, h: nat, n: nat)
    requires Inside(W, H, cx, cy, w, h) && FrameSize(W, H) <= n
    ensures ReadsInside(W, H, cx, cy, w, h, n)
  {
    WindowWithin(W, H, cx, cy, w, h);
  }

  /** A crop with chroma, at the point that get_crop_point gives, is read inside a whole frame exactly if its last
      chroma row is. That includes windows that do not fit, which are taken from the corner. */
  lemma CentredReadsExactly(W: nat, H: nat, w: nat, h: nat)
    requires w > 0 && h >= 2 && H >= 2
    ensures var p := CropPoint(W, H, w, h);
      ReadsInside(W, H, p.0, p.1, w, h, FrameSize(W, H)) <==> (h / 2 - 1) * W + w <= H / 2 * W
  {
    var k, m := h / 2, H / 2;
    if w <= W && h <= H {
      var p := CropPoint(W, H, w, h);
      InsideReads(W, H, p.0, p.1, w, h, FrameSize(W, H));
      MulMonotone(k, m, W);
      assert (k - 1) * W + W == k * W;
    } else if (k - 1) * W + w <= m * W {
      if k > m {
        MulMonotone(m, k - 1, W);
      }
      assert (h - 1) * W == (h - k) * W + (k - 1) * W;
      MulMonotone(h - k, H, W);
    }
  }

  /** A crop no wider than the frame, then, exactly if it has no more chroma rows. */
  lemma TallReadsExactly(W: nat, H: nat, w: nat, h: nat)
    requires 0 < w <= W && h >= 2 && H >= 2
    ensures var p := CropPoint(W, H, w, h);
      ReadsInside(W, H, p.0, p.1, w, h, FrameSize(W, H)) <==> h / 2 <= H / 2
  {
    hide ReadsInside;
    CentredReadsExactly(W, H, w, h);
    var k, m := h / 2, H / 2;
    if k <= m {
      MulMonotone(k, m, W);
      assert (k - 1) * W + W == k * W;
    } else {
      MulMonotone(m, k - 1, W);
    }
  }

  /** The adapter crops when either side is smaller: a stream of 1280 by 960 asked for 640 by 1080 is read past its end. */
  lemma TallCropOverreads()
    ensures CropPoint(1280, 960, 640, 1080) == (0, 0) && !ReadsInside(1280, 960, 0, 0, 640, 1080, FrameSize(1280, 960))
  {
    TallReadsExactly(1280, 960, 640, 1080);
  }

  /** yuv420sp_crop, wherever it stays inside its buffers. */
  method YuvCrop(src: array<Byte>, W: nat, H: nat, cx: nat, cy: nat, w: nat, h: nat) returns (dst: array<Byte>)
    requires ReadsInside(W, H, cx, cy, w, h, src.Length) && WritesInside(w, h)
    ensures fresh(dst) && dst.Length == CropSize(w, h) == FrameSize(w, h)
    ensures HoldsCopy(dst[..], src[..], SrcY(W, cx, cy, h), DstY(w, h), w, h, 0, 0, h * w)
    ensures HoldsCopy(dst[..], src[..], SrcUV(W, H, cx, cy, h), DstUV(w, h), w, h / 2, 0, 0, h / 2 * w)
    ensures Inside(W, H, cx, cy, w, h) && FrameSize(W, H) <= src.Length ==> dst[..] == Cropped(src[..], W, H, cx, cy, w, h)
  {
    hide Copied, Inside, Ix;
    CropSizeIsFrame(w, h);
    dst := new Byte[w * h + w / 2 * (h / 2) * 2](_ => 0);
    CopyRows(dst, src, SrcY(W, cx, cy, h), DstY(w, h), w, h, 0);
    CopyRows(dst, src, SrcUV(W, H, cx, cy, h), DstUV(w, h), w, h / 2, 0);
    ghost var d, s := dst[..], src[..];
    if Inside(W, H, cx, cy, w, h) && FrameSize(W, H) <= src.Length {
      assert forall j :: 0 <= j < |d| ==> d[j] == CropByte(s, W, H, cx, cy, w, h, j);
    }
  }

  lemma CropSizeIsFrame(w: nat, h: nat)
    requires WritesInside(w, h)
    ensures CropSize(w, h) == FrameSize(w, h)
  {
    WritesInsideExactly(w, h);
    var m, k := w / 2, h / 2;
    if w % 2 == 0 {
      assert k * w == m * k * 2 by { assert w == 2 * m; }
    }
  }

  // ----- What a cropped byte is -----

  /** Luma of the crop is luma of the source, shifted. */
  lemma CropLuma(src: seq<Byte>, W: nat, H: nat, cx: nat, cy: nat, w: nat, h: nat, y: nat, x: nat)
    requires Inside(W, H, cx, cy, w, h) && FrameSize(W, H) <= |src| && y < h && x < w
    ensures Ix(w, y, x) < Area(w, h) && Ix(W, cy + y, cx + x) < Area(W, H)
    ensures Cropped(src, W, H, cx, cy, w, h)[Ix(w, y, x)] == src[Ix(W, cy + y, cx + x)]
  {
    hide Copied, Area;
    WindowWithin(W, H, cx, cy, w, h);
    IxBound(w, h, y, x);
    IxBound(W, H, cy + y, cx + x);
    CopiedAt(src, SrcY(W, cx, cy, h), DstY(w, h), w, h, 0, y, x);
    IxShift(W, cy, cx, y, x);
  }

  /** Chroma row y of the crop is chroma row cy / 2 + y of the source, shifted by cx columns. */
  lemma CropChroma(src: seq<Byte>, W: nat, H: nat, cx: nat, cy: nat, w: nat, h: nat, y: nat, x: nat)
    requires Inside(W, H, cx, cy, w, h) && FrameSize(W, H) <= |src| && y < h / 2 && x < w
    ensures Ix(w, y, x) < Area(w, h / 2) && Ix(W, cy / 2 + y, cx + x) < Area(W, H / 2)
    ensures Cropped(src, W, H, cx, cy, w, h)[Area(w, h) + Ix(w, y, x)] == src[Area(W, H) + Ix(W, cy / 2 + y, cx + x)]
  {
    hide Copied, Area;
    WindowWithin(W, H, cx, cy, w, h);
    IxBound(w, h / 2, y, x);
    IxBound(W, H / 2, cy / 2 + y, cx + x);
    CopiedAt(src, SrcUV(W, H, cx, cy, h), DstUV(w, h), w, h / 2, 0, y, x);
    IxShift(W, cy / 2, cx, y, x);
  }

  // ----- Pixels -----

  datatype Pixel = Pixel(luma: Byte, first: Byte, second: Byte)

  lemma PixelFits(W: nat, H: nat, x: nat, y: nat)
    requires W % 2 == 0 && H % 2 == 0 && x < W && y < H
    ensures Ix(W, y, x) < Area(W, H) && Ix(W, y / 2, x / 2 * 2) < Area(W, H / 2) && Ix(W, y / 2, x / 2 * 2 + 1) < Area(W, H / 2)
  {
    IxBound(W, H, y, x);
    IxBound(W, H / 2, y / 2, x / 2 * 2);
    IxBound(W, H / 2, y / 2, x / 2 * 2 + 1);
  }

  /** Pixel (x, y) of a frame of even size: its luma and the chroma pair of its two-by-two block. */
  function PixelOf(f: seq<Byte>, W: nat, H: nat, x: nat, y: nat): Pixel
    requires W % 2 == 0 && H % 2 == 0 && x < W && y < H && FrameSize(W, H) <= |f|
  {
    PixelFits(W, H, x, y);
    Pixel(f[Ix(W, y, x)], f[Area(W, H) + Ix(W, y / 2, x / 2 * 2)], f[Area(W, H) + Ix(W, y / 2, x / 2 * 2 + 1)])
  }

  /** A crop at even offsets keeps the meaning of every pixel. */
  lemma CropKeepsPixel(src: seq<Byte>, W: nat, H: nat, cx: nat, cy: nat, w: nat, h: nat, x: nat, y: nat)
    requires W % 2 == 0 && H % 2 == 0 && w % 2 == 0 && h % 2 == 0 && Inside(W, H, cx, cy, w, h) && FrameSize(W, H) <= |src|
    requires cx % 2 == 0 && cy % 2 == 0 && x < w && y < h
    ensures PixelOf(Cropped(src, W, H, cx, cy, w, h), w, h, x, y) == PixelOf(src, W, H, cx + x, cy + y)
  {
    hide Cropped, Ix, Area;
    CropLuma(src, W, H, cx, cy, w, h, y, x);
    CropChroma(src, W, H, cx, cy, w, h, y / 2, x / 2 * 2);
    CropChroma(src, W, H, cx, cy, w, h, y / 2, x / 2 * 2 + 1);
    assert (cy + y) / 2 == cy / 2 + y / 2 && (cx + x) / 2 * 2 == cx + x / 2 * 2;
  }

  /** The crop keeps every pixel of every frame. */
  ghost predicate KeepsMeaning(W: nat, H: nat, cx: nat, cy: nat, w: nat, h: nat)
    requires W % 2 == 0 && H % 2 == 0 && w % 2 == 0 && h % 2 == 0 && Inside(W, H, cx, cy, w, h)
  {
    forall src: seq<Byte>, x: nat, y: nat :: |src| == FrameSize(W, H) && x < w && y < h ==>
      PixelOf(Cropped(src, W, H, cx, cy, w, h), w, h, x, y) == PixelOf(src, W, H, cx + x, cy + y)
  }

  /** A frame that is zero but for one chroma byte. */
  function Mark(W: nat, H: nat, at: nat): (f: seq<Byte>)
    ensures |f| == FrameSize(W, H)
  {
    seq(FrameSize(W, H), i => if i == at then 1 else 0)
  }

  /** At an odd offset some frame loses meaning: the chroma pair comes apart, or comes from the row above. */
  lemma OddCropLoses(W: nat, H: nat, cx: nat, cy: nat, w: nat, h: nat)
    requires W % 2 == 0 && H % 2 == 0 && w % 2 == 0 && h % 2 == 0 && Inside(W, H, cx, cy, w, h) && w > 0 && h > 0
    requires cx % 2 != 0 || cy % 2 != 0
    ensures !KeepsMeaning(W, H, cx, cy, w, h)
  {
    hide Cropped, Ix, Area;
    IxBound(W, H / 2, cy / 2, cx);
    var src := Mark(W, H, Area(W, H) + Ix(W, cy / 2, cx));
    var y := if cx % 2 != 0 then 0 else 1;
    CropChroma(src, W, H, cx, cy, w, h, 0, 0);
    IxZero(w);
    PixelFits(W, H, cx, cy + y);
    assert PixelOf(Cropped(src, W, H, cx, cy, w, h), w, h, 0, y).first == 1;
    if Ix(W, (cy + y) / 2, cx / 2 * 2) == Ix(W, cy / 2, cx) {
      IxInjective(W, (cy + y) / 2, cx / 2 * 2, cy / 2, cx);
    }
    assert PixelOf(src, W, H, cx, cy + y).first == 0;
  }

  lemma IxZero(w: nat)
    ensures Ix(w, 0, 0) == 0
  {
  }

  /** Exactly the even offsets keep the meaning of every frame. */
  lemma CropExact(W: nat, H: nat, cx: nat, cy: nat, w: nat, h: nat)
    requires W % 2 == 0 && H % 2 == 0 && w % 2 == 0 && h % 2 == 0 && Inside(W, H, cx, cy, w, h) && w > 0 && h > 0
    ensures KeepsMeaning(W, H, cx, cy, w, h) <==> cx % 2 == 0 && cy % 2 == 0
  {
    hide Cropped, PixelOf;
    if cx % 2 == 0 && cy % 2 == 0 {
      forall src: seq<Byte>, x: nat, y: nat | |src| == FrameSize(W, H) && x < w && y < h
        ensures PixelOf(Cropped(src, W, H, cx, cy, w, h), w, h, x, y) == PixelOf(src, W, H, cx + x, cy + y)
      {
        CropKeepsPixel(src, W, H, cx, cy, w, h, x, y);
      }
    } else {
      OddCropLoses(W, H, cx, cy, w, h);
    }
  }

  /** The centred window keeps the meaning of every frame exactly when both margins are multiples of four. */
  lemma CentredCropExact(W: nat, H: nat, w: nat, h: nat)
    requires W % 2 == 0 && H % 2 == 0 && w % 2 == 0 && h % 2 == 0 && 0 < w <= W && 0 < h <= H
    ensures var p := CropPoint(W, H, w, h);
      Inside(W, H, p.0, p.1, w, h) && (KeepsMeaning(W, H, p.0, p.1, w, h) <==> (W - w) % 4 == 0 && (H - h) % 4 == 0)
  {
    hide KeepsMeaning;
    var p := CropPoint(W, H, w, h);
    CropExact(W, H, p.0, p.1, w, h);
  }

  // ----- Cropping twice -----

  /** A plane of w by h at the given place is the same in both frames, row by row and column by column. */
  ghost predicate SamePlane(f: seq<Byte>, g: seq<Byte>, at: nat, w: nat, h: nat)
    requires at + Area(w, h) <= |f| && at + Area(w, h) <= |g|
  {
    forall y: nat, x: nat :: y < h && x < w ==> Ix(w, y, x) < Area(w, h) && f[at + Ix(w, y, x)] == g[at + Ix(w, y, x)]
  }

  lemma SamePlaneByte(f: seq<Byte>, g: seq<Byte>, at: nat, w: nat, h: nat, i: nat)
    requires at + Area(w, h) <= |f| && at + Area(w, h) <= |g| && i < Area(w, h) && SamePlane(f, g, at, w, h)
    ensures f[at + i] == g[at + i]
  {
    hide Ix, Area;
    IxSplit(w, h, i);
  }

  /** Two frames that agree in both planes are equal. */
  lemma SameFrame(f: seq<Byte>, g: seq<Byte>, w: nat, h: nat)
    requires |f| == |g| == FrameSize(w, h) && SamePlane(f, g, 0, w, h) && SamePlane(f, g, Area(w, h), w, h / 2)
    ensures f == g
  {
    hide SamePlane, Area;
    forall i | 0 <= i < |f| ensures f[i] == g[i] {
      if i < Area(w, h) {
        SamePlaneByte(f, g, 0, w, h, i);
      } else {
        SamePlaneByte(f, g, Area(w, h), w, h / 2, i - Area(w, h));
      }
    }
  }

  /** Cropping a crop is one crop with the offsets added, unless both vertical offsets are odd. */
  lemma CropTwice(src: seq<Byte>, W: nat, H: nat, cx: nat, cy: nat, w: nat, h: nat, dx: nat, dy: nat, v: nat, u: nat)
    requires Inside(W, H, cx, cy, w, h) && Inside(w, h, dx, dy, v, u) && FrameSize(W, H) <= |src|
    requires cy % 2 == 0 || dy % 2 == 0
    ensures Cropped(Cropped(src, W, H, cx, cy, w, h), w, h, dx, dy, v, u) == Cropped(src, W, H, cx + dx, cy + dy, v, u)
  {
    hide Cropped, Ix, Area;
    var once := Cropped(src, W, H, cx, cy, w, h);
    var twice, direct := Cropped(once, w, h, dx, dy, v, u), Cropped(src, W, H, cx + dx, cy + dy, v, u);
    forall y: nat, x: nat | y < u && x < v ensures Ix(v, y, x) < Area(v, u) && twice[Ix(v, y, x)] == direct[Ix(v, y, x)] {
      CropLuma(once, w, h, dx, dy, v, u, y, x);
      CropLuma(src, W, H, cx, cy, w, h, dy + y, dx + x);
      CropLuma(src, W, H, cx + dx, cy + dy, v, u, y, x);
    }
    forall y: nat, x: nat | y < u / 2 && x < v
      ensures Ix(v, y, x) < Area(v, u / 2) && twice[Area(v, u) + Ix(v, y, x)] == direct[Area(v, u) + Ix(v, y, x)]
    {
      CropChroma(once, w, h, dx, dy, v, u, y, x);
      CropChroma(src, W, H, cx, cy, w, h, dy / 2 + y, dx + x);
      CropChroma(src, W, H, cx + dx, cy + dy, v, u, y, x);
    }
    SameFrame(twice, direct, v, u);
  }

  /** With both vertical offsets odd the two crops each round the chroma row down, and some frame differs. */
  lemma OddCropsDiffer(W: nat, H: nat, cx: nat, cy: nat, w: nat, h: nat, dx: nat, dy: nat, v: nat, u: nat)
    requires Inside(W, H, cx, cy, w, h) && Inside(w, h, dx, dy, v, u) && v > 0 && u > 1
    requires cy % 2 != 0 && dy % 2 != 0
    ensures !CropsCompose(W, H, cx, cy, w, h, dx, dy, v, u)
  {
    hide Cropped, Ix, Area;
    var row, col := (cy + dy) / 2, cx + dx;
    IxBound(W, H / 2, row, col);
    var src := Mark(W, H, Area(W, H) + Ix(W, row, col));
    var once := Cropped(src, W, H, cx, cy, w, h);
    IxZero(v);
    CropChroma(once, w, h, dx, dy, v, u, 0, 0);
    CropChroma(src, W, H, cx, cy, w, h, dy / 2, dx);
    CropChroma(src, W, H, col, cy + dy, v, u, 0, 0);
    if Ix(W, cy / 2 + dy / 2, col) == Ix(W, row, col) {
      IxInjective(W, cy / 2 + dy / 2, col, row, col);
    }
    assert Cropped(once, w, h, dx, dy, v, u)[Area(v, u)] == 0;
    assert Cropped(src, W, H, col, cy + dy, v, u)[Area(v, u)] == 1;
  }

  /** Cropping a crop is one crop with the offsets added, for every frame. */
  ghost predicate CropsCompose(W: nat, H: nat, cx: nat, cy: nat, w: nat, h: nat, dx: nat, dy: nat, v: nat, u: nat)
    requires Inside(W, H, cx, cy, w, h) && Inside(w, h, dx, dy, v, u)
  {
    forall src: seq<Byte> :: |src| == FrameSize(W, H) ==>
      Cropped(Cropped(src, W, H, cx, cy, w, h), w, h, dx, dy, v, u) == Cropped(src, W, H, cx + dx, cy + dy, v, u)
  }

  /** It is so exactly when not both vertical offsets are odd. */
  lemma CropTwiceExact(W: nat, H: nat, cx: nat, cy: nat, w: nat, h: nat, dx: nat, dy: nat, v: nat, u: nat)
    requires Inside(W, H, cx, cy, w, h) && Inside(w, h, dx, dy, v, u) && v > 0 && u > 1
    ensures CropsCompose(W, H, cx, cy, w, h, dx, dy, v, u) <==> cy % 2 == 0 || dy % 2 == 0
  {
    hide Cropped;
    if cy % 2 == 0 || dy % 2 == 0 {
      forall src: seq<Byte> | |src| == FrameSize(W, H)
        ensures Cropped(Cropped(src, W, H, cx, cy, w, h), w, h, dx, dy, v, u) == Cropped(src, W, H, cx + dx, cy + dy, v, u)
      {
        CropTwice(src, W, H, cx, cy, w, h, dx, dy, v, u);
      }
    } else {
      OddCropsDiffer(W, H, cx, cy, w, h, dx, dy, v, u);
    }
  }

  // ----- Swapping chroma -----

  function Partner(x: nat): nat {
    if x % 2 == 0 then x + 1 else x - 1
  }

  lemma EvenProduct(y: nat, w: nat)
    requires w % 2 == 0
    ensures (y * w) % 2 == 0
  {
    var m := w / 2;
    assert y * w == (y * m) * 2 by {
      assert w == m * 2;
    }
  }

  lemma PartnerInRow(w: nat, y: nat, x: nat)
    requires w % 2 == 0 && x < w
    ensures Partner(x) < w && Partner(Ix(w, y, x)) == Ix(w, y, Partner(x))
  {
    EvenProduct(y, w);
  }

  lemma PartnerInPlane(w: nat, h: nat, k: nat)
    requires w % 2 == 0 && k < Area(w, h)
    ensures Partner(k) < Area(w, h)
  {
    EvenProduct(h, w);
  }

  /** Byte i of a frame whose chroma pairs are swapped. */
  function SwappedByte(f: seq<Byte>, w: nat, h: nat, i: nat): Byte
    requires w % 2 == 0 && FrameSize(w, h) <= |f| && i < FrameSize(w, h)
  {
    if i < Area(w, h) then f[i]
    else
      PartnerInPlane(w, h / 2, i - Area(w, h));
      f[Area(w, h) + Partner(i - Area(w, h))]
  }

  function Swapped(f: seq<Byte>, w: nat, h: nat): (r: seq<Byte>)
    requires w % 2 == 0 && FrameSize(w, h) <= |f|
    ensures |r| == FrameSize(w, h)
  {
    seq(FrameSize(w, h), i requires 0 <= i < FrameSize(w, h) => SwappedByte(f, w, h, i))
  }

  /** The bytes that the loop over chroma pairs touches behind a luma plane of n: half of n, and one more if odd. */
  function PairBytes(n: nat): nat {
    (n / 2 + 1) / 2 * 2
  }

  /** The loop stays inside a frame of one and a half luma planes exactly if half the luma plane is even. */
  lemma PairsInsideExactly(w: nat, h: nat)
    ensures w * h + PairBytes(w * h) <= w * h + w * h / 2 <==> w * h / 2 % 2 == 0
  {
  }

  /** A frame of three by two has nine bytes, and the loop writes the tenth. */
  lemma OddSwapOverruns()
    ensures 3 * 2 + 3 * 2 / 2 == 9 && 3 * 2 + PairBytes(3 * 2) == 10
  {
  }

  /** nv21_to_nv12, wherever it stays inside its buffers. */
  method Nv21ToNv12(nv21: array<Byte>, nv12: array<Byte>, w: nat, h: nat)
    requires nv21 != nv12 && Area(w, h) + PairBytes(Area(w, h)) <= nv21.Length && Area(w, h) + PairBytes(Area(w, h)) <= nv12.Length
    modifies nv12
    ensures PairsSwapped(nv12[..], nv21[..], Area(w, h))
    ensures forall j :: Area(w, h) + PairBytes(Area(w, h)) <= j < nv12.Length ==> nv12[j] == old(nv12[j])
    ensures w % 2 == 0 && h % 2 == 0 ==>
      FrameSize(w, h) == Area(w, h) + PairBytes(Area(w, h)) && nv12[..FrameSize(w, h)] == Swapped(nv21[..], w, h)
  {
    hide PairsSwapped, PairBytes, Swapped;
    var frameSize := w * h;
    assert frameSize == Area(w, h);
    SwapFrame(nv21, nv12, frameSize);
    if w % 2 == 0 && h % 2 == 0 {
      EvenSwap(nv12[..], nv21[..], w, h);
    }
  }

  /** The copy of the luma plane and the loop over chroma pairs. */
  method SwapFrame(nv21: array<Byte>, nv12: array<Byte>, frameSize: nat)
    requires nv21 != nv12 && frameSize + PairBytes(frameSize) <= nv21.Length && frameSize + PairBytes(frameSize) <= nv12.Length
    modifies nv12
    ensures PairsSwapped(nv12[..], nv21[..], frameSize)
    ensures forall j :: frameSize + PairBytes(frameSize) <= j < nv12.Length ==> nv12[j] == old(nv12[j])
  {
    CopyBytes(nv12, 0, nv21, 0, frameSize);
    SwapPairs(nv21, nv12, frameSize, frameSize / 2);
  }

  /** The first n bytes are the same, and the pairs behind them are swapped. */
  ghost predicate PairsSwapped(d: seq<Byte>, f: seq<Byte>, n: nat)
    requires n + PairBytes(n) <= |d| && n + PairBytes(n) <= |f|
  {
    && (forall j :: 0 <= j < n ==> d[j] == f[j])
    && (forall j :: n <= j < n + PairBytes(n) ==> d[j] == f[n + Partner(j - n)])
  }

  lemma EvenSwap(d: seq<Byte>, f: seq<Byte>, w: nat, h: nat)
    requires w % 2 == 0 && h % 2 == 0 && Area(w, h) + PairBytes(Area(w, h)) <= |d| && Area(w, h) + PairBytes(Area(w, h)) <= |f|
    requires PairsSwapped(d, f, Area(w, h))
    ensures FrameSize(w, h) == Area(w, h) + PairBytes(Area(w, h)) && d[..FrameSize(w, h)] == Swapped(f, w, h)
  {
    HalfFrame(w, h);
    hide Area;
    assert forall j :: 0 <= j < FrameSize(w, h) ==> d[j] == SwappedByte(f, w, h, j);
  }

  /** The loop over chroma pairs. */
  method SwapPairs(nv21: array<Byte>, nv12: array<Byte>, at: nat, n: nat)
    requires nv21 != nv12 && at + (n + 1) / 2 * 2 <= nv21.Length && at + (n + 1) / 2 * 2 <= nv12.Length
    modifies nv12
    ensures forall j :: at <= j < at + (n + 1) / 2 * 2 ==> nv12[j] == nv21[at + Partner(j - at)]
    ensures forall j :: 0 <= j < nv12.Length && !(at <= j < at + (n + 1) / 2 * 2) ==> nv12[j] == old(nv12[j])
  {
    var i := 0;
    while i < n
      invariant 0 <= i <= (n + 1) / 2 * 2 && i % 2 == 0
      invariant forall j :: at <= j < at + i ==> nv12[j] == nv21[at + Partner(j - at)]
      invariant forall j :: 0 <= j < nv12.Length && !(at <= j < at + i) ==> nv12[j] == old(nv12[j])
    {
      nv12[at + i] := nv21[at + i + 1];
      nv12[at + i + 1] := nv21[at + i];
      i := i + 2;
    }
  }

  lemma HalfFrame(w: nat, h: nat)
    requires w % 2 == 0 && h % 2 == 0
    ensures w * h == Area(w, h) && Area(w, h) / 2 == Area(w, h / 2) && Area(w, h / 2) % 2 == 0
  {
    var k := h / 2;
    EvenProduct(k, w);
    assert h * w == k * w * 2 by {
      assert h == k * 2;
    }
  }

  /** Swapping twice gives the frame back. */
  lemma SwapTwice(f: seq<Byte>, w: nat, h: nat)
    requires w % 2 == 0 && |f| == FrameSize(w, h)
    ensures Swapped(Swapped(f, w, h), w, h) == f
  {
    hide Area, Swapped;
    forall i | 0 <= i < |f| ensures Swapped(Swapped(f, w, h), w, h)[i] == f[i] {
      SwappedAt(Swapped(f, w, h), w, h, i);
      if i < Area(w, h) {
        SwappedAt(f, w, h, i);
      } else {
        PartnerInPlane(w, h / 2, i - Area(w, h));
        SwappedAt(f, w, h, Area(w, h) + Partner(i - Area(w, h)));
      }
    }
  }

  lemma SwappedAt(f: seq<Byte>, w: nat, h: nat, i: nat)
    requires w % 2 == 0 && FrameSize(w, h) <= |f| && i < FrameSize(w, h)
    ensures Swapped(f, w, h)[i] == SwappedByte(f, w, h, i)
  {
  }

  lemma SwappedChroma(f: seq<Byte>, w: nat, h: nat, y: nat, x: nat)
    requires w % 2 == 0 && FrameSize(w, h) <= |f| && y < h / 2 && x < w
    ensures Partner(x) < w && Ix(w, y, x) < Area(w, h / 2) && Ix(w, y, Partner(x)) < Area(w, h / 2)
    ensures Swapped(f, w, h)[Area(w, h) + Ix(w, y, x)] == f[Area(w, h) + Ix(w, y, Partner(x))]
  {
    hide Area, Ix;
    PartnerInRow(w, y, x);
    IxBound(w, h / 2, y, x);
    IxBound(w, h / 2, y, Partner(x));
  }

  /** Every pixel of a swapped frame has its luma and the two bytes of its chroma pair the other way round. */
  lemma SwappedPixel(f: seq<Byte>, w: nat, h: nat, x: nat, y: nat)
    requires w % 2 == 0 && h % 2 == 0 && x < w && y < h && FrameSize(w, h) <= |f|
    ensures var p := PixelOf(f, w, h, x, y);
      PixelOf(Swapped(f, w, h), w, h, x, y) == Pixel(p.luma, p.second, p.first)
  {
    hide Ix, Area;
    PixelFits(w, h, x, y);
    SwappedChroma(f, w, h, y / 2, x / 2 * 2);
    SwappedChroma(f, w, h, y / 2, x / 2 * 2 + 1);
  }

  /** Swapping chroma and cropping at an even column commute. */
  lemma SwapCropCommute(src: seq<Byte>, W: nat, H: nat, cx: nat, cy: nat, w: nat, h: nat)
    requires W % 2 == 0 && w % 2 == 0 && cx % 2 == 0 && Inside(W, H, cx, cy, w, h) && FrameSize(W, H) <= |src|
    ensures Swapped(Cropped(src, W, H, cx, cy, w, h), w, h) == Cropped(Swapped(src, W, H), W, H, cx, cy, w, h)
  {
    hide Cropped, Ix, Area;
    var c, s := Cropped(src, W, H, cx, cy, w, h), Swapped(src, W, H);
    var f, g := Swapped(c, w, h), Cropped(s, W, H, cx, cy, w, h);
    forall y: nat, x: nat | y < h && x < w ensures Ix(w, y, x) < Area(w, h) && f[Ix(w, y, x)] == g[Ix(w, y, x)] {
      CropLuma(src, W, H, cx, cy, w, h, y, x);
      CropLuma(s, W, H, cx, cy, w, h, y, x);
    }
    forall y: nat, x: nat | y < h / 2 && x < w
      ensures Ix(w, y, x) < Area(w, h / 2) && f[Area(w, h) + Ix(w, y, x)] == g[Area(w, h) + Ix(w, y, x)]
    {
      SwappedChroma(c, w, h, y, x);
      CropChroma(src, W, H, cx, cy, w, h, y, Partner(x));
      CropChroma(s, W, H, cx, cy, w, h, y, x);
      SwappedChroma(src, W, H, cy / 2 + y, cx + x);
      assert Partner(cx + x) == cx + Partner(x);
    }
    SameFrame(f, g, w, h);
  }
}
