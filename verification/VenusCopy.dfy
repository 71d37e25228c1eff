/** Copying a camera frame into an encoder buffer, both in the Venus layout (HAL3on1-adapter.cpp). */
module VenusCopy {
  import opened Arith

  /** A37_ALIGN */
  function Align(v: nat, a: nat): (r: nat)
    requires a > 0
    ensures v <= r < v + a && r % a == 0
  {
    AlignRounds(v, a);
    (v + a - 1) / a * a
  }

  lemma AlignRounds(v: nat, a: nat)
    requires a > 0
    ensures v <= (v + a - 1) / a * a < v + a && ((v + a - 1) / a * a) % a == 0
  {
    MultipleMod((v + a - 1) / a, a);
  }

  function Min(a: nat, b: nat): nat {
    if a < b then a else b
  }

  // ----- One plane -----

  /** Rows of a plane: where it starts, the distance between rows, and how many there are. */
  datatype Plane = Plane(at: nat, stride: nat, lines: nat)
  {
    function End(): nat {
      at + lines * stride
    }
  }

  /** The rectangle w by h fits into the plane. */
  predicate Covers(p: Plane, w: nat, h: nat) {
    w <= p.stride && h <= p.lines
  }

  /** The rectangle w by h at the start of the plane can be read from a buffer of n bytes. */
  predicate Within(p: Plane, w: nat, h: nat, n: nat) {
    w > 0 && h > 0 ==> p.at + (h - 1) * p.stride + w <= n
  }

  /** That is, every one of its rows can. */
  lemma WithinRows(p: Plane, w: nat, h: nat, n: nat)
    ensures Within(p, w, h, n) <==> forall y: nat :: y < h ==> w == 0 || At(p, y, w) <= n
  {
    if Within(p, w, h, n) {
      forall y: nat | y < h && w > 0 ensures At(p, y, w) <= n {
        MulMonotone(y, h - 1, p.stride);
      }
    } else {
      assert At(p, h - 1, w) > n;
    }
  }

  lemma PixelWithin(p: Plane, w: nat, h: nat, n: nat, y: nat, x: nat)
    requires Within(p, w, h, n) && y < h && x < w
    ensures p.at + y * p.stride + x < n
  {
    MulMonotone(y, h - 1, p.stride);
  }

  lemma PixelInPlane(p: Plane, y: nat, x: nat)
    requires y < p.lines && x < p.stride
    ensures p.at + y * p.stride + x < p.End()
  {
    MulMonotone(y + 1, p.lines, p.stride);
  }

  /** Byte i of a copied plane: the source byte in the same row and column inside the rectangle, else the fill. */
  function Copied(src: seq<Byte>, from: Plane, to: Plane, w: nat, h: nat, fill: Byte, i: nat): Byte
    requires Within(from, w, h, |src|)
  {
    if to.stride == 0 then fill
    else
      var y, x := i / to.stride, i % to.stride;
      if y < h && x < w then
        PixelWithin(from, w, h, |src|, y, x);
        src[from.at + y * from.stride + x]
      else fill
  }

  /** memcpy */
  method CopyBytes(dst: array<Byte>, at: nat, src: array<Byte>, from: nat, n: nat)
    requires dst != src && (n > 0 ==> at + n <= dst.Length && from + n <= src.Length)
    modifies dst
    ensures forall j :: 0 <= j < dst.Length ==> dst[j] == if at <= j < at + n then src[from + j - at] else old(dst[j])
  {
    for k := 0 to n
      invariant forall j :: 0 <= j < dst.Length ==> dst[j] == if at <= j < at + k then src[from + j - at] else old(dst[j])
    {
      dst[at + k] := src[from + k];
    }
  }

  /** memset */
  method FillBytes(dst: array<Byte>, at: nat, value: Byte, n: nat)
    requires at + n <= dst.Length
    modifies dst
    ensures forall j :: 0 <= j < dst.Length ==> dst[j] == if at <= j < at + n then value else old(dst[j])
  {
    for k := 0 to n
      invariant forall j :: 0 <= j < dst.Length ==> dst[j] == if at <= j < at + k then value else old(dst[j])
    {
      dst[at + k] := value;
    }
  }

  /** Bytes lo up to hi of plane to hold the copy. */
  ghost predicate HoldsCopy(d: seq<Byte>, src: seq<Byte>, from: Plane, to: Plane, w: nat, h: nat, fill: Byte, lo: nat, hi: nat)
    requires Within(from, w, h, |src|)
  {
    to.at + hi <= |d| && forall j :: to.at + lo <= j < to.at + hi ==> d[j] == Copied(src, from, to, w, h, fill, j - to.at)
  }

  /** Row y of the plane, for a byte of it. */
  lemma RowOf(to: Plane, y: nat, i: nat)
    requires y * to.stride <= i < (y + 1) * to.stride
    ensures to.stride > 0 && i / to.stride == y && i % to.stride == i - y * to.stride
  {
    DivUnique(i, to.stride, y, i - y * to.stride);
  }

  /** Only bytes lo up to hi of plane to changed. */
  twostate predicate OnlyChanged(dst: array<Byte>, to: Plane, lo: nat, hi: nat)
    reads dst
  {
    forall j :: 0 <= j < dst.Length && !(to.at + lo <= j < to.at + hi) ==> dst[j] == old(dst[j])
  }

  lemma RowBounds(p: Plane, y: nat)
    requires y < p.lines
    ensures y * p.stride <= (y + 1) * p.stride <= p.lines * p.stride && (y + 1) * p.stride == y * p.stride + p.stride
  {
    MulMonotone(y + 1, p.lines, p.stride);
  }

  /** A row written at its place in the plane, from its place in the source, holds the copy. */
  lemma RowHolds(d: seq<Byte>, s: seq<Byte>, from: Plane, to: Plane, w: nat, h: nat, fill: Byte, y: nat, row: nat, srow: nat)
    requires Within(from, w, h, |s|) && w <= to.stride && y < h && row == to.at + y * to.stride && srow == from.at + y * from.stride
    requires row + to.stride <= |d| && (w > 0 ==> srow + w <= |s|)
    requires forall j :: row <= j < row + to.stride ==> d[j] == if j < row + w then s[srow + j - row] else fill
    ensures HoldsCopy(d, s, from, to, w, h, fill, y * to.stride, (y + 1) * to.stride)
  {
    assert (y + 1) * to.stride == y * to.stride + to.stride;
    forall j | row <= j < row + to.stride ensures d[j] == Copied(s, from, to, w, h, fill, j - to.at) {
      RowOf(to, y, j - to.at);
    }
  }

  /** One turn of the row loop. */
  method CopyRow(dst: array<Byte>, src: array<Byte>, from: Plane, to: Plane, w: nat, h: nat, fill: Byte, y: nat)
    requires dst != src && to.End() <= dst.Length && Within(from, w, h, src.Length) && Covers(to, w, h) && y < h
    modifies dst
    ensures HoldsCopy(dst[..], src[..], from, to, w, h, fill, y * to.stride, (y + 1) * to.stride)
    ensures OnlyChanged(dst, to, y * to.stride, (y + 1) * to.stride)
  {
    hide Copied, HoldsCopy;
    RowBounds(to, y);
    MulMonotone(y, h - 1, from.stride);
    var row, srow := to.at + y * to.stride, from.at + y * from.stride;
    CopyBytes(dst, row, src, srow, w);
    if w < to.stride {
      FillBytes(dst, row + w, fill, to.stride - w);
    }
    RowHolds(dst[..], src[..], from, to, w, h, fill, y, row, srow);
  }

  lemma HoldsBoth(d: seq<Byte>, src: seq<Byte>, from: Plane, to: Plane, w: nat, h: nat, fill: Byte, lo: nat, mid: nat, hi: nat)
    requires Within(from, w, h, |src|) && lo <= mid <= hi
    requires HoldsCopy(d, src, from, to, w, h, fill, lo, mid) && HoldsCopy(d, src, from, to, w, h, fill, mid, hi)
    ensures HoldsCopy(d, src, from, to, w, h, fill, lo, hi)
  {
    hide Copied;
  }

  /** The row loop. */
  method CopyRows(dst: array<Byte>, src: array<Byte>, from: Plane, to: Plane, w: nat, h: nat, fill: Byte)
    requires dst != src && to.End() <= dst.Length && Within(from, w, h, src.Length) && Covers(to, w, h)
    modifies dst
    ensures HoldsCopy(dst[..], src[..], from, to, w, h, fill, 0, h * to.stride)
    ensures OnlyChanged(dst, to, 0, h * to.stride)
  {
    hide Copied;
    for y := 0 to h
      invariant HoldsCopy(dst[..], src[..], from, to, w, h, fill, 0, y * to.stride)
      invariant OnlyChanged(dst, to, 0, y * to.stride)
    {
      RowBounds(to, y);
      ghost var before := dst[..];
      CopyRow(dst, src, from, to, w, h, fill, y);
      assert HoldsCopy(dst[..], src[..], from, to, w, h, fill, 0, y * to.stride);
      HoldsBoth(dst[..], src[..], from, to, w, h, fill, 0, y * to.stride, (y + 1) * to.stride);
    }
  }

  /** The fast path: equal strides and the whole width copied, so that the rows are contiguous on both sides. */
  method CopyContiguous(dst: array<Byte>, src: array<Byte>, from: Plane, to: Plane, w: nat, h: nat, fill: Byte)
    requires dst != src && to.End() <= dst.Length && Within(from, w, h, src.Length) && Covers(to, w, h)
    requires from.stride == to.stride == w
    modifies dst
    ensures HoldsCopy(dst[..], src[..], from, to, w, h, fill, 0, h * to.stride)
    ensures OnlyChanged(dst, to, 0, h * to.stride)
  {
    MulMonotone(h, to.lines, w);
    assert h > 0 ==> h * w == (h - 1) * w + w;
    CopyBytes(dst, to.at, src, from.at, h * to.stride);
    ghost var d, s := dst[..], src[..];
    forall j | to.at <= j < to.at + h * to.stride ensures d[j] == Copied(s, from, to, w, h, fill, j - to.at) {
      SameByte(j - to.at, w, h);
    }
  }

  /** In contiguous rows, row and column of a byte lead back to its place. */
  lemma SameByte(i: nat, w: nat, h: nat)
    requires i < h * w
    ensures w > 0 && i / w < h && i / w * w + i % w == i
  {
    if i / w >= h {
      MulMonotone(h, i / w, w);
    }
  }

  /** The lines below the copied ones. */
  method FillRest(dst: array<Byte>, ghost src: seq<Byte>, ghost from: Plane, to: Plane, ghost w: nat, h: nat, fill: Byte)
    requires to.End() <= dst.Length && Within(from, w, h, |src|) && Covers(to, w, h)
    modifies dst
    ensures HoldsCopy(dst[..], src, from, to, w, h, fill, h * to.stride, to.lines * to.stride)
    ensures OnlyChanged(dst, to, h * to.stride, to.lines * to.stride)
  {
    MulMonotone(h, to.lines, to.stride);
    assert (to.lines - h) * to.stride == to.lines * to.stride - h * to.stride;
    if h < to.lines {
      FillBytes(dst, to.at + h * to.stride, fill, (to.lines - h) * to.stride);
    }
    ghost var d := dst[..];
    forall j | to.at + h * to.stride <= j < to.at + to.lines * to.stride ensures d[j] == Copied(src, from, to, w, h, fill, j - to.at) {
      BelowRows(j - to.at, to.stride, h);
    }
  }

  lemma BelowRows(i: nat, stride: nat, h: nat)
    requires h * stride <= i && stride > 0
    ensures i / stride >= h
  {
    if i / stride < h {
      MulMonotone(i / stride + 1, h, stride);
    }
  }

  /** One plane, by the fast path or the row loop; both leave the same bytes. */
  method CopyPlane(dst: array<Byte>, src: array<Byte>, from: Plane, to: Plane, w: nat, h: nat, fill: Byte, contig: bool)
    requires dst != src && to.End() <= dst.Length && Within(from, w, h, src.Length) && Covers(to, w, h)
    requires contig ==> from.stride == to.stride == w
    modifies dst
    ensures HoldsCopy(dst[..], src[..], from, to, w, h, fill, 0, to.lines * to.stride)
    ensures OnlyChanged(dst, to, 0, to.lines * to.stride)
  {
    hide Copied;
    MulMonotone(h, to.lines, to.stride);
    if contig {
      CopyContiguous(dst, src, from, to, w, h, fill);
    } else {
      CopyRows(dst, src, from, to, w, h, fill);
    }
    FillRest(dst, src[..], from, to, w, h, fill);
    HoldsBoth(dst[..], src[..], from, to, w, h, fill, 0, h * to.stride, to.lines * to.stride);
  }

  /** The copy determines every byte of the plane: whichever path wrote it, the buffer is the same. */
  lemma CopyDetermined(d: seq<Byte>, e: seq<Byte>, src: seq<Byte>, from: Plane, to: Plane, w: nat, h: nat, fill: Byte)
    requires Within(from, w, h, |src|)
    requires HoldsCopy(d, src, from, to, w, h, fill, 0, to.lines * to.stride)
    requires HoldsCopy(e, src, from, to, w, h, fill, 0, to.lines * to.stride)
    ensures d[to.at..to.End()] == e[to.at..to.End()]
  {
    hide Copied;
  }

  // ----- A whole frame -----

  function Luma(w: nat, h: nat): Plane {
    Plane(0, Align(w, 128), Align(h, 32))
  }

  /** lines: how many chroma rows of the frame are meant. */
  function Chroma(w: nat, h: nat, lines: nat): Plane {
    Plane(Align(w, 128) * Align(h, 32), Align(w, 128), lines)
  }

  const BLACK: Byte := 16
  const NEUTRAL: Byte := 128

  /** The planes of one copy: what is read and what is written. */
  datatype Frames = Frames(w: nat, h: nat, srcY: Plane, srcUV: Plane, dstY: Plane, dstUV: Plane)

  function FramesOf(dstW: nat, dstH: nat, srcW: nat, srcH: nat): (f: Frames)
    ensures Covers(f.dstY, f.w, f.h) && Covers(f.dstUV, f.w, f.h / 2)
    ensures f.dstY.End() == f.dstUV.at && f.dstY.at == 0
    ensures f.dstY.stride % 128 == 0 && dstW <= f.dstY.stride < dstW + 128 && f.dstUV.stride == f.dstY.stride
    ensures f.dstY.lines % 32 == 0 && dstH <= f.dstY.lines < dstH + 32
    ensures f.dstUV.lines % 16 == 0 && dstH / 2 <= f.dstUV.lines < dstH / 2 + 16
    ensures f.srcY.stride % 128 == 0 && srcW <= f.srcY.stride < srcW + 128 && f.srcUV.stride == f.srcY.stride
    ensures f.srcY.lines % 32 == 0 && srcH <= f.srcY.lines < srcH + 32 && f.srcUV.at == f.srcY.End()
  {
    var w, h := Min(srcW, dstW), Min(srcH, dstH);
    Frames(w, h, Luma(srcW, srcH), Chroma(srcW, srcH, h / 2), Luma(dstW, dstH), Chroma(dstW, dstH, Align(dstH / 2, 16)))
  }

  /** Every byte of both planes is the source byte in the same place inside the copied rectangle, else 16 or 128. */
  ghost predicate VenusCopied(d: seq<Byte>, s: seq<Byte>, f: Frames)
    requires Within(f.srcY, f.w, f.h, |s|) && Within(f.srcUV, f.w, f.h / 2, |s|)
  {
    && HoldsCopy(d, s, f.srcY, f.dstY, f.w, f.h, BLACK, 0, f.dstY.lines * f.dstY.stride)
    && HoldsCopy(d, s, f.srcUV, f.dstUV, f.w, f.h / 2, NEUTRAL, 0, f.dstUV.lines * f.dstUV.stride)
  }

  /** a37_copy_yuv420sp_to_venus */
  method CopyToVenus(dst: array<Byte>, dstW: nat, dstH: nat, src: array<Byte>, srcW: nat, srcH: nat)
    requires dst != src
    requires var f := FramesOf(dstW, dstH, srcW, srcH);
      f.dstUV.End() <= dst.Length && Within(f.srcY, f.w, f.h, src.Length) && Within(f.srcUV, f.w, f.h / 2, src.Length)
    modifies dst
    ensures VenusCopied(dst[..], src[..], FramesOf(dstW, dstH, srcW, srcH))
    ensures forall j :: FramesOf(dstW, dstH, srcW, srcH).dstUV.End() <= j < dst.Length ==> dst[j] == old(dst[j])
  {
    hide Copied, Align, FramesOf;
    var f := FramesOf(dstW, dstH, srcW, srcH);
    var contig := f.srcY.stride == f.dstY.stride && f.w == f.dstY.stride;
    SameStrides(dstW, dstH, srcW, srcH);
    CopyPlane(dst, src, f.srcY, f.dstY, f.w, f.h, BLACK, contig);
    CopyPlane(dst, src, f.srcUV, f.dstUV, f.w, f.h / 2, NEUTRAL, contig);
  }

  lemma SameStrides(dstW: nat, dstH: nat, srcW: nat, srcH: nat)
    ensures var f := FramesOf(dstW, dstH, srcW, srcH);
      f.srcUV.stride == f.srcY.stride && f.dstUV.stride == f.dstY.stride
  {
  }

  // ----- Pixels -----

  /** The byte of a plane in row y and column x. */
  function At(p: Plane, y: nat, x: nat): nat {
    p.at + y * p.stride + x
  }

  lemma CopiedAt(src: seq<Byte>, from: Plane, to: Plane, w: nat, h: nat, fill: Byte, y: nat, x: nat)
    requires Within(from, w, h, |src|) && x < to.stride
    ensures y < h && x < w ==> from.at + y * from.stride + x < |src|
    ensures Copied(src, from, to, w, h, fill, y * to.stride + x)
         == if y < h && x < w then src[from.at + y * from.stride + x] else fill
  {
    DivUnique(y * to.stride + x, to.stride, y, x);
    if y < h && x < w {
      PixelWithin(from, w, h, |src|, y, x);
    }
  }

  lemma PlaneByte(d: seq<Byte>, s: seq<Byte>, from: Plane, to: Plane, w: nat, h: nat, fill: Byte, y: nat, x: nat)
    requires Within(from, w, h, |s|) && x < to.stride && y < to.lines
    requires HoldsCopy(d, s, from, to, w, h, fill, 0, to.lines * to.stride)
    ensures At(to, y, x) < |d| && (y < h && x < w ==> At(from, y, x) < |s|)
    ensures d[At(to, y, x)] == if y < h && x < w then s[At(from, y, x)] else fill
  {
    hide Copied;
    PixelInPlane(to, y, x);
    CopiedAt(s, from, to, w, h, fill, y, x);
    var j := At(to, y, x);
    assert to.at <= j < to.at + to.lines * to.stride && j - to.at == y * to.stride + x;
    assert d[j] == Copied(s, from, to, w, h, fill, j - to.at);
  }

  /** Where chroma starts: after all the lines of luma. */
  function UvStart(w: nat, h: nat): nat {
    Align(w, 128) * Align(h, 32)
  }

  lemma AtAnyLine(p: Plane, y: nat, x: nat)
    ensures At(p, y, x) == At(Plane(p.at, p.stride, 0), y, x)
  {
  }

  /** The planes and the copied rectangle, in the parameters of the copy. */
  lemma FramesAre(dstW: nat, dstH: nat, srcW: nat, srcH: nat)
    ensures var f := FramesOf(dstW, dstH, srcW, srcH);
      && f.srcY == Plane(0, Align(srcW, 128), Align(srcH, 32)) && f.dstY == Plane(0, Align(dstW, 128), Align(dstH, 32))
      && f.srcUV.at == UvStart(srcW, srcH) && f.srcUV.stride == Align(srcW, 128)
      && f.dstUV == Plane(UvStart(dstW, dstH), Align(dstW, 128), Align(dstH / 2, 16))
      && f.w <= srcW && f.w <= dstW && (f.w == srcW || f.w == dstW)
      && f.h <= srcH && f.h <= dstH && (f.h == srcH || f.h == dstH)
  {
    hide Align;
  }

  /** Luma, in the parameters of the copy: every pixel that both sizes have is the source's, the rest is 16. */
  lemma VenusLuma(d: seq<Byte>, s: seq<Byte>, dstW: nat, dstH: nat, srcW: nat, srcH: nat, x: nat, y: nat)
    requires var f := FramesOf(dstW, dstH, srcW, srcH);
      Within(f.srcY, f.w, f.h, |s|) && Within(f.srcUV, f.w, f.h / 2, |s|) && VenusCopied(d, s, f)
    requires x < Align(dstW, 128) && y < Align(dstH, 32)
    ensures var to, from := At(Plane(0, Align(dstW, 128), Align(dstH, 32)), y, x), At(Plane(0, Align(srcW, 128), Align(srcH, 32)), y, x);
      && to < |d|
      && if x < srcW && x < dstW && y < srcH && y < dstH then from < |s| && d[to] == s[from] else d[to] == 16
  {
    hide HoldsCopy, Align, Within, FramesOf, At;
    FramesAre(dstW, dstH, srcW, srcH);
    var f := FramesOf(dstW, dstH, srcW, srcH);
    PlaneByte(d, s, f.srcY, f.dstY, f.w, f.h, BLACK, y, x);
  }

  /** Chroma: row y, which belongs to pixel rows 2y and 2y + 1, is the source's where both sizes have both rows, and
      the rest is 128. */
  lemma VenusChroma(d: seq<Byte>, s: seq<Byte>, dstW: nat, dstH: nat, srcW: nat, srcH: nat, x: nat, y: nat)
    requires var f := FramesOf(dstW, dstH, srcW, srcH);
      Within(f.srcY, f.w, f.h, |s|) && Within(f.srcUV, f.w, f.h / 2, |s|) && VenusCopied(d, s, f)
    requires x < Align(dstW, 128) && y < Align(dstH / 2, 16)
    ensures var to, from := At(Plane(UvStart(dstW, dstH), Align(dstW, 128), 0), y, x), At(Plane(UvStart(srcW, srcH), Align(srcW, 128), 0), y, x);
      && to < |d|
      && if x < srcW && x < dstW && 2 * y + 1 < srcH && 2 * y + 1 < dstH then from < |s| && d[to] == s[from] else d[to] == 128
  {
    hide HoldsCopy, Align, Within, FramesOf, At, UvStart;
    FramesAre(dstW, dstH, srcW, srcH);
    var f := FramesOf(dstW, dstH, srcW, srcH);
    AtAnyLine(f.srcUV, y, x);
    AtAnyLine(f.dstUV, y, x);
    assert y < f.h / 2 <==> 2 * y + 1 < f.h;
    PlaneByte(d, s, f.srcUV, f.dstUV, f.w, f.h / 2, NEUTRAL, y, x);
  }

  /** The chroma pair of pixel (x, y) lies wholly inside the copied rectangle. */
  predicate PairCopied(x: nat, y: nat, w: nat, h: nat) {
    x / 2 * 2 + 1 < w && y / 2 < h / 2
  }

  /**
   A copied pixel keeps its luma always, and its chroma when its pair is copied; otherwise the second byte
   of the pair is neutral whatever the source held.
   */
  lemma PixelCopied(d: seq<Byte>, s: seq<Byte>, f: Frames, x: nat, y: nat)
    requires Within(f.srcY, f.w, f.h, |s|) && Within(f.srcUV, f.w, f.h / 2, |s|)
    requires Covers(f.dstY, f.w, f.h) && Covers(f.dstUV, f.w, f.h / 2) && f.dstUV.stride % 2 == 0
    requires VenusCopied(d, s, f) && x < f.w && y < f.h
    ensures At(f.dstY, y, x) < |d| && At(f.srcY, y, x) < |s| && d[At(f.dstY, y, x)] == s[At(f.srcY, y, x)]
    ensures y / 2 < f.dstUV.lines ==> At(f.dstUV, y / 2, x / 2 * 2 + 1) < |d|
    ensures PairCopied(x, y, f.w, f.h) ==>
      var u, v := x / 2 * 2, x / 2 * 2 + 1;
      && At(f.srcUV, y / 2, v) < |s| && y / 2 < f.dstUV.lines
      && d[At(f.dstUV, y / 2, u)] == s[At(f.srcUV, y / 2, u)] && d[At(f.dstUV, y / 2, v)] == s[At(f.srcUV, y / 2, v)]
    ensures !PairCopied(x, y, f.w, f.h) && y / 2 < f.dstUV.lines ==> d[At(f.dstUV, y / 2, x / 2 * 2 + 1)] == NEUTRAL
  {
    hide HoldsCopy;
    PlaneByte(d, s, f.srcY, f.dstY, f.w, f.h, BLACK, y, x);
    if y / 2 < f.dstUV.lines {
      PlaneByte(d, s, f.srcUV, f.dstUV, f.w, f.h / 2, NEUTRAL, y / 2, x / 2 * 2);
      PlaneByte(d, s, f.srcUV, f.dstUV, f.w, f.h / 2, NEUTRAL, y / 2, x / 2 * 2 + 1);
    }
  }

  /** The pairs of all copied pixels are copied exactly when width and height of the copied rectangle are even. */
  lemma EvenCopiesPairs(w: nat, h: nat)
    requires w > 0 && h > 0
    ensures (forall x: nat, y: nat :: x < w && y < h ==> PairCopied(x, y, w, h)) <==> w % 2 == 0 && h % 2 == 0
  {
    if w % 2 != 0 || h % 2 != 0 {
      assert !PairCopied(w - 1, h - 1, w, h);
    }
  }

  /** Pixel (x, y) of the copy has the chroma pair it has in the source. */
  ghost predicate SameChroma(d: seq<Byte>, s: seq<Byte>, f: Frames, x: nat, y: nat)
    requires At(f.srcUV, y / 2, x / 2 * 2 + 1) < |s|
  {
    var u, v := x / 2 * 2, x / 2 * 2 + 1;
    && At(f.dstUV, y / 2, v) < |d|
    && d[At(f.dstUV, y / 2, u)] == s[At(f.srcUV, y / 2, u)] && d[At(f.dstUV, y / 2, v)] == s[At(f.srcUV, y / 2, v)]
  }

  /** Whatever is copied, every copied pixel that has a chroma pair in the source keeps it. */
  ghost predicate KeepsChroma(f: Frames) {
    forall d: seq<Byte>, s: seq<Byte>, x: nat, y: nat ::
      && Within(f.srcY, f.w, f.h, |s|) && Within(f.srcUV, f.w, f.h / 2, |s|) && VenusCopied(d, s, f)
      && x < f.w && y < f.h && At(f.srcUV, y / 2, x / 2 * 2 + 1) < |s|
      ==> SameChroma(d, s, f, x, y)
  }

  /** The buffer that the copy of s makes. */
  function Painted(s: seq<Byte>, f: Frames): (d: seq<Byte>)
    requires Within(f.srcY, f.w, f.h, |s|) && Within(f.srcUV, f.w, f.h / 2, |s|)
    ensures |d| == f.dstUV.End()
  {
    seq(f.dstUV.End(), j requires 0 <= j =>
      if j < f.dstUV.at then Copied(s, f.srcY, f.dstY, f.w, f.h, BLACK, j)
      else Copied(s, f.srcUV, f.dstUV, f.w, f.h / 2, NEUTRAL, j - f.dstUV.at))
  }

  lemma PaintedIsCopy(s: seq<Byte>, f: Frames)
    requires Within(f.srcY, f.w, f.h, |s|) && Within(f.srcUV, f.w, f.h / 2, |s|)
    requires f.dstY.at == 0 && f.dstY.End() == f.dstUV.at
    ensures VenusCopied(Painted(s, f), s, f)
  {
    hide Copied;
  }

  /** All of nothing but zeros, long enough to read pixel (x, y) and its chroma pair. */
  lemma Blank(f: Frames, x: nat, y: nat) returns (s: seq<Byte>)
    requires x < f.w && y < f.h
    ensures Within(f.srcY, f.w, f.h, |s|) && Within(f.srcUV, f.w, f.h / 2, |s|) && At(f.srcUV, y / 2, x / 2 * 2 + 1) < |s|
    ensures forall i :: 0 <= i < |s| ==> s[i] == 0
  {
    var a, b := At(f.srcY, f.h - 1, f.w), if f.h / 2 > 0 then At(f.srcUV, f.h / 2 - 1, f.w) else 0;
    s := seq(a + b + At(f.srcUV, y / 2, x / 2 * 2 + 2), _ => 0);
  }

  /** With an odd width or height the corner pixel of a blank frame loses its chroma. */
  lemma OddLosesChroma(f: Frames)
    requires f.w > 0 && f.h > 0 && (f.w % 2 != 0 || f.h % 2 != 0)
    requires Covers(f.dstY, f.w, f.h) && Covers(f.dstUV, f.w, f.h / 2) && f.dstUV.stride % 2 == 0
    requires f.dstY.at == 0 && f.dstY.End() == f.dstUV.at
    ensures !KeepsChroma(f)
  {
    hide VenusCopied, Painted, Within, Covers, SameChroma;
    var x, y := f.w - 1, f.h - 1;
    var s := Blank(f, x, y);
    var d := Painted(s, f);
    PaintedIsCopy(s, f);
    CornerLost(d, s, f, x, y);
  }

  lemma CornerLost(d: seq<Byte>, s: seq<Byte>, f: Frames, x: nat, y: nat)
    requires Within(f.srcY, f.w, f.h, |s|) && Within(f.srcUV, f.w, f.h / 2, |s|) && At(f.srcUV, y / 2, x / 2 * 2 + 1) < |s|
    requires Covers(f.dstY, f.w, f.h) && Covers(f.dstUV, f.w, f.h / 2) && f.dstUV.stride % 2 == 0
    requires VenusCopied(d, s, f) && |d| == f.dstUV.End() && x < f.w && y < f.h && !PairCopied(x, y, f.w, f.h)
    requires forall i :: 0 <= i < |s| ==> s[i] == 0
    ensures !SameChroma(d, s, f, x, y)
  {
    hide VenusCopied, Within;
    PixelCopied(d, s, f, x, y);
    if y / 2 >= f.dstUV.lines {
      MulMonotone(f.dstUV.lines, y / 2, f.dstUV.stride);
    }
  }

  /** With an even width and height every frame keeps it. */
  lemma EvenKeepsChroma(f: Frames)
    requires f.w > 0 && f.h > 0 && f.w % 2 == 0 && f.h % 2 == 0
    requires Covers(f.dstY, f.w, f.h) && Covers(f.dstUV, f.w, f.h / 2) && f.dstUV.stride % 2 == 0
    ensures KeepsChroma(f)
  {
    hide VenusCopied;
    EvenCopiesPairs(f.w, f.h);
    forall d: seq<Byte>, s: seq<Byte>, x: nat, y: nat |
      && Within(f.srcY, f.w, f.h, |s|) && Within(f.srcUV, f.w, f.h / 2, |s|) && VenusCopied(d, s, f)
      && x < f.w && y < f.h && At(f.srcUV, y / 2, x / 2 * 2 + 1) < |s|
      ensures SameChroma(d, s, f, x, y)
    {
      PixelCopied(d, s, f, x, y);
    }
  }

  /** Every copied pixel keeps its chroma, whatever the frame, exactly when the copied width and height are even. */
  lemma ChromaKeptExactly(dstW: nat, dstH: nat, srcW: nat, srcH: nat)
    requires dstW > 0 && dstH > 0 && srcW > 0 && srcH > 0
    ensures var f := FramesOf(dstW, dstH, srcW, srcH); KeepsChroma(f) <==> f.w % 2 == 0 && f.h % 2 == 0
  {
    hide KeepsChroma, Align;
    var f := FramesOf(dstW, dstH, srcW, srcH);
    assert f.w > 0 && f.h > 0;
    hide FramesOf;
    if f.w % 2 == 0 && f.h % 2 == 0 {
      EvenKeepsChroma(f);
    } else {
      OddLosesChroma(f);
    }
  }
}
