/**
 * The plane copy of the multi-camera compositor: how the bytes of one backing
 * camera are laid into one plane of the flat composite buffer (zero fill for
 * an empty channel, verbatim copy, copy with zeroed tail, or row-by-row copy
 * with truncated rows), and how the planes of all channels line up.
 */
module PlaneCopy {
  import opened Bytes
  import opened Options

  /** A backing camera as the compositor reads it after the camera snapped:
      GetImageWidth, GetImageHeight, GetImageBytesPerPixel, GetImageBuffer. */
  datatype Frame = Frame(width: nat, height: nat, bytesPerPixel: nat, pixels: seq<byte>) {
    /** Bytes in one row of the frame, width * bytesPerPixel. */
    function RowBytes(): nat {
      Stride(width, bytesPerPixel)
    }

    /** The buffer holds GetImageBufferSize bytes: height rows of RowBytes each. */
    predicate Wellformed() {
      |pixels| == Stride(height, RowBytes())
    }
  }

  /** A frame of the given geometry is well formed exactly when its buffer
      holds width * height * bytes bytes. */
  lemma FrameSize(f: Frame)
    ensures f.Wellformed() <==> |f.pixels| == f.width * f.height * f.bytesPerPixel
  {
    StrideIsProduct(f.height, f.RowBytes());
    StrideIsProduct(f.width, f.bytesPerPixel);
    MulRotate(f.width, f.height, f.bytesPerPixel);
  }

  /** The geometry of one destination plane: compWidth and compHeight are the
      composite width_ and height_ that choose the copy branch; rowBytes is the
      destination row stride Width * Bytes, and size the stored planeSize_. */
  datatype Plane = Plane(compWidth: nat, compHeight: nat, rowBytes: nat, size: nat)

  /** Offset of column col of row row for a row stride of stride bytes. */
  function At(row: nat, col: nat, stride: nat): nat {
    Stride(row, stride) + col
  }

  /** Bytes copied per row when the widths differ: min(destination row, source row). */
  function CopyWidth(f: Frame, p: Plane): (n: nat)
    ensures n <= p.rowBytes && n <= f.RowBytes()
    ensures n == p.rowBytes || n == f.RowBytes()
  {
    if p.rowBytes <= f.RowBytes() then p.rowBytes else f.RowBytes()
  }

  /** The condition under which every memcpy of the plane copy stays inside
      both buffers, with the source's assertion that a same-size frame has
      exactly the plane's size; in the row-by-row branch the frame's rows, at
      the destination stride, lie inside the plane. */
  predicate Fits(src: Option<Frame>, p: Plane) {
    match src
    case None => true
    case Some(f) =>
      && f.Wellformed()
      && if f.width == p.compWidth && f.height == p.compHeight then |f.pixels| == p.size
         else if f.width == p.compWidth then |f.pixels| <= p.size
         else Stride(f.height, p.rowBytes) <= p.size
  }

  /** Destination row r of the row-by-row branch: the first CopyWidth bytes of
      source row r followed by zeros, or all zeros past the source's last row. */
  function CopiedRow(f: Frame, p: Plane, r: nat): (row: seq<byte>)
    requires f.Wellformed()
    ensures |row| == p.rowBytes
  {
    seq(p.rowBytes, c requires 0 <= c < p.rowBytes =>
      if r < f.height && c < CopyWidth(f, p) then
        StrideInside(r, c, f.height, f.RowBytes());
        f.pixels[At(r, c, f.RowBytes())]
      else 0)
  }

  lemma CopiedRowAt(f: Frame, p: Plane, r: nat, c: nat)
    requires f.Wellformed() && c < p.rowBytes
    ensures r < f.height && c < CopyWidth(f, p) ==> At(r, c, f.RowBytes()) < |f.pixels|
    ensures CopiedRow(f, p, r)[c]
         == if r < f.height && c < CopyWidth(f, p) then f.pixels[At(r, c, f.RowBytes())] else 0
  {
    if r < f.height && c < CopyWidth(f, p) {
      StrideInside(r, c, f.height, f.RowBytes());
    }
  }

  /** The first k destination rows of the row-by-row branch. */
  function RowsImage(f: Frame, p: Plane, k: nat): (s: seq<byte>)
    requires f.Wellformed()
    ensures |s| == Stride(k, p.rowBytes)
    decreases k
  {
    if k == 0 then [] else RowsImage(f, p, k - 1) + CopiedRow(f, p, k - 1)
  }

  /** Byte (r, c) of the first k destination rows is byte c of destination row r. */
  lemma {:induction false} RowsImageRow(f: Frame, p: Plane, k: nat, r: nat, c: nat)
    requires f.Wellformed() && r < k && c < p.rowBytes
    ensures At(r, c, p.rowBytes) < |RowsImage(f, p, k)|
    ensures RowsImage(f, p, k)[At(r, c, p.rowBytes)] == CopiedRow(f, p, r)[c]
    decreases k
  {
    StrideInside(r, c, k, p.rowBytes);
    var prev, last := RowsImage(f, p, k - 1), CopiedRow(f, p, k - 1);
    assert RowsImage(f, p, k) == prev + last;
    if r < k - 1 {
      RowsImageRow(f, p, k - 1, r, c);
      assert (prev + last)[At(r, c, p.rowBytes)] == prev[At(r, c, p.rowBytes)];
    } else {
      assert r == k - 1;
      assert last == CopiedRow(f, p, r);
      assert At(r, c, p.rowBytes) == |prev| + c;
      assert (prev + last)[|prev| + c] == last[c];
    }
  }

  /** Byte (r, c) of the row-by-row image is byte (r, c) of the source when
      the source has that row and c is inside the copied width, and zero otherwise. */
  lemma RowsImageAt(f: Frame, p: Plane, k: nat, r: nat, c: nat)
    requires f.Wellformed() && r < k && c < p.rowBytes
    ensures At(r, c, p.rowBytes) < |RowsImage(f, p, k)|
    ensures r < f.height && c < CopyWidth(f, p) ==> At(r, c, f.RowBytes()) < |f.pixels|
    ensures RowsImage(f, p, k)[At(r, c, p.rowBytes)]
         == if r < f.height && c < CopyWidth(f, p) then f.pixels[At(r, c, f.RowBytes())] else 0
  {
    RowsImageRow(f, p, k, r, c);
    CopiedRowAt(f, p, r, c);
  }

  lemma RowsImageAll(f: Frame, p: Plane, k: nat)
    requires f.Wellformed()
    ensures forall r: nat, c: nat | r < k && c < p.rowBytes ::
      && At(r, c, p.rowBytes) < |RowsImage(f, p, k)|
      && (r < f.height && c < CopyWidth(f, p) ==> At(r, c, f.RowBytes()) < |f.pixels|)
      && RowsImage(f, p, k)[At(r, c, p.rowBytes)]
         == if r < f.height && c < CopyWidth(f, p) then f.pixels[At(r, c, f.RowBytes())] else 0
  {
    forall r: nat, c: nat | r < k && c < p.rowBytes {
      RowsImageAt(f, p, k, r, c);
    }
  }

  /** The bytes plane i holds after a snap, given the frame of its backing camera
      (None for the "Empty Channel" sentinel). PlaneImageCases says what they are. */
  function PlaneImage(src: Option<Frame>, p: Plane): (r: seq<byte>)
    requires Fits(src, p)
    ensures |r| == p.size
  {
    match src
    case None => Zeros(p.size)
    case Some(f) =>
      if f.width == p.compWidth && f.height == p.compHeight then
        f.pixels
      else if f.width == p.compWidth then
        f.pixels + Zeros(p.size - |f.pixels|)
      else
        PartialRows(f, p, f.height)
  }

  /** An empty channel's plane is all zero; a frame of the composite size is
      copied verbatim; a frame of the composite width but another height is
      copied with the rest of the plane zeroed; otherwise byte (row, c) of the
      plane is byte (row, c) of the frame where the frame has that row and c is
      within both row widths, and zero everywhere else. */
  lemma PlaneImageCases(src: Option<Frame>, p: Plane)
    requires Fits(src, p)
    ensures src.None? ==> forall k :: 0 <= k < p.size ==> PlaneImage(src, p)[k] == 0
    ensures src.Some? && src.value.width == p.compWidth && src.value.height == p.compHeight ==>
      PlaneImage(src, p) == src.value.pixels
    ensures src.Some? && src.value.width == p.compWidth ==>
      && |src.value.pixels| <= p.size
      && PlaneImage(src, p)[..|src.value.pixels|] == src.value.pixels
      && forall k :: |src.value.pixels| <= k < p.size ==> PlaneImage(src, p)[k] == 0
    ensures src.Some? && src.value.width != p.compWidth ==>
      && (forall row: nat, c: nat | row < src.value.height && c < p.rowBytes ::
            && At(row, c, p.rowBytes) < p.size
            && (c < CopyWidth(src.value, p) ==> At(row, c, src.value.RowBytes()) < |src.value.pixels|)
            && PlaneImage(src, p)[At(row, c, p.rowBytes)]
               == if c < CopyWidth(src.value, p) then src.value.pixels[At(row, c, src.value.RowBytes())] else 0)
      && forall k :: Stride(src.value.height, p.rowBytes) <= k < p.size ==> PlaneImage(src, p)[k] == 0
  {
    if src.Some? && src.value.width != p.compWidth {
      var f := src.value;
      var done := RowsImage(f, p, f.height);
      assert PlaneImage(src, p) == done + Zeros(p.size - |done|);
      RowsImageAll(f, p, f.height);
    }
  }

  /** Writes PlaneImage(src, p) at offset off of a, as SnapImage does for one
      channel; nothing outside that plane changes. */
  method CopyChannelPlane(a: array<byte>, off: nat, src: Option<Frame>, p: Plane)
    requires Fits(src, p) && off + p.size <= a.Length
    modifies a
    ensures a[..] == Overwrite(old(a[..]), off, PlaneImage(src, p))
  {
    match src {
      case None =>
        Fill(a, off, p.size);
      case Some(f) =>
        if f.width == p.compWidth {
          if f.height == p.compHeight {
            Copy(a, off, f.pixels);
          } else {
            Copy(a, off, f.pixels);
            Fill(a, off + |f.pixels|, p.size - |f.pixels|);
            OverwriteAdjacent(old(a[..]), off, f.pixels, Zeros(p.size - |f.pixels|));
          }
        } else {
          CopyRows(a, off, f, p);
        }
    }
  }

  /** The plane while the row loop runs: the first r rows copied, the rest
      still zero from the initial memset. */
  function PartialRows(f: Frame, p: Plane, r: nat): (s: seq<byte>)
    requires f.Wellformed() && r <= f.height && Stride(f.height, p.rowBytes) <= p.size
    ensures |s| == p.size
  {
    StrideMonotone(r, f.height, p.rowBytes);
    RowsImage(f, p, r) + Zeros(p.size - Stride(r, p.rowBytes))
  }

  /** One step of the row loop: copying source row r (which starts at srcOff)
      to dstOff, the start of destination row r, turns r done rows into r + 1,
      wherever in a larger buffer the plane sits; cur is the buffer so far. */
  lemma RowStep(cur: seq<byte>, s: seq<byte>, off: nat, f: Frame, p: Plane, r: nat, dstOff: nat, srcOff: nat)
    requires f.Wellformed() && r < f.height && Stride(f.height, p.rowBytes) <= p.size && off + p.size <= |s|
    requires dstOff == Stride(r, p.rowBytes) && srcOff == Stride(r, f.RowBytes())
    requires cur == Overwrite(s, off, PartialRows(f, p, r))
    ensures off + dstOff + CopyWidth(f, p) <= |cur|
    ensures srcOff + CopyWidth(f, p) <= |f.pixels|
    ensures Overwrite(cur, off + dstOff, f.pixels[srcOff .. srcOff + CopyWidth(f, p)])
         == Overwrite(s, off, PartialRows(f, p, r + 1))
  {
    RowInPlane(f, p, r, dstOff, srcOff);
    OverwriteNested(s, off, PartialRows(f, p, r), dstOff, f.pixels[srcOff .. srcOff + CopyWidth(f, p)]);
  }

  /** The same step within the plane itself. */
  lemma RowInPlane(f: Frame, p: Plane, r: nat, dstOff: nat, srcOff: nat)
    requires f.Wellformed() && r < f.height && Stride(f.height, p.rowBytes) <= p.size
    requires dstOff == Stride(r, p.rowBytes) && srcOff == Stride(r, f.RowBytes())
    ensures dstOff + p.rowBytes <= p.size
    ensures srcOff + CopyWidth(f, p) <= |f.pixels|
    ensures Overwrite(PartialRows(f, p, r), dstOff, f.pixels[srcOff .. srcOff + CopyWidth(f, p)]) == PartialRows(f, p, r + 1)
  {
    hide Overwrite, CopiedRow;
    var dst, n := p.rowBytes, CopyWidth(f, p);
    StrideMonotone(r + 1, f.height, dst);
    StrideMonotone(r + 1, f.height, f.RowBytes());
    var line := f.pixels[srcOff .. srcOff + n];
    var done := RowsImage(f, p, r);
    var tail := p.size - (dstOff + dst);
    CopiedRowSplit(f, p, r, srcOff);
    assert PartialRows(f, p, r) == done + Zeros(dst + tail);
    SpliceIntoZeros(done, line, dst, tail);
    assert PartialRows(f, p, r + 1) == done + CopiedRow(f, p, r) + Zeros(tail);
  }

  /** A copied row is the memcpy'd prefix of the source row followed by zeros. */
  lemma CopiedRowSplit(f: Frame, p: Plane, r: nat, srcOff: nat)
    requires f.Wellformed() && r < f.height && srcOff == Stride(r, f.RowBytes())
    ensures srcOff + CopyWidth(f, p) <= |f.pixels|
    ensures CopiedRow(f, p, r) == f.pixels[srcOff .. srcOff + CopyWidth(f, p)] + Zeros(p.rowBytes - CopyWidth(f, p))
  {
    var n := CopyWidth(f, p);
    StrideMonotone(r + 1, f.height, f.RowBytes());
    var lhs, rhs := CopiedRow(f, p, r), f.pixels[srcOff .. srcOff + n] + Zeros(p.rowBytes - n);
    forall c | 0 <= c < p.rowBytes
      ensures lhs[c] == rhs[c]
    {
      CopiedRowAt(f, p, r, c);
    }
  }

  /** The branch for a width mismatch: zero the plane, then copy each source
      row's first CopyWidth bytes to the start of the matching destination row. */
  method CopyRows(a: array<byte>, off: nat, f: Frame, p: Plane)
    requires f.Wellformed() && Stride(f.height, p.rowBytes) <= p.size && off + p.size <= a.Length
    modifies a
    ensures a[..] == Overwrite(old(a[..]), off, PartialRows(f, p, f.height))
  {
    hide Overwrite;
    var dstRow, srcRow, n := p.rowBytes, f.RowBytes(), CopyWidth(f, p);
    Fill(a, off, p.size);
    var row, dstOff, srcOff := 0, 0, 0;
    assert PartialRows(f, p, 0) == Zeros(p.size);
    while row < f.height
      invariant row <= f.height
      invariant dstOff == Stride(row, dstRow) && srcOff == Stride(row, srcRow)
      invariant a[..] == Overwrite(old(a[..]), off, PartialRows(f, p, row))
    {
      RowStep(a[..], old(a[..]), off, f, p, row, dstOff, srcOff);
      CopyRow(a, off + dstOff, f.pixels[srcOff .. srcOff + n], Overwrite(old(a[..]), off, PartialRows(f, p, row + 1)));
      row, dstOff, srcOff := row + 1, dstOff + dstRow, srcOff + srcRow;
    }
  }

  /** One iteration of the row loop: the memcpy of one source row, whose
      result the caller knows as next. */
  method CopyRow(a: array<byte>, at: nat, line: seq<byte>, ghost next: seq<byte>)
    requires at + |line| <= a.Length
    requires Overwrite(a[..], at, line) == next
    modifies a
    ensures a[..] == next
  {
    Copy(a, at, line);
  }

  /** Every channel's frame fits its plane (stated over the channels one by one). */
  predicate AllFit(srcs: seq<Option<Frame>>, p: Plane)
    decreases |srcs|
  {
    srcs == [] || (AllFit(srcs[..|srcs| - 1], p) && Fits(srcs[|srcs| - 1], p))
  }

  lemma {:induction false} AllFitAt(srcs: seq<Option<Frame>>, p: Plane, i: nat)
    requires AllFit(srcs, p) && i < |srcs|
    ensures Fits(srcs[i], p)
    decreases |srcs|
  {
    if i < |srcs| - 1 {
      AllFitAt(srcs[..|srcs| - 1], p, i);
    }
  }

  lemma {:induction false} AllFitPrefix(srcs: seq<Option<Frame>>, p: Plane, k: nat)
    requires AllFit(srcs, p) && k <= |srcs|
    ensures AllFit(srcs[..k], p)
    decreases |srcs|
  {
    if k < |srcs| {
      assert srcs[..|srcs| - 1][..k] == srcs[..k];
      AllFitPrefix(srcs[..|srcs| - 1], p, k);
    } else {
      assert srcs[..k] == srcs;
    }
  }

  lemma {:induction false} AllFitIntro(srcs: seq<Option<Frame>>, p: Plane)
    requires forall i :: 0 <= i < |srcs| ==> Fits(srcs[i], p)
    ensures AllFit(srcs, p)
    decreases |srcs|
  {
    if srcs != [] {
      AllFitIntro(srcs[..|srcs| - 1], p);
    }
  }

  /** The plane of channel i, given that every channel's frame fits. */
  function ChannelPlane(srcs: seq<Option<Frame>>, p: Plane, i: nat): (r: seq<byte>)
    requires AllFit(srcs, p) && i < |srcs|
    ensures |r| == p.size
  {
    AllFitAt(srcs, p, i);
    PlaneImage(srcs[i], p)
  }

  /** The composite buffer after a snap: the planes of all channels, in order. */
  function CompositeImage(srcs: seq<Option<Frame>>, p: Plane): (r: seq<byte>)
    requires AllFit(srcs, p)
    ensures |r| == Stride(|srcs|, p.size)
    decreases |srcs|
  {
    if srcs == [] then []
    else CompositeImage(srcs[..|srcs| - 1], p) + PlaneImage(srcs[|srcs| - 1], p)
  }

  /** GetImageBuffer(i) points at offset i * planeSize, and the plane found
      there after a snap is exactly channel i's plane image. */
  lemma {:induction false} CompositePlane(srcs: seq<Option<Frame>>, p: Plane, i: nat)
    requires AllFit(srcs, p)
    requires i < |srcs|
    ensures Fits(srcs[i], p)
    ensures Stride(i + 1, p.size) <= |CompositeImage(srcs, p)|
    ensures CompositeImage(srcs, p)[Stride(i, p.size) .. Stride(i + 1, p.size)] == PlaneImage(srcs[i], p)
    decreases |srcs|
  {
    AllFitAt(srcs, p, i);
    var n := |srcs|;
    var pre := srcs[..n - 1];
    var front := CompositeImage(pre, p);
    var last := PlaneImage(srcs[n - 1], p);
    assert CompositeImage(srcs, p) == front + last;
    if i < n - 1 {
      CompositePlane(pre, p, i);
      assert pre[i] == srcs[i];
      SliceOfFront(front, last, Stride(i, p.size), Stride(i + 1, p.size));
    } else {
      SliceOfBack(front, last);
    }
  }

  /** The composite buffer while the plane loop runs: the first i planes
      written, the rest as the buffer held them before. */
  function PartialComposite(s: seq<byte>, srcs: seq<Option<Frame>>, p: Plane, i: nat): (r: seq<byte>)
    requires AllFit(srcs, p) && i <= |srcs| && |s| == Stride(|srcs|, p.size)
    ensures |r| == |s|
  {
    AllFitPrefix(srcs, p, i);
    StrideMonotone(i, |srcs|, p.size);
    assert |srcs[..i]| == i;
    CompositeImage(srcs[..i], p) + s[Stride(i, p.size)..]
  }

  /** One step of the plane loop: writing plane i at offset i * planeSize. */
  lemma CompositeStep(s: seq<byte>, srcs: seq<Option<Frame>>, p: Plane, i: nat, off: nat)
    requires AllFit(srcs, p) && i < |srcs| && |s| == Stride(|srcs|, p.size)
    requires off == Stride(i, p.size)
    ensures Fits(srcs[i], p) && off + p.size <= |s|
    ensures Overwrite(PartialComposite(s, srcs, p, i), off, PlaneImage(srcs[i], p))
         == PartialComposite(s, srcs, p, i + 1)
  {
    hide Overwrite, CompositeImage, PlaneImage;
    CompositeSnoc(srcs, p, i);
    StrideMonotone(i + 1, |srcs|, p.size);
    var done, plane := CompositeImage(srcs[..i], p), PlaneImage(srcs[i], p);
    assert |done| == off;
    OverwriteSplice(done, s[off..], plane);
    assert s[off..][p.size..] == s[off + p.size..];
  }

  /** The composite of the first i + 1 channels extends that of the first i. */
  lemma CompositeSnoc(srcs: seq<Option<Frame>>, p: Plane, i: nat)
    requires AllFit(srcs, p) && i < |srcs|
    ensures AllFit(srcs[..i], p) && AllFit(srcs[..i + 1], p) && Fits(srcs[i], p)
    ensures CompositeImage(srcs[..i + 1], p) == CompositeImage(srcs[..i], p) + PlaneImage(srcs[i], p)
  {
    AllFitAt(srcs, p, i);
    AllFitPrefix(srcs, p, i);
    AllFitPrefix(srcs, p, i + 1);
    assert srcs[..i + 1][..i] == srcs[..i];
  }

  /** The plane-copy loop of SnapImage: every channel's plane is written in
      turn; the result depends only on the frames, not on what the buffer held. */
  method CopyComposite(a: array<byte>, srcs: seq<Option<Frame>>, p: Plane)
    requires AllFit(srcs, p)
    requires a.Length == Stride(|srcs|, p.size)
    modifies a
    ensures a[..] == CompositeImage(srcs, p)
  {
    hide Overwrite, PlaneImage, CompositeImage, PartialComposite;
    CompositeStart(a[..], srcs, p);
    var i, off := 0, 0;
    while i < |srcs|
      invariant i <= |srcs| && off == Stride(i, p.size)
      invariant a[..] == PartialComposite(old(a[..]), srcs, p, i)
    {
      CompositeStep(old(a[..]), srcs, p, i, off);
      CopyChannelPlane(a, off, srcs[i], p);
      i, off := i + 1, off + p.size;
    }
    CompositeDone(old(a[..]), srcs, p);
  }

  /** Before the plane loop nothing is written yet. */
  lemma CompositeStart(s: seq<byte>, srcs: seq<Option<Frame>>, p: Plane)
    requires AllFit(srcs, p) && |s| == Stride(|srcs|, p.size)
    ensures PartialComposite(s, srcs, p, 0) == s
  {
  }

  /** Once every plane is written nothing of the old buffer is left. */
  lemma CompositeDone(s: seq<byte>, srcs: seq<Option<Frame>>, p: Plane)
    requires AllFit(srcs, p) && |s| == Stride(|srcs|, p.size)
    ensures PartialComposite(s, srcs, p, |srcs|) == CompositeImage(srcs, p)
  {
    assert srcs[..|srcs|] == srcs;
  }
}
