/**
  Pushing a handle's pixels into a host writeable bitmap. Whether anything is
  written is decided by a guard over the bitmap's size and format; the byte
  copy itself belongs to the host toolkit and is reduced to which buffer was
  handed over, for which region, at which pitch.
 */
module BitmapSync {
  import opened Outcomes
  import opened PixelFormats
  import opened RawImages

  /** A host writeable bitmap, as far as the wrapper looks at it. */
  datatype Bitmap = Bitmap(pixelWidth: int, pixelHeight: int, format: PixelFormat)

  /** The buffer handed to the bitmap's pixel write. */
  datatype Source =
    | Scratch(rows: int, cols: int, typ: int, step: int, hasData: bool)   // the local `zeros` matrix
    | MatData                                                             // the handle's own matrix data

  /** What happened to the target bitmap. */
  datatype Write =
    | Untouched
    | Written(source: Source, width: int, height: int, stride: int)

  /** What `UpdateWriteableBitmap` returns, together with its effect on the bitmap. */
  datatype Sync = Sync(returned: bool, write: Write)

  /** The bitmap matches the handle in width, height and format. */
  predicate Matches(h: RawImage, b: Bitmap)
    requires h.Live?
  {
    b.pixelWidth == Width(h) && b.pixelHeight == Height(h) && Format(h) == Success(b.format)
  }

  /** The write carries pixels: the scratch matrix, or the handle's matrix, has a data pointer. */
  predicate CarriesData(h: RawImage, w: Write)
    requires w.Written? ==> h.Live?
  {
    w.Written? ==> if w.source.MatData? then h.mat.hasData else w.source.hasData
  }

  /**
    The write reads its buffer at that buffer's own pitch: the handle's stride
    for the matrix data, the scratch matrix's packed pitch for the scratch.
   */
  predicate PitchMatches(h: RawImage, w: Write)
    requires w.Written? ==> h.Live?
  {
    w.Written? ==> w.stride == if w.source.MatData? then Stride(h) else w.source.step
  }

  /**
    What the guard decides, shared by both forms of the update below. The null
    check, the width check and the height check short-circuit before the
    format is read, so a null bitmap is rejected even after release, and the
    unsupported-type exception of the format escapes only once the sizes
    agree. A passing guard returns true and writes the handle's width and
    height, from the matrix data at the handle's stride when there is any, and
    otherwise from a packed scratch matrix of the bitmap's size and the
    handle's type.
   */
  ghost predicate FollowsGuard(h: RawImage, bitmap: Option<Bitmap>, r: Result<Sync>)
    requires bitmap.Some? ==> h.Live?
  {
    && (r.Failure? <==>
         bitmap.Some? && bitmap.value.pixelWidth == Width(h) && bitmap.value.pixelHeight == Height(h)
         && !SupportedType(h.mat.typ))
    && (r.Failure? ==> r.error == UnsupportedImageType)
    && (r.Success? ==> (r.value.returned <==> bitmap.Some? && Matches(h, bitmap.value)))
    && (r.Success? ==> (r.value.returned <==> r.value.write.Written?))
    && (r.Success? && r.value.write.Written? ==>
         && r.value.write.width == Width(h) && r.value.write.height == Height(h)
         && (r.value.write.source.MatData? <==> h.mat.hasData)
         && (r.value.write.source.MatData? ==> r.value.write.stride == Stride(h))
         && (r.value.write.source.Scratch? ==>
               && r.value.write.source.rows == h.mat.rows && r.value.write.source.cols == h.mat.cols
               && r.value.write.source.typ == h.mat.typ
               && r.value.write.source.step == h.mat.cols * ElemSize(h.mat.typ)))
  }

  /**
    The update with the scratch matrix built as the caller asks: `zeroFill`
    tells whether that matrix gets its own zeroed data and is written at its
    own pitch, rather than having no data and being written at the handle's
    stride.
   */
  function UpdateWith(h: RawImage, bitmap: Option<Bitmap>, zeroFill: bool): Result<Sync>
    requires bitmap.Some? ==> h.Live?
  {
    if bitmap.None? then Success(Sync(false, Untouched))
    else
      var b := bitmap.value;
      if b.pixelWidth != Width(h) || b.pixelHeight != Height(h) then Success(Sync(false, Untouched))
      else
        var fmt :- Format(h);
        if b.format != fmt then Success(Sync(false, Untouched))
        else if !h.mat.hasData then
          // `b.format` equals the format just read from a supported type
          // code, so this conversion cannot fail.
          match PixelFormatToType(b.format)
          case Failure(e) => Failure(e)
          case Success(t) =>
            var zeros := Scratch(b.pixelHeight, b.pixelWidth, t, b.pixelWidth * ElemSize(t), zeroFill);
            Success(Sync(true, Written(zeros, Width(h), Height(h), if zeroFill then zeros.step else Stride(h))))
        else Success(Sync(true, Written(MatData, Width(h), Height(h), Stride(h))))
  }

  /**
    The update as the code is written. Its scratch matrix is built with a
    literal `0` as fourth argument, which selects the matrix constructor taking
    a user data pointer rather than the one taking a fill value: the scratch
    matrix has no data, so a handle without data hands over a null buffer. That
    buffer is then read at the handle's stride, not at its own packed pitch.
   */
  function UpdateWriteableBitmap(h: RawImage, bitmap: Option<Bitmap>): (r: Result<Sync>)
    requires bitmap.Some? ==> h.Live?
    ensures FollowsGuard(h, bitmap, r)
    ensures r.Success? && r.value.write.Written? ==> (CarriesData(h, r.value.write) <==> h.mat.hasData)
    ensures r.Success? && r.value.write.Written? ==> r.value.write.stride == Stride(h)
  {
    UpdateWith(h, bitmap, false)
  }

  /**
    The update as evidently intended: the scratch matrix is filled with zeros,
    so a handle without data renders black, and it is read at its own packed
    pitch. Every write it performs carries pixel data and reads its buffer at
    that buffer's pitch.
   */
  function UpdateWriteableBitmapZeroFilled(h: RawImage, bitmap: Option<Bitmap>): (r: Result<Sync>)
    requires bitmap.Some? ==> h.Live?
    ensures FollowsGuard(h, bitmap, r)
    ensures r.Success? ==> CarriesData(h, r.value.write)
    ensures r.Success? ==> PitchMatches(h, r.value.write)
    ensures r == UpdateWriteableBitmap(h, bitmap) <==> !(bitmap.Some? && h.Live? && !h.mat.hasData && r.Success? && r.value.returned)
  {
    UpdateWith(h, bitmap, true)
  }

  /**
    The as-written update on a 4 by 2 three-channel handle whose data pointer
    is null: the guard passes, and the buffer handed to the bitmap is a 2 by 4
    matrix with no data although it has eight pixels, and it is read at the
    handle's pitch of 16 although its own packed pitch is 12.
   */
  lemma NullScratchCounterexample()
    ensures var h := Live(Mat(2, 4, CV_8UC3, 16, false));
      && UpdateWriteableBitmap(h, Some(Bitmap(4, 2, Bgr24)))
         == Success(Sync(true, Written(Scratch(2, 4, CV_8UC3, 12, false), 4, 2, 16)))
      && !CarriesData(h, UpdateWriteableBitmap(h, Some(Bitmap(4, 2, Bgr24))).value.write)
      && !PitchMatches(h, UpdateWriteableBitmap(h, Some(Bitmap(4, 2, Bgr24))).value.write)
  {
  }

  /** A new bitmap with the handle's size and format; throws when the format does. */
  function CreateWriteableBitmap(h: RawImage): (r: Result<Bitmap>)
    requires h.Live?
    ensures r.Success? <==> SupportedType(h.mat.typ)
    ensures r.Failure? ==> r.error == UnsupportedImageType
    ensures r.Success? ==> Matches(h, r.value)
  {
    var fmt :- Format(h);
    Success(Bitmap(Width(h), Height(h), fmt))
  }

  /** A freshly created bitmap is accepted by the very next update. */
  lemma CreateThenUpdate(h: RawImage)
    requires h.Live? && SupportedType(h.mat.typ)
    ensures CreateWriteableBitmap(h).Success?
    ensures UpdateWriteableBitmap(h, Some(CreateWriteableBitmap(h).value)).Success?
    ensures UpdateWriteableBitmap(h, Some(CreateWriteableBitmap(h).value)).value.returned
    ensures UpdateWriteableBitmapZeroFilled(h, Some(CreateWriteableBitmap(h).value)).Success?
    ensures UpdateWriteableBitmapZeroFilled(h, Some(CreateWriteableBitmap(h).value)).value.returned
  {
  }

  /**
    A 4 by 2 three-channel image with a 16-byte pitch: with data, the update
    hands over the matrix's own rows at that pitch; with a null data pointer,
    the zero-filled update hands over a zeroed matrix of the same size and type
    instead, read at its own packed pitch of 12.
   */
  lemma PaddedBgrScenario(hasData: bool)
    ensures var h := Live(Mat(2, 4, CV_8UC3, 16, hasData));
      && CreateWriteableBitmap(h) == Success(Bitmap(4, 2, Bgr24))
      && UpdateWriteableBitmapZeroFilled(h, Some(Bitmap(4, 2, Bgr24))) ==
         Success(Sync(true, if hasData then Written(MatData, 4, 2, 16)
                            else Written(Scratch(2, 4, CV_8UC3, 12, true), 4, 2, 12)))
      && UpdateWriteableBitmap(h, Some(Bitmap(4, 2, Bgra32))) == Success(Sync(false, Untouched))
      && UpdateWriteableBitmap(h, Some(Bitmap(2, 4, Bgr24))) == Success(Sync(false, Untouched))
      && UpdateWriteableBitmap(h, None) == Success(Sync(false, Untouched))
  {
  }

  /** After release only the null-bitmap call is allowed, and it reports failure. */
  lemma ReleasedRejectsNullBitmap()
    ensures UpdateWriteableBitmap(Released, None) == Success(Sync(false, Untouched))
  {
  }
}
