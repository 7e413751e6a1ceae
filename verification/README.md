# RawImage — a Dafny model of the OpenFace image handle

`OpenCVWrappers::RawImage` is a managed handle that owns one native OpenCV
matrix (`cv::Mat*`) and exposes it to WPF. This project models three parts of
it:

- **The pixel-format table.** This is a closed, two-way mapping between four
  WPF `PixelFormats` and four OpenCV type codes. Every other value throws, in
  both directions.
- **The ownership lifecycle.** The `mat` pointer is either live or null. The
  finalizer `!RawImage` frees it only when it is non-null, then nulls it. The
  destructor `~RawImage`, which explicit `Dispose` runs, delegates to the
  finalizer.
- **The bitmap-sync guard.** `UpdateWriteableBitmap` writes only when a
  non-null bitmap matches the handle's width, height and format. It then hands
  the bitmap either the matrix's own data or, when the data pointer is null, a
  scratch matrix meant to be all zeros. As written, that scratch matrix has no
  data at all (see "## Findings"). `CreateWriteableBitmap` builds a bitmap that
  passes this guard.

The model is organised in four modules:

- `Outcomes` (`outcomes.dfy`) holds `Result` and `Option`, and the two
  exceptions. The exceptions carry the messages "Unsupported pixel format"
  and "Unsupported image type".
- `PixelFormats` (`pixel_formats.dfy`) holds:
  - every WPF pixel format;
  - the OpenCV type codes, built the way OpenCV packs depth and channel count
    (`CV_8UC1 = 0`, `CV_8UC3 = 16`, `CV_8UC4 = 24`, `CV_32FC1 = 5`);
  - the table, written once as data;
  - the two conversions.
- `RawImages` (`raw_image.dfy`) holds:
  - the matrix record (rows, cols, type code, step, whether data is non-null);
  - the handle `Live(mat) | Released`;
  - the constructors, the release paths, the accessors and `Mirror`.
- `BitmapSync` (`bitmap_sync.dfy`) holds the target bitmap record, the update
  and the create operations.

Matrix emptiness follows OpenCV's `Mat::empty`: the data pointer is null or
the matrix has no elements. `Stride` is `(int) mat->step`. It is modelled as a
truncation of the unsigned pitch to a 32-bit two's-complement int.

Three behaviours of the code shape the model:

- `Width`, `Height`, `Stride` and `Format` dereference `mat` unchecked
  (`OpenCVWrappers.h:150`, `:158`, `:167`, `:175`). So they require a live
  handle, and so do `Mirror`, copy construction and `CreateWriteableBitmap`.
  Among the members that read the matrix, only `IsEmpty` and an update
  against a null bitmap are safe after release. The finalizer and the
  destructor do nothing on a released handle, and the two static format
  conversions never touch `mat`.
- `Format` can throw inside the update's guard. The width and height checks
  run first, so the unsupported-image-type exception escapes only when the
  sizes already agree. The model returns `Failure(UnsupportedImageType)` in
  exactly that case.
- Release deletes the matrix header whichever constructor built the handle.
  There is one release path, shared by the finalizer and the destructor.

## Model

| member | source | states |
|---|---|---|
| PixelFormats.PixelFormatToType | lib/local/CppInterop/OpenCVWrappers.h:78-90 | succeeds exactly on Gray8, Bgr24, Bgra32 and Gray32Float, always with a supported type code; every other format fails with the unsupported-pixel-format error |
| PixelFormats.TypeToPixelFormat | lib/local/CppInterop/OpenCVWrappers.h:92-106 | succeeds exactly on CV_8UC1, CV_8UC3, CV_8UC4 and CV_32FC1, always with a supported format; every other code fails with the unsupported-image-type error |
| PixelFormats.TypeCodesDistinct | lib/local/CppInterop/OpenCVWrappers.h:94-104 | the four type codes are 0, 16, 24 and 5, so they are four distinct switch labels |
| PixelFormats.FormatRoundTrip | lib/local/CppInterop/OpenCVWrappers.h:78-106 | every supported format, converted to a type code and back, returns unchanged |
| PixelFormats.TypeRoundTrip | lib/local/CppInterop/OpenCVWrappers.h:78-106 | every supported type code, converted to a format and back, returns unchanged |
| PixelFormats.ForwardMatchesTable | lib/local/CppInterop/OpenCVWrappers.h:78-90 | the forward conversion maps f to t if and only if (f, t) is an entry of the four-entry table |
| PixelFormats.InverseMatchesTable | lib/local/CppInterop/OpenCVWrappers.h:92-106 | the inverse conversion maps t to f if and only if (f, t) is an entry of the four-entry table |
| PixelFormats.ConversionsInjective | lib/local/CppInterop/OpenCVWrappers.h:78-106 | two formats with the same successful code are the same format, and two codes with the same successful format are the same code |
| PixelFormats.ElemSize | lib/local/CppInterop/OpenCVWrappers.h:201 | the bytes per element of a supported type code are its channel count, read from the bits above the depth, times the depth's size: 4 for 32-bit float, 1 for 8-bit unsigned. The scratch matrix built at this line packs its rows at cols times this size |
| RawImages.NewEmpty | lib/local/CppInterop/OpenCVWrappers.h:71-74 | the default constructor gives a live handle whose matrix has no rows or columns, has type code CV_8UC1, and is empty |
| RawImages.Clone | lib/local/CppInterop/OpenCVWrappers.h:110 | a clone of an empty matrix is a default 0 by 0 CV_8UC1 matrix with no data; a clone of any other matrix keeps its rows, cols and type code and has data; the clone is empty exactly when the source is |
| RawImages.FromMat | lib/local/CppInterop/OpenCVWrappers.h:108-111 | construction from a matrix gives a live handle, empty exactly when the matrix is; from an empty matrix it is the default-constructed handle, otherwise it has the matrix's rows, cols and type code |
| RawImages.FromImage | lib/local/CppInterop/OpenCVWrappers.h:113-116 | copy construction needs a live source and gives a live handle, empty exactly when the source is; from an empty source it is the default handle with format Gray8, otherwise it has the source's width, height and format |
| RawImages.Finalize | lib/local/CppInterop/OpenCVWrappers.h:131-138 | the finalizer always leaves the handle released, and frees a matrix exactly when the pointer was live |
| RawImages.Dispose | lib/local/CppInterop/OpenCVWrappers.h:141-144 | the destructor has exactly the finalizer's effect: it always leaves the handle released, and frees a matrix exactly when the pointer was live |
| RawImages.Run | lib/local/CppInterop/OpenCVWrappers.h:128-144 | any non-empty interleaving of finalizer and dispose calls ends released and frees once if the handle started live, never otherwise; no calls change nothing |
| RawImages.ReleaseIdempotent | lib/local/CppInterop/OpenCVWrappers.h:131-144 | a second release by either path leaves the handle released and frees nothing; the first frees exactly when the handle was live |
| RawImages.ReleaseOrdersConverge | lib/local/CppInterop/OpenCVWrappers.h:131-144 | any two non-empty release sequences give the same final state and the same free count, at most one |
| RawImages.Int32Cast | lib/local/CppInterop/OpenCVWrappers.h:167 | the narrowed pitch lies in the 32-bit signed range, agrees with the unsigned pitch modulo 2^32, and equals it when it is below 2^31 |
| RawImages.Width | lib/local/CppInterop/OpenCVWrappers.h:146-152 | needs a live handle, because the pointer is read unchecked; the column count is never negative |
| RawImages.Height | lib/local/CppInterop/OpenCVWrappers.h:154-160 | needs a live handle, because the pointer is read unchecked; the row count is never negative |
| RawImages.Stride | lib/local/CppInterop/OpenCVWrappers.h:162-169 | needs a live handle; the result is a 32-bit signed value congruent to the matrix pitch modulo 2^32, so equal to the pitch whenever that pitch fits |
| RawImages.Format | lib/local/CppInterop/OpenCVWrappers.h:171-177 | needs a live handle; it succeeds exactly when the type code is supported, and the format it returns converts back to the matrix's own type code |
| RawImages.IsEmpty | lib/local/CppInterop/OpenCVWrappers.h:187-193 | true on a released handle; on a live one, true exactly when the data pointer is null or there are no rows or no columns |
| RawImages.EmptyAfterRelease | lib/local/CppInterop/OpenCVWrappers.h:131-193 | after any non-empty sequence of release calls the handle reports empty |
| RawImages.Mirror | lib/local/CppInterop/OpenCVWrappers.h:123-126 | needs a live handle; it keeps width, height, stride, format and emptiness |
| BitmapSync.UpdateWriteableBitmap | lib/local/CppInterop/OpenCVWrappers.h:195-209 | returns true, and writes, exactly when the bitmap is non-null and matches the handle's width, height and format. Otherwise it returns false and leaves the bitmap untouched, or throws unsupported-image-type when the sizes match but the type code is unsupported. A write covers the handle's width and height, and is always read at the handle's stride. It hands over the matrix data when there is any; otherwise it hands over a scratch matrix with the handle's rows, cols and type code and a packed pitch of cols times the element size. A write carries pixel data exactly when the handle's matrix has data, so that scratch matrix has none |
| BitmapSync.UpdateWriteableBitmapZeroFilled | lib/local/CppInterop/OpenCVWrappers.h:199-206 | the same guard, the same write region and the same scratch matrix geometry, but every write it performs carries pixel data and reads its buffer at that buffer's own pitch: the matrix data at the handle's stride, or a zeroed scratch matrix at its packed pitch. It differs from the as-written update exactly on a passing guard over a handle without data |
| BitmapSync.NullScratchCounterexample | lib/local/CppInterop/OpenCVWrappers.h:200-202 | for a 4 by 2 Bgr24 handle with pitch 16 and a null data pointer, the as-written update passes the guard and hands over a 2 by 4 scratch matrix without data, whose packed pitch of 12 differs from the pitch of 16 it is read at |
| BitmapSync.CreateWriteableBitmap | lib/local/CppInterop/OpenCVWrappers.h:211-214 | succeeds exactly when the type code is supported, and then gives a bitmap that matches the handle's width, height and format |
| BitmapSync.CreateThenUpdate | lib/local/CppInterop/OpenCVWrappers.h:195-214 | updating a bitmap just created from a handle with a supported type code passes the guard and returns true, in both the as-written and the zero-filled update |
| BitmapSync.PaddedBgrScenario | lib/local/CppInterop/OpenCVWrappers.h:195-214 | for a 4 by 2 Bgr24 matrix with a 16-byte pitch: with data, the zero-filled update writes the data at pitch 16; without data, it writes a zeroed 2 by 4 CV_8UC3 matrix at its packed pitch of 12. The update rejects a wrong format, swapped sizes and a null bitmap |
| BitmapSync.ReleasedRejectsNullBitmap | lib/local/CppInterop/OpenCVWrappers.h:197-198 | a released handle asked to update a null bitmap returns false without touching anything |

## Findings

| source | as written | input that shows it | evidently intended | confidence | as-written member | corrected member |
|---|---|---|---|---|---|---|
| lib/local/CppInterop/OpenCVWrappers.h:201 | `cv::Mat zeros(rows, cols, type, 0)`: the literal `0` converts to a null `void*` by a standard conversion, which beats the user-defined conversion to `cv::Scalar`, so the user-data constructor is chosen and `zeros` has a null data pointer | a 4 by 2 Bgr24 handle with a null data pointer and a matching 4 by 2 Bgr24 bitmap. None of the modelled constructors builds such a handle: the default one is 0 by 0, and the copying ones give either data or the default matrix. It arises through the mutable `Mat` property, or through the raw-pointer constructor with a null pointer in an OpenCV build without the non-null data assertion | a zero-filled scratch matrix, so an empty handle renders black | high; not executed | BitmapSync.UpdateWriteableBitmap, BitmapSync.NullScratchCounterexample | BitmapSync.UpdateWriteableBitmapZeroFilled |
| lib/local/CppInterop/OpenCVWrappers.h:202 | the scratch matrix is written with `Stride`, the handle's pitch, although the scratch matrix packs its rows at cols times the element size. This is latent behind the :201 row: as written the scratch buffer is null, so there is nothing to read past. Once the scratch is zero-filled, a padded handle makes the write read past the end of the scratch buffer, and the buffer-size argument `Stride * Height * (BitsPerPixel / 8)` is too large for WPF to notice | the handle of the :201 row, with pitch 16. If `zeros` were zero-filled it would hold 24 bytes at pitch 12, and the write would read row 1 from bytes 16 to 27, over-reading 4 bytes; as written the buffer is null | the scratch matrix written at its own pitch `zeros.step` | high; not executed | BitmapSync.UpdateWriteableBitmap, BitmapSync.NullScratchCounterexample | BitmapSync.UpdateWriteableBitmapZeroFilled |

## Left out

- RawImages.Mirror: the pixel reordering of `cv::flip` is not modelled, because the model does not represent pixel contents. Only the preservation of geometry, pitch, type and emptiness is stated. So is the requirement of a live handle.
- RawImages.Clone: a clone of a non-empty matrix keeps the source's pitch in the model. A real clone lays rows out contiguously, so its pitch can be smaller than the source's. That difference is not modelled. As a consequence, `RawImages.Stride` of a handle built by `RawImages.FromMat` or `RawImages.FromImage` from a padded matrix is the source's pitch in the model; the program gives the packed pitch. For example, a 2 by 4 CV_8UC3 matrix with pitch 16 gives stride 16 here, where the program gives 12.
- RawImages.Width: the contract states only non-negativity and the live-handle requirement; the value is the matrix's column count. Only two-dimensional matrices are modelled: OpenCV reports -1 columns for a matrix of more than two dimensions, which the matrix record cannot represent.
- RawImages.Height: the contract states only non-negativity and the live-handle requirement; the value is the matrix's row count. Only two-dimensional matrices are modelled: OpenCV reports -1 rows for a matrix of more than two dimensions, which the matrix record cannot represent.
- BitmapSync.UpdateWriteableBitmap: in the as-written branch for a handle without data, the model records the null scratch buffer being handed over and returns true. Which library then throws depends on versions outside this model: OpenCV's constructor may assert that the data pointer is non-null, or WPF's pixel write may reject the null buffer.
- The raw-pointer constructor (`OpenCVWrappers.h:118-121`) is not modelled. It aliases caller memory through a pointer, and Dafny cannot state the validity of that pointer.
- `GetGreyImage` (`OpenCVWrappers.h:216-221`) is not modelled. Its only work is a call to `Utilities::ConvertToGrayscale_8bit`, and `ImageManipulationHelpers.h` is not part of this model.
- The `Mat` property (`OpenCVWrappers.h:179-185`) is not modelled. It returns a mutable reference to the handle's own matrix. Through that alias a caller can reshape, reallocate or release the matrix in place, outside every operation modelled here. The model's matrix is a value and cannot express that aliasing.
- The byte copy in `WriteableBitmap::WritePixels` is not modelled. Neither are its `Int32Rect`, the DPI values, or the buffer-size argument `Stride * Height * (BitsPerPixel / 8)`. All of these are arguments of a call into WPF, and the model records only which buffer is passed, the region's size and the stride.
- Bits per pixel of each format is not modelled. Only the buffer-size argument above uses it.
- BitmapSync.CreateWriteableBitmap: the WPF `WriteableBitmap` constructor's own failure cases are not modelled, so the contract's "succeeds exactly when the type code is supported" ignores them. An example is a zero-sized bitmap, as a default-constructed 0 by 0 handle would request. These failures belong to WPF.
- Garbage-collector scheduling of the finalizer and threading are not modelled. They are runtime behaviour. The model treats any sequence of finalizer and dispose calls on one handle as possible.
- Pixel values of Gray32Float are not modelled. The format is only an enum tag, and no floating-point reasoning is done.
