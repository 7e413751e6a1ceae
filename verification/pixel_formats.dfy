/**
  The two pixel-format vocabularies `RawImage` translates between: the host
  toolkit's `PixelFormats` values and the native matrix type codes, plus the
  closed four-entry table that relates them.
 */
module PixelFormats {
  import opened Outcomes

  /** Every value of the host toolkit's `PixelFormats` class. */
  datatype PixelFormat =
    | Default | Indexed1 | Indexed2 | Indexed4 | Indexed8 | BlackWhite
    | Gray2 | Gray4 | Gray8 | Gray16 | Gray32Float
    | Bgr555 | Bgr565 | Bgr24 | Rgb24 | Bgr101010 | Bgr32 | Bgra32 | Pbgra32
    | Rgb48 | Rgba64 | Prgba64 | Rgb128Float | Rgba128Float | Prgba128Float
    | Cmyk32

  // Native type codes pack the element depth in the low three bits and
  // (channels - 1) above them.
  const CV_8U: int := 0
  const CV_32F: int := 5

  function MakeType(depth: int, channels: nat): int
    requires 1 <= channels
  {
    depth + (channels - 1) * 8
  }

  const CV_8UC1: int := MakeType(CV_8U, 1)
  const CV_8UC3: int := MakeType(CV_8U, 3)
  const CV_8UC4: int := MakeType(CV_8U, 4)
  const CV_32FC1: int := MakeType(CV_32F, 1)

  /** The formats the wrapper supports. */
  predicate SupportedFormat(f: PixelFormat) {
    f == Gray8 || f == Bgr24 || f == Bgra32 || f == Gray32Float
  }

  /** The type codes the wrapper supports. */
  predicate SupportedType(t: int) {
    t == CV_8UC1 || t == CV_8UC3 || t == CV_8UC4 || t == CV_32FC1
  }

  /**
    The format table written once as data, independently of the two
    conversion functions: the i-th entry pairs a host format with a type code.
   */
  const Table: seq<(PixelFormat, int)> :=
    [(Gray8, CV_8UC1), (Bgr24, CV_8UC3), (Bgra32, CV_8UC4), (Gray32Float, CV_32FC1)]

  /** Host format to native type code; every other format throws. */
  function PixelFormatToType(fmt: PixelFormat): (r: Result<int>)
    ensures r.Success? <==> SupportedFormat(fmt)
    ensures r.Failure? ==> r.error == UnsupportedPixelFormat
    ensures r.Success? ==> SupportedType(r.value)
  {
    if fmt == Gray8 then Success(CV_8UC1)
    else if fmt == Bgr24 then Success(CV_8UC3)
    else if fmt == Bgra32 then Success(CV_8UC4)
    else if fmt == Gray32Float then Success(CV_32FC1)
    else Failure(UnsupportedPixelFormat)
  }

  /** Native type code to host format; every other code throws. */
  function TypeToPixelFormat(t: int): (r: Result<PixelFormat>)
    ensures r.Success? <==> SupportedType(t)
    ensures r.Failure? ==> r.error == UnsupportedImageType
    ensures r.Success? ==> SupportedFormat(r.value)
  {
    if t == CV_8UC1 then Success(Gray8)
    else if t == CV_8UC3 then Success(Bgr24)
    else if t == CV_8UC4 then Success(Bgra32)
    else if t == CV_32FC1 then Success(Gray32Float)
    else Failure(UnsupportedImageType)
  }

  /**
    Bytes per element of a supported type code: channels times the size of
    one channel. A freshly allocated matrix packs its rows, so its pitch is
    its column count times this size.
   */
  function ElemSize(t: int): (r: nat)
    requires SupportedType(t)
    ensures r == (t / 8 + 1) * (if t % 8 == CV_32F then 4 else 1)
  {
    if t == CV_8UC1 then 1 else if t == CV_8UC3 then 3 else 4
  }

  /** The four codes are 0, 16, 24 and 5: four different switch labels. */
  lemma TypeCodesDistinct()
    ensures CV_8UC1 == 0 && CV_8UC3 == 16 && CV_8UC4 == 24 && CV_32FC1 == 5
  {
  }

  /** Host format first, then back: every supported format returns unchanged. */
  lemma FormatRoundTrip(f: PixelFormat)
    requires SupportedFormat(f)
    ensures PixelFormatToType(f).Success?
    ensures TypeToPixelFormat(PixelFormatToType(f).value) == Success(f)
  {
  }

  /** Type code first, then back: every supported code returns unchanged. */
  lemma TypeRoundTrip(t: int)
    requires SupportedType(t)
    ensures TypeToPixelFormat(t).Success?
    ensures PixelFormatToType(TypeToPixelFormat(t).value) == Success(t)
  {
  }

  /** The forward conversion agrees with the table, in both directions. */
  lemma ForwardMatchesTable(f: PixelFormat, t: int)
    ensures PixelFormatToType(f) == Success(t) <==> (f, t) in Table
  {
  }

  /** The inverse conversion agrees with the table, in both directions. */
  lemma InverseMatchesTable(f: PixelFormat, t: int)
    ensures TypeToPixelFormat(t) == Success(f) <==> (f, t) in Table
  {
  }

  /** Distinct supported formats map to distinct codes, and vice versa. */
  lemma ConversionsInjective(f1: PixelFormat, f2: PixelFormat, t1: int, t2: int)
    ensures PixelFormatToType(f1).Success? && PixelFormatToType(f1) == PixelFormatToType(f2) ==> f1 == f2
    ensures TypeToPixelFormat(t1).Success? && TypeToPixelFormat(t1) == TypeToPixelFormat(t2) ==> t1 == t2
  {
  }
}
