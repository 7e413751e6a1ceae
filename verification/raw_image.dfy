/**
  The `RawImage` handle: a managed object holding a pointer to one native
  matrix. The pointer is either live or null; the finalizer frees it once and
  nulls it, and the destructor (explicit dispose) calls the finalizer.
 */
module RawImages {
  import opened Outcomes
  import opened PixelFormats

  /**
    The native matrix, reduced to what the wrapper reads from it: row and
    column counts, the type code, the row pitch in bytes, and whether its data
    pointer is non-null. The pixel payload itself is not represented.
   */
  datatype Mat = Mat(rows: nat, cols: nat, typ: int, step: nat, hasData: bool) {

    /** A matrix is empty when its data pointer is null or it has no elements. */
    predicate Empty() {
      !hasData || rows * cols == 0
    }
  }

  /** A default-constructed matrix: no rows, no columns, one 8-bit channel, no data. */
  const EmptyMat: Mat := Mat(0, 0, CV_8UC1, 0, false)

  /** The handle: the `mat` pointer is live, or it has been freed and set to null. */
  datatype RawImage = Live(mat: Mat) | Released

  /** What one release call did: the resulting handle, and whether it freed a matrix. */
  datatype Step = Step(after: RawImage, freed: bool)

  // ---------------------------------------------------------------- construction

  /** The private default constructor: a handle owning a fresh empty matrix. */
  function NewEmpty(): (r: RawImage)
    ensures r.Live? && r.mat.Empty()
    ensures r.mat.rows == 0 && r.mat.cols == 0 && r.mat.typ == CV_8UC1
  {
    Live(EmptyMat)
  }

  /**
    A deep copy of a matrix. Copying an empty matrix only releases the fresh
    destination, so the copy is a default-constructed matrix whatever the
    source's size and type were. Otherwise the copy has the source's size,
    type and its own data. Copies are values here, so the copy shares nothing
    with its source and later changes to either leave the other alone.
   */
  function Clone(m: Mat): (r: Mat)
    ensures m.Empty() ==> r == EmptyMat
    ensures !m.Empty() ==> r.rows == m.rows && r.cols == m.cols && r.typ == m.typ && r.hasData
    ensures r.Empty() <==> m.Empty()
  {
    if m.Empty() then EmptyMat else m
  }

  /** Construction from a native matrix: the handle owns a clone of it. */
  function FromMat(m: Mat): (r: RawImage)
    ensures r.Live?
    ensures r.mat.Empty() <==> m.Empty()
    ensures m.Empty() ==> r == NewEmpty()
    ensures !m.Empty() ==> r.mat.rows == m.rows && r.mat.cols == m.cols && r.mat.typ == m.typ
  {
    Live(Clone(m))
  }

  /** Copy construction: reads the source's matrix, so the source must be live. */
  function FromImage(img: RawImage): (r: RawImage)
    requires img.Live?
    ensures r.Live?
    ensures IsEmpty(r) <==> IsEmpty(img)
    ensures IsEmpty(img) ==> r == NewEmpty() && Format(r) == Success(Gray8)
    ensures !IsEmpty(img) ==>
      Width(r) == Width(img) && Height(r) == Height(img) && Format(r) == Format(img)
  {
    Live(Clone(img.mat))
  }

  // ------------------------------------------------------------------ lifecycle

  /** The finalizer: frees and nulls the pointer when it is non-null, otherwise does nothing. */
  function Finalize(h: RawImage): (r: Step)
    ensures r.after == Released
    ensures r.freed <==> h.Live?
  {
    if h.Live? then Step(Released, true) else Step(Released, false)
  }

  /** The destructor, run by explicit dispose: delegates to the finalizer. */
  function Dispose(h: RawImage): (r: Step)
    ensures r == Finalize(h)
    ensures r.after == Released && (r.freed <==> h.Live?)
  {
    Finalize(h)
  }

  /** The two release paths the runtime and the owner can take. */
  datatype Call = FinalizeCall | DisposeCall

  function Apply(h: RawImage, c: Call): Step {
    match c
    case FinalizeCall => Finalize(h)
    case DisposeCall => Dispose(h)
  }

  /** The state after a sequence of release calls, and how many matrices they freed. */
  datatype Trace = Trace(final: RawImage, frees: nat)

  /**
    Runs any interleaving of finalizer and dispose calls. Whatever the order
    and however many calls, a non-empty run ends released and frees the
    matrix at most once: once if the handle started live, never otherwise.
   */
  function Run(h: RawImage, calls: seq<Call>): (r: Trace)
    ensures |calls| == 0 ==> r == Trace(h, 0)
    ensures |calls| > 0 ==> r.final == Released
    ensures |calls| > 0 ==> r.frees == (if h.Live? then 1 else 0)
    decreases |calls|
  {
    if |calls| == 0 then Trace(h, 0)
    else
      var s := Apply(h, calls[0]);
      var rest := Run(s.after, calls[1..]);
      Trace(rest.final, rest.frees + (if s.freed then 1 else 0))
  }

  /** A second release, by either path, changes nothing and frees nothing. */
  lemma ReleaseIdempotent(h: RawImage, c1: Call, c2: Call)
    ensures Apply(Apply(h, c1).after, c2) == Step(Released, false)
    ensures Apply(h, c1).freed <==> h.Live?
  {
  }

  /**
    Any two non-empty interleavings of the release paths converge: same final
    state, same number of frees.
   */
  lemma ReleaseOrdersConverge(h: RawImage, a: seq<Call>, b: seq<Call>)
    requires |a| > 0 && |b| > 0
    ensures Run(h, a) == Run(h, b)
    ensures Run(h, a).frees <= 1
  {
  }

  // ------------------------------------------------------------------ accessors

  /**
    The `(int)` cast of the unsigned row pitch: the low 32 bits read as a
    two's-complement number.
   */
  function Int32Cast(n: nat): (r: int)
    ensures -0x8000_0000 <= r < 0x8000_0000
    ensures (r - n) % 0x1_0000_0000 == 0
    ensures n < 0x8000_0000 ==> r == n
  {
    var low := n % 0x1_0000_0000;
    if low < 0x8000_0000 then low else low - 0x1_0000_0000
  }

  /** Column count. The accessor dereferences the pointer unchecked. */
  function Width(h: RawImage): (r: int)
    requires h.Live?
    ensures r >= 0
  {
    h.mat.cols
  }

  /** Row count. The accessor dereferences the pointer unchecked. */
  function Height(h: RawImage): (r: int)
    requires h.Live?
    ensures r >= 0
  {
    h.mat.rows
  }

  /** Row pitch in bytes, narrowed to a 32-bit int. */
  function Stride(h: RawImage): (r: int)
    requires h.Live?
    ensures h.mat.step < 0x8000_0000 ==> r == h.mat.step
    ensures -0x8000_0000 <= r < 0x8000_0000
    ensures (r - h.mat.step) % 0x1_0000_0000 == 0
  {
    Int32Cast(h.mat.step)
  }

  /** The host format of the matrix's type code; throws for a code outside the table. */
  function Format(h: RawImage): (r: Result<PixelFormat>)
    requires h.Live?
    ensures r.Success? <==> SupportedType(h.mat.typ)
    ensures r.Success? ==> PixelFormatToType(r.value) == Success(h.mat.typ)
    ensures r.Failure? ==> r.error == UnsupportedImageType
  {
    TypeRoundTripFor(h.mat.typ);
    TypeToPixelFormat(h.mat.typ)
  }

  lemma TypeRoundTripFor(t: int)
    ensures TypeToPixelFormat(t).Success? ==> PixelFormatToType(TypeToPixelFormat(t).value) == Success(t)
  {
    if SupportedType(t) {
      TypeRoundTrip(t);
    }
  }

  /** Safe on a released handle: true when the pointer is null or the matrix is empty. */
  function IsEmpty(h: RawImage): (r: bool)
    ensures h.Released? ==> r
    ensures h.Live? ==> (r <==> !h.mat.hasData || h.mat.rows == 0 || h.mat.cols == 0)
  {
    h.Released? || h.mat.Empty()
  }

  /** Every non-empty run of release calls leaves a handle that reports empty. */
  lemma EmptyAfterRelease(h: RawImage, calls: seq<Call>)
    requires |calls| > 0
    ensures IsEmpty(Run(h, calls).final)
  {
  }

  // --------------------------------------------------------------------- mirror

  /**
    In-place horizontal flip. Only its effect on what the model records is
    stated: geometry, pitch, type and data presence stay as they were.
   */
  function Mirror(h: RawImage): (r: RawImage)
    requires h.Live?
    ensures r.Live?
    ensures Width(r) == Width(h) && Height(r) == Height(h) && Stride(r) == Stride(h)
    ensures Format(r) == Format(h) && IsEmpty(r) == IsEmpty(h)
  {
    Live(h.mat)
  }
}
