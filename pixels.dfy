/**
 * The pure parts of a raster band's pixel reader/writer: the resampling option parser and the
 * arithmetic that turns a strided buffer window into the smallest typed-array length that holds it.
 *
 * Indices are unbounded integers; the source computes them in 32-bit `int` (see README).
 */
module RasterBandPixels {
  import opened Wrappers

  // ---------------------------------------------------------------------------------------------
  // Resampling algorithm option
  // ---------------------------------------------------------------------------------------------

  /** The resampling algorithms the option parser can name. */
  datatype ResampleAlg =
    | NearestNeighbour | Bilinear | Cubic | CubicSpline | Lanczos | Average | Mode | Gauss

  /** The JavaScript value passed at the `resampling` argument position, as the parser sees it. */
  datatype JsValue = Undefined | Null | Str(s: string) | OtherValue

  const NotAStringError: string := "resampling property must be a string"
  const InvalidAlgorithmError: string := "Invalid resampling algorithm"

  /** The canonical spelling of each algorithm (the British spelling for nearest neighbour). */
  function AlgName(a: ResampleAlg): string
  {
    match a
    case NearestNeighbour => "NearestNeighbour"
    case Bilinear => "Bilinear"
    case Cubic => "Cubic"
    case CubicSpline => "CubicSpline"
    case Lanczos => "Lanczos"
    case Average => "Average"
    case Mode => "Mode"
    case Gauss => "Gauss"
  }

  /** The name table: both spellings of nearest neighbour, then one name per algorithm. */
  function AlgByName(name: string): (r: Option<ResampleAlg>)
    ensures r.Some? ==> name == AlgName(r.value) || (name == "NearestNeighbor" && r.value == NearestNeighbour)
    ensures r.None? ==> name != "NearestNeighbor" && forall a :: name != AlgName(a)
  {
    if name == "NearestNeighbor" then Some(NearestNeighbour)
    else if name == "NearestNeighbour" then Some(NearestNeighbour)
    else if name == "Bilinear" then Some(Bilinear)
    else if name == "Cubic" then Some(Cubic)
    else if name == "CubicSpline" then Some(CubicSpline)
    else if name == "Lanczos" then Some(Lanczos)
    else if name == "Average" then Some(Average)
    else if name == "Mode" then Some(Mode)
    else if name == "Gauss" then Some(Gauss)
    else None
  }

  /**
   * The name the parser compares: the string as a C string, that is, everything before its
   * first NUL character.
   */
  function CName(s: string): (r: string)
    ensures |r| <= |s| && r == s[..|r|]
    ensures '\0' !in r
    ensures |r| < |s| ==> s[|r|] == '\0'
  {
    if s == [] || s[0] == '\0' then [] else [s[0]] + CName(s[1..])
  }

  /** A NUL ends the name: whatever follows it is never looked at. */
  lemma {:induction false} CNameStopsAtNul(name: string, rest: string)
    requires '\0' !in name
    ensures CName(name + ['\0'] + rest) == name
  {
    if name != [] {
      assert (name + ['\0'] + rest)[1..] == name[1..] + ['\0'] + rest;
      CNameStopsAtNul(name[1..], rest);
    }
  }

  /**
   * The parser as written: the "no value" test checks `IsNull()` twice, so an undefined value
   * falls through to the string test and is rejected.
   */
  function ParseResamplingAlgAsWritten(v: JsValue): (r: Result<ResampleAlg>)
    ensures v.Null? ==> r == Ok(NearestNeighbour)
    ensures v.Undefined? || v.OtherValue? ==> r == Err(NotAStringError)
    ensures v.Str? ==> r == ParseResamplingAlg(v)
  {
    if v.Null? then Ok(NearestNeighbour)
    else if !v.Str? then Err(NotAStringError)
    else match AlgByName(CName(v.s))
      case Some(a) => Ok(a)
      case None => Err(InvalidAlgorithmError)
  }

  /**
   * The parser as intended: a missing value (undefined or null) selects nearest neighbour,
   * a non-string is rejected, and a string's name up to its first NUL is looked up in the
   * name table.
   */
  function ParseResamplingAlg(v: JsValue): (r: Result<ResampleAlg>)
    ensures v.Null? || v.Undefined? ==> r == Ok(NearestNeighbour)
    ensures v.OtherValue? ==> r == Err(NotAStringError)
    ensures v.Str? && r.Ok? ==>
      CName(v.s) == AlgName(r.value) || (CName(v.s) == "NearestNeighbor" && r.value == NearestNeighbour)
    ensures v.Str? && r.Err? ==>
      r.error == InvalidAlgorithmError && CName(v.s) != "NearestNeighbor" && forall a :: CName(v.s) != AlgName(a)
  {
    if v.Null? || v.Undefined? then Ok(NearestNeighbour)
    else if !v.Str? then Err(NotAStringError)
    else match AlgByName(CName(v.s))
      case Some(a) => Ok(a)
      case None => Err(InvalidAlgorithmError)
  }

  /** Every algorithm is selected by its own name, and nearest neighbour by either spelling. */
  lemma ParseNameRoundTrip(a: ResampleAlg)
    ensures ParseResamplingAlg(Str(AlgName(a))) == Ok(a)
    ensures ParseResamplingAlg(Str("NearestNeighbor")) == Ok(NearestNeighbour)
  {
    NameLookup(a);
    NameWithoutNul(a);
    CNameWhole(AlgName(a));
    CNameWhole("NearestNeighbor");
  }

  lemma NameLookup(a: ResampleAlg)
    ensures AlgByName(AlgName(a)) == Some(a)
  {
    match a
    case NearestNeighbour => case Bilinear => case Cubic => case CubicSpline =>
    case Lanczos => case Average => case Mode => case Gauss =>
  }

  /** Whatever follows a NUL after an algorithm's name does not change the choice. */
  lemma ParseNameIgnoresTail(a: ResampleAlg, rest: string)
    ensures ParseResamplingAlg(Str(AlgName(a) + ['\0'] + rest)) == Ok(a)
  {
    NameWithoutNul(a);
    CNameStopsAtNul(AlgName(a), rest);
    CNameWhole(AlgName(a));
    ParseNameRoundTrip(a);
  }

  lemma NameWithoutNul(a: ResampleAlg)
    ensures '\0' !in AlgName(a)
  {
    match a
    case NearestNeighbour => case Bilinear => case Cubic => case CubicSpline =>
    case Lanczos => case Average => case Mode => case Gauss =>
  }

  /** A string without NUL is its own C string. */
  lemma {:induction false} CNameWhole(s: string)
    requires '\0' !in s
    ensures CName(s) == s
  {
    if s != [] {
      CNameWhole(s[1..]);
    }
  }

  /** The two parsers differ exactly on an undefined value. */
  lemma UndefinedResamplingRejected(v: JsValue)
    ensures ParseResamplingAlgAsWritten(Undefined) == Err(NotAStringError)
    ensures ParseResamplingAlg(Undefined) == Ok(NearestNeighbour)
    ensures v != Undefined ==> ParseResamplingAlgAsWritten(v) == ParseResamplingAlg(v)
  {
  }

  // ---------------------------------------------------------------------------------------------
  // Strided window arithmetic
  // ---------------------------------------------------------------------------------------------

  /** The buffer index of pixel (x, y) of a window with pixel spacing `px` and line spacing `ln`. */
  function ElementIndex(offset: int, px: int, ln: int, x: int, y: int): int
  {
    offset + (x * px + y * ln)
  }

  /**
   * The lowest index a `w` x `h` window touches: the corner chosen by the signs of the spacings,
   * so the index of an actual pixel of any window of at least one pixel.
   */
  function FindLowest(w: int, h: int, px: int, ln: int, offset: int): (r: int)
    ensures w >= 1 && h >= 1 ==>
      exists x, y :: 0 <= x < w && 0 <= y < h && ElementIndex(offset, px, ln, x, y) == r
  {
    var x := if px < 0 then w - 1 else 0;
    var y := if ln < 0 then h - 1 else 0;
    assert ElementIndex(offset, px, ln, x, y) == offset + (x * px + y * ln);
    offset + (x * px + y * ln)
  }

  /** The highest index a `w` x `h` window touches: the opposite corner, also an actual pixel. */
  function FindHighest(w: int, h: int, px: int, ln: int, offset: int): (r: int)
    ensures w >= 1 && h >= 1 ==>
      exists x, y :: 0 <= x < w && 0 <= y < h && ElementIndex(offset, px, ln, x, y) == r
  {
    var x := if px < 0 then 0 else w - 1;
    var y := if ln < 0 then 0 else h - 1;
    assert ElementIndex(offset, px, ln, x, y) == offset + (x * px + y * ln);
    offset + (x * px + y * ln)
  }

  lemma MulLeq(a: int, b: int, c: int)
    requires a <= b && c >= 0
    ensures a * c <= b * c
  {
    assert b * c - a * c == (b - a) * c;
  }

  lemma MulGeq(a: int, b: int, c: int)
    requires a <= b && c <= 0
    ensures a * c >= b * c
  {
    assert a * c - b * c == (b - a) * (-c);
  }

  /** One coordinate's contribution lies between the two corner choices. */
  lemma AxisBounds(n: int, s: int, x: int)
    requires 0 <= x < n
    ensures (if s < 0 then n - 1 else 0) * s <= x * s <= (if s < 0 then 0 else n - 1) * s
  {
    if s < 0 {
      MulGeq(x, n - 1, s);
      MulGeq(0, x, s);
    } else {
      MulLeq(0, x, s);
      MulLeq(x, n - 1, s);
    }
  }

  /** Every pixel of the window has an index between FindLowest and FindHighest. */
  lemma WindowBounds(w: int, h: int, px: int, ln: int, offset: int, x: int, y: int)
    requires 0 <= x < w && 0 <= y < h
    ensures FindLowest(w, h, px, ln, offset) <= ElementIndex(offset, px, ln, x, y) <= FindHighest(w, h, px, ln, offset)
  {
    AxisBounds(w, px, x);
    AxisBounds(h, ln, y);
  }

  // ---------------------------------------------------------------------------------------------
  // Typed-array length
  // ---------------------------------------------------------------------------------------------

  /** C++ integer division, which truncates toward zero (Dafny's `/` is Euclidean). */
  function CDiv(a: int, b: int): (q: int)
    requires b > 0
    ensures a >= 0 ==> q >= 0 && q * b <= a < (q + 1) * b
    ensures a < 0 ==> q <= 0 && (q - 1) * b < a <= q * b
  {
    if a >= 0 then
      DivFloor(a, b);
      a / b
    else
      var q := (-a) / b;
      DivFloor(-a, b);
      assert (-q) * b == -(q * b);
      -q
  }

  /** Euclidean division of a non-negative `n` by a positive `b`, bounded by multiples of `b`. */
  lemma DivFloor(n: int, b: int)
    requires n >= 0 && b > 0
    ensures n / b >= 0 && (n / b) * b <= n < (n / b) * b + b
  {
    var q, r := n / b, n % b;
    assert n == q * b + r;
  }

  /** C++ `%`, whose result takes the sign of the dividend. */
  function CMod(a: int, b: int): (m: int)
    requires b > 0
    ensures a == CDiv(a, b) * b + m
    ensures a >= 0 ==> 0 <= m < b
    ensures a < 0 ==> -b < m <= 0
  {
    a - b * CDiv(a, b)
  }

  /**
   * `size / bpp + (size % bpp ? 1 : 0)`: for a non-negative size, the ceiling of size / bpp,
   * that is, the fewest elements of `bpp` bytes whose total reaches `size`.
   */
  function BufferLength(size: int, bpp: int): (length: int)
    requires bpp > 0
    ensures size >= 0 ==> (length - 1) * bpp < size <= length * bpp
    ensures size <= 0 ==> length <= 1
  {
    CDiv(size, bpp) + (if CMod(size, bpp) != 0 then 1 else 0)
  }

  /** Which of the two operations computed the length; only the error message differs. */
  datatype Transfer = Read | Write

  function BeforeStartError(t: Transfer): string
  {
    match t
    case Read => "has to write before the start of the TypedArray"
    case Write => "has to read before the start of the TypedArray"
  }

  /** The spacing options after defaulting: pixel, then line (from the resolved pixel spacing), then offset. */
  datatype Layout = Layout(pixelSpace: int, lineSpace: int, offset: int)

  function ResolveLayout(bpp: int, bufferW: int, pixelSpace: Option<int>, lineSpace: Option<int>, offset: Option<int>): (l: Layout)
    ensures pixelSpace.Some? ==> l.pixelSpace == pixelSpace.value
    ensures pixelSpace.None? ==> l.pixelSpace == bpp
    ensures l.lineSpace == if lineSpace.Some? then lineSpace.value else l.pixelSpace * bufferW
    ensures offset.Some? ==> l.offset == offset.value
    ensures offset.None? ==> l.offset == 0
  {
    var px := match pixelSpace case Some(p) => p case None => bpp;
    var ln := match lineSpace case Some(l) => l case None => px * bufferW;
    var off := match offset case Some(o) => o case None => 0;
    Layout(px, ln, off)
  }

  /**
   * The window check and length computation shared by read and write, as written: an error when
   * the lowest index is negative, otherwise the number of elements that reaches FindHighest.
   */
  function RequiredLength(t: Transfer, bufferW: int, bufferH: int, l: Layout, bpp: int): (r: Result<int>)
    requires bpp > 0
    ensures r.Err? <==> FindLowest(bufferW, bufferH, l.pixelSpace, l.lineSpace, l.offset) < 0
    ensures r.Err? ==> r.error == BeforeStartError(t)
    ensures r.Ok? && bufferW >= 1 && bufferH >= 1 ==>
      && r.value >= 1
      && (r.value - 1) * bpp <= FindHighest(bufferW, bufferH, l.pixelSpace, l.lineSpace, l.offset)
      && forall x, y :: 0 <= x < bufferW && 0 <= y < bufferH ==>
           0 <= ElementIndex(l.offset, l.pixelSpace, l.lineSpace, x, y) < r.value * bpp
  {
    var low := FindLowest(bufferW, bufferH, l.pixelSpace, l.lineSpace, l.offset);
    if low < 0 then Err(BeforeStartError(t))
    else
      var size := FindHighest(bufferW, bufferH, l.pixelSpace, l.lineSpace, l.offset) + 1;
      assert bufferW >= 1 && bufferH >= 1 ==> size >= 1 by {
        if bufferW >= 1 && bufferH >= 1 { WindowBounds(bufferW, bufferH, l.pixelSpace, l.lineSpace, l.offset, 0, 0); }
      }
      var length := BufferLength(size, bpp);
      assert bufferW >= 1 && bufferH >= 1 ==> length >= 1 by {
        if bufferW >= 1 && bufferH >= 1 && length < 1 { MulLeq(length, 0, bpp); }
      }
      assert forall x, y :: 0 <= x < bufferW && 0 <= y < bufferH ==>
           0 <= ElementIndex(l.offset, l.pixelSpace, l.lineSpace, x, y) < length * bpp by {
        forall x, y | 0 <= x < bufferW && 0 <= y < bufferH
          ensures 0 <= ElementIndex(l.offset, l.pixelSpace, l.lineSpace, x, y) < length * bpp
        {
          WindowBounds(bufferW, bufferH, l.pixelSpace, l.lineSpace, l.offset, x, y);
        }
      }
      Ok(length)
  }

  lemma MulGreater(a: int, b: int, c: int)
    requires c > 0 && a * c > b * c
    ensures a > b
  {
    if a <= b { MulLeq(a, b, c); }
  }

  /** The length for `k` whole elements plus a partial or whole one is `k + 1`. */
  lemma CeilOfMultiple(k: int, bpp: int, extra: int)
    requires bpp > 0 && 1 <= extra <= bpp && k * bpp + extra >= 0
    ensures BufferLength(k * bpp + extra, bpp) == k + 1
  {
    var a := BufferLength(k * bpp + extra, bpp);
    assert (k + 1) * bpp == k * bpp + bpp;
    MulGreater(k + 1, a - 1, bpp);
    MulGreater(a, k, bpp);
  }

  /**
   * With every spacing option left at its default and a window of at least one pixel, the
   * required length is exactly one element per buffer pixel.
   */
  lemma DefaultLayoutLength(t: Transfer, bufferW: int, bufferH: int, bpp: int)
    requires bufferW >= 1 && bufferH >= 1 && bpp >= 1
    ensures RequiredLength(t, bufferW, bufferH, ResolveLayout(bpp, bufferW, None, None, None), bpp) == Ok(bufferW * bufferH)
  {
    var l := ResolveLayout(bpp, bufferW, None, None, None);
    assert l == Layout(bpp, bpp * bufferW, 0);
    var n := bufferW * bufferH;
    assert FindLowest(bufferW, bufferH, l.pixelSpace, l.lineSpace, l.offset) == 0;
    var high := FindHighest(bufferW, bufferH, l.pixelSpace, l.lineSpace, l.offset);
    calc {
      high;
      (bufferW - 1) * bpp + (bufferH - 1) * (bpp * bufferW);
      { assert (bufferH - 1) * (bpp * bufferW) == (bufferW * bufferH - bufferW) * bpp; }
      (bufferW - 1) * bpp + (n - bufferW) * bpp;
      (n - 1) * bpp;
    }
    assert n >= 1 by { MulLeq(1, bufferW, bufferH); }
    MulLeq(0, n - 1, bpp);
    CeilOfMultiple(n - 1, bpp, 1);
  }

  // ---------------------------------------------------------------------------------------------
  // Coverage of the bytes the transfer touches
  // ---------------------------------------------------------------------------------------------

  /**
   * GDAL is handed `data + offset * bpp`, so the offset counts elements while the spacings count
   * bytes, and each pixel occupies `bpp` bytes. The first byte pixel (x, y) occupies:
   */
  function PixelByte(offset: int, px: int, ln: int, bpp: int, x: int, y: int): int
  {
    offset * bpp + (x * px + y * ln)
  }

  /**
   * The as-written length does not always cover those bytes: a 1 x 1 window of 4-byte pixels at
   * offset 1 is allowed an array of one element, yet its pixel occupies bytes 4 to 7.
   */
  lemma RequiredLengthTooShort()
    ensures RequiredLength(Read, 1, 1, Layout(4, 4, 1), 4) == Ok(1)
    ensures PixelByte(1, 4, 4, 4, 0, 0) + 4 > 1 * 4
  {
    assert FindHighest(1, 1, 4, 4, 1) == 1;
    assert CDiv(2, 4) == 0;
    assert CMod(2, 4) == 2;
  }

  /**
   * The length as intended: the window check and the length are computed in bytes, so every
   * byte of every pixel lies inside an array of the returned number of elements.
   */
  function CoveringLength(t: Transfer, bufferW: int, bufferH: int, l: Layout, bpp: int): (r: Result<int>)
    requires bpp > 0
    ensures r.Err? <==> l.offset * bpp + FindLowest(bufferW, bufferH, l.pixelSpace, l.lineSpace, 0) < 0
    ensures r.Err? ==> r.error == BeforeStartError(t)
    ensures r.Ok? && bufferW >= 1 && bufferH >= 1 ==>
      && (r.value - 1) * bpp < l.offset * bpp + FindHighest(bufferW, bufferH, l.pixelSpace, l.lineSpace, 0) + bpp
      && forall x, y :: 0 <= x < bufferW && 0 <= y < bufferH ==>
           0 <= PixelByte(l.offset, l.pixelSpace, l.lineSpace, bpp, x, y)
           && PixelByte(l.offset, l.pixelSpace, l.lineSpace, bpp, x, y) + bpp <= r.value * bpp
  {
    var base := l.offset * bpp;
    var low := base + FindLowest(bufferW, bufferH, l.pixelSpace, l.lineSpace, 0);
    if low < 0 then Err(BeforeStartError(t))
    else
      var high := base + FindHighest(bufferW, bufferH, l.pixelSpace, l.lineSpace, 0);
      var length := BufferLength(high + bpp, bpp);
      assert bufferW >= 1 && bufferH >= 1 ==> high + bpp >= 0 by {
        if bufferW >= 1 && bufferH >= 1 { WindowBounds(bufferW, bufferH, l.pixelSpace, l.lineSpace, 0, 0, 0); }
      }
      assert forall x, y :: 0 <= x < bufferW && 0 <= y < bufferH ==>
           0 <= PixelByte(l.offset, l.pixelSpace, l.lineSpace, bpp, x, y)
           && PixelByte(l.offset, l.pixelSpace, l.lineSpace, bpp, x, y) + bpp <= length * bpp by {
        forall x, y | 0 <= x < bufferW && 0 <= y < bufferH
          ensures 0 <= PixelByte(l.offset, l.pixelSpace, l.lineSpace, bpp, x, y)
          ensures PixelByte(l.offset, l.pixelSpace, l.lineSpace, bpp, x, y) + bpp <= length * bpp
        {
          WindowBounds(bufferW, bufferH, l.pixelSpace, l.lineSpace, 0, x, y);
        }
      }
      Ok(length)
  }

  /** With spacings that are whole multiples of `bpp`, the highest index is one too. */
  lemma AlignedHighest(bufferW: int, bufferH: int, bpp: int, i: int, j: int) returns (k: int)
    ensures FindHighest(bufferW, bufferH, i * bpp, j * bpp, 0) == k * bpp
  {
    var x := if i * bpp < 0 then 0 else bufferW - 1;
    var y := if j * bpp < 0 then 0 else bufferH - 1;
    k := x * i + y * j;
    assert x * (i * bpp) == (x * i) * bpp;
    assert y * (j * bpp) == (y * j) * bpp;
    assert (x * i) * bpp + (y * j) * bpp == k * bpp;
  }

  /** For byte-aligned spacings and a zero offset the two computations agree. */
  lemma CoveringLengthAgreesWhenAligned(t: Transfer, bufferW: int, bufferH: int, l: Layout, bpp: int, i: int, j: int)
    requires bpp > 0 && bufferW >= 1 && bufferH >= 1 && l.offset == 0
    requires l.pixelSpace == i * bpp && l.lineSpace == j * bpp
    ensures CoveringLength(t, bufferW, bufferH, l, bpp) == RequiredLength(t, bufferW, bufferH, l, bpp)
  {
    var k := AlignedHighest(bufferW, bufferH, bpp, i, j);
    var low := FindLowest(bufferW, bufferH, l.pixelSpace, l.lineSpace, 0);
    assert l.offset * bpp == 0;
    if low >= 0 {
      WindowBounds(bufferW, bufferH, l.pixelSpace, l.lineSpace, 0, 0, 0);
      CeilOfMultiple(k, bpp, 1);
      CeilOfMultiple(k, bpp, bpp);
      assert RequiredLength(t, bufferW, bufferH, l, bpp) == Ok(k + 1);
      assert CoveringLength(t, bufferW, bufferH, l, bpp) == Ok(k + 1);
    }
  }
}
