/** `TextureUtils`: the built-in 3x3 RGBA `pixels` table, the row flip of
    `loadPng` (OpenGL expects the bottom row first, PNG stores the top row
    first) and the static texture id.

    libpng and `fopen` are not part of this model: an opened and decoded
    file is a `PngImage` value (dimensions, `png_get_rowbytes`, and the rows
    `png_get_rows` returns), and a file that failed to open is `None`. */
module TextureUtils {
  import opened Wrappers
  import opened CNumerics

  /** The 3x3 image, bottom row first, four channels per pixel. */
  function Pixels(): (p: seq<Byte>)
    ensures |p| == 9 * 4
    ensures forall k :: 0 <= k < |p| && k % 4 == 3 ==> p[k] == 255
  {
    [ 18, 140, 171, 255,   143, 143, 143, 255,   255, 255, 255, 255,
      255, 255,   0, 255,     0, 255, 255, 255,   255,   0, 255, 255,
      255,   0,   0, 255,     0, 255,   0, 255,     0,   0, 255, 255 ]
  }

  /** What libpng reports about a decoded file. */
  datatype PngImage = PngImage(width: UInt32, height: UInt32, rowbytes: UInt32, rows: seq<seq<Byte>>)

  /** libpng's own guarantee: `height` rows of `rowbytes` bytes each. */
  ghost predicate WellFormed(png: PngImage)
  {
    && |png.rows| == png.height
    && forall r :: 0 <= r < |png.rows| ==> |png.rows[r]| == png.rowbytes
  }

  /** `malloc((*w) * (*h) * 4)`: the product is computed in `uint32_t` and
      wraps modulo 2^32. */
  function BufferSize(w: UInt32, h: UInt32): (size: UInt32)
    ensures w * h * 4 < TwoTo32 ==> size == w * h * 4
    ensures size % 4 == 0
  {
    (w * h * 4) % TwoTo32
  }

  /** All `h` copies of `rowbytes` bytes land inside the buffer. */
  predicate CopiesInBounds(png: PngImage)
  {
    RowStart(png.height, png.rowbytes) <= BufferSize(png.width, png.height)
  }

  /** Start of destination row `d`: `d * rowbytes`, written as repeated
      addition so that the row arithmetic stays linear. */
  function RowStart(d: nat, rowbytes: nat): (start: nat)
  {
    if d == 0 then 0 else RowStart(d - 1, rowbytes) + rowbytes
  }

  lemma {:induction false} RowStartIsProduct(d: nat, rowbytes: nat)
    ensures RowStart(d, rowbytes) == d * rowbytes
  {
    if d != 0 {
      RowStartIsProduct(d - 1, rowbytes);
    }
  }

  /** Source row `r` goes to destination row `h - 1 - r`. */
  function DestRow(h: nat, r: nat): (d: nat)
    requires r < h
  {
    h - 1 - r
  }

  /** `r |-> h - 1 - r` maps `[0, h)` onto itself and is its own inverse, so
      it is a bijection: every destination row receives exactly one source
      row and no two source rows share a destination. */
  lemma DestRowIsBijection(h: nat)
    ensures forall r :: 0 <= r < h ==> DestRow(h, r) < h && DestRow(h, DestRow(h, r)) == r
    ensures forall r, s :: 0 <= r < h && 0 <= s < h && DestRow(h, r) == DestRow(h, s) ==> r == s
  {
  }

  /** Row `d < h` ends no later than row `h` would start. */
  lemma {:induction false} RowInside(d: nat, h: nat, rowbytes: nat)
    requires d < h
    ensures RowStart(d, rowbytes) + rowbytes <= RowStart(h, rowbytes)
  {
    if d + 1 < h {
      RowInside(d, h - 1, rowbytes);
    }
  }

  /** With no wrap-around in the allocation, the copies stay in bounds
      exactly when the image is empty or a row holds at most four bytes per
      pixel. A 16-bit RGBA file (eight bytes per pixel) writes past the
      buffer. */
  lemma InBoundsExactly(png: PngImage)
    requires png.width * png.height * 4 < TwoTo32
    ensures CopiesInBounds(png) <==> png.height == 0 || png.rowbytes <= 4 * png.width
  {
    var w: nat, h: nat, rb: nat := png.width, png.height, png.rowbytes;
    RowStartIsProduct(h, rb);
    var area := w * h * 4;
    assert BufferSize(w, h) == area;
    assert area == (4 * w) * h;
    ProductBound(h, rb, 4 * w);
  }

  /** For a positive number of rows `h`, `rb * h <= limit * h` exactly when
      `rb <= limit`. */
  lemma ProductBound(h: nat, rb: nat, limit: nat)
    ensures h * rb <= limit * h <==> h == 0 || rb <= limit
  {
  }

  /** The wrap-around is reachable: a 32768 x 32768 image is given a buffer
      of 0 bytes. */
  lemma BufferSizeWraps()
    ensures BufferSize(0x8000, 0x8000) == 0
  {
  }

  /** The buffer holds the file's rows bottom-up: every destination row lies
      inside it, destination row `h-1-r` is a copy of source row `r`, and,
      read the other way, destination row `d` is a copy of source row
      `h-1-d`. */
  predicate FlippedInto(image: array<Byte>, png: PngImage)
    requires WellFormed(png)
    reads image
  {
    var h, rb, rows := png.height, png.rowbytes, png.rows;
    && (forall d :: 0 <= d < h ==> RowStart(d, rb) + rb <= image.Length)
    && (forall r, c :: 0 <= r < h && 0 <= c < rb ==> image[RowStart(DestRow(h, r), rb) + c] == rows[r][c])
    && (forall d, c :: 0 <= d < h && 0 <= c < rb ==> image[RowStart(d, rb) + c] == rows[DestRow(h, d)][c])
  }

  /** Since `r |-> h-1-r` is its own inverse, a buffer that holds every
      source row at its flipped place also holds, at each destination row,
      the flipped source row. */
  lemma FlipReadsBothWays(image: array<Byte>, png: PngImage)
    requires WellFormed(png)
    requires forall d :: 0 <= d < png.height ==> RowStart(d, png.rowbytes) + png.rowbytes <= image.Length
    requires forall r, c :: 0 <= r < png.height && 0 <= c < png.rowbytes ==>
               image[RowStart(DestRow(png.height, r), png.rowbytes) + c] == png.rows[r][c]
    ensures FlippedInto(image, png)
  {
    var h, rb := png.height, png.rowbytes;
    forall d, c | 0 <= d < h && 0 <= c < rb
      ensures image[RowStart(d, rb) + c] == png.rows[DestRow(h, d)][c]
    {
      assert DestRow(h, DestRow(h, d)) == d;
    }
  }

  /** A wrapped size does not always mean an overrun: an 8-bit greyscale
      file keeps one byte per pixel, and a 40000 x 40000 one still fits in
      the 2105032704 bytes the wrapped product allocates. */
  lemma WrapCanStayInBounds()
    ensures 40000 * 40000 * 4 >= TwoTo32
    ensures BufferSize(40000, 40000) == 2105032704
    ensures CopiesInBounds(PngImage(40000, 40000, 40000, []))
  {
    RowStartIsProduct(40000, 40000);
  }

  /** `memcpy(image + offset, src, |src|)`. */
  method CopyRow(image: array<Byte>, offset: nat, src: seq<Byte>)
    requires offset + |src| <= image.Length
    modifies image
    ensures forall c :: 0 <= c < |src| ==> image[offset + c] == src[c]
    ensures forall k :: 0 <= k < image.Length && !(offset <= k < offset + |src|) ==> image[k] == old(image[k])
  {
    var c := 0;
    while c < |src|
      invariant 0 <= c <= |src|
      invariant forall j :: 0 <= j < c ==> image[offset + j] == src[j]
      invariant forall k :: 0 <= k < image.Length && !(offset <= k < offset + c) ==> image[k] == old(image[k])
    {
      image[offset + c] := src[c];
      c := c + 1;
    }
  }

  /** `loadPng(&w, &h, &image)`: `w0`, `h0` and `image0` are the values the
      three out-parameters held before the call. */
  method LoadPng(file: Option<PngImage>, w0: UInt32, h0: UInt32, image0: array?<Byte>)
    returns (w: UInt32, h: UInt32, image: array?<Byte>)
    requires file.Some? ==> WellFormed(file.value) && CopiesInBounds(file.value)
    ensures file.None? ==> w == w0 && h == h0 && image == image0
    ensures file.Some? ==>
      && w == file.value.width && h == file.value.height
      && image != null && image.Length == BufferSize(w, h)
      && FlippedInto(image, file.value)
  {
    if file.None? {
      return w0, h0, image0;
    }
    var png := file.value;
    w, h := png.width, png.height;
    var rb := png.rowbytes;
    var buf := new Byte[BufferSize(w, h)];
    forall d | 0 <= d < h
      ensures RowStart(d, rb) + rb <= buf.Length
    {
      RowInside(d, h, rb);
    }
    var row := 0;
    while row < h
      invariant 0 <= row <= h
      invariant forall d :: 0 <= d < h ==> RowStart(d, rb) + rb <= buf.Length
      invariant forall r, c :: 0 <= r < row && 0 <= c < rb ==> buf[RowStart(DestRow(h, r), rb) + c] == png.rows[r][c]
    {
      ghost var before := buf[..];
      var d := DestRow(h, row);
      CopyRow(buf, RowStart(d, rb), png.rows[row]);
      forall r, c | 0 <= r < row && 0 <= c < rb
        ensures buf[RowStart(DestRow(h, r), rb) + c] == png.rows[r][c]
      {
        RowInside(d, DestRow(h, r), rb);
        assert buf[RowStart(DestRow(h, r), rb) + c] == before[RowStart(DestRow(h, r), rb) + c];
      }
      row := row + 1;
    }
    FlipReadsBothWays(buf, png);
    image := buf;
  }

  /** The static `TextureUtils::textureId`. */
  class TextureState {
    var textureId: UInt32

    constructor ()
      ensures textureId == 0
    {
      textureId := 0;
    }

    /** `loadSimpleTexture()`: `generated` is the name `glGenTextures`
        returns. `w0`, `h0` and `image0` are the indeterminate values of the
        uninitialised locals `w`, `h`, `image`, which `glTexImage2D` receives
        unchanged when the file fails to open; `w`, `h`, `image` are what it
        receives. */
    method LoadSimpleTexture(generated: UInt32, file: Option<PngImage>, w0: UInt32, h0: UInt32, image0: array?<Byte>)
      returns (id: UInt32, w: UInt32, h: UInt32, image: array?<Byte>)
      requires file.Some? ==> WellFormed(file.value) && CopiesInBounds(file.value)
      modifies this
      ensures textureId == generated && id == generated
      ensures file.None? ==> w == w0 && h == h0 && image == image0
      ensures file.Some? ==>
        && w == file.value.width && h == file.value.height
        && image != null && image.Length == BufferSize(w, h)
        && FlippedInto(image, file.value)
    {
      textureId := generated;
      w, h, image := LoadPng(file, w0, h0, image0);
      id := textureId;
    }

    /** `deleteSimpleTexture()`: `deleted` tells whether `glDeleteTextures`
        was called. The id is not reset, so a second call deletes the same
        name again. */
    method DeleteSimpleTexture() returns (deleted: bool)
      ensures deleted <==> textureId != 0
    {
      deleted := textureId != 0;
    }
  }
}
