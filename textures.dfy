// The texture: its creation rules (size validation and the choice between
// 1D, 2D and 3D), loading from an image (with the source area adjusted to
// the image), read-back into an image (rows copied out of a padded and
// possibly vertically flipped buffer), the update overloads, the smooth and
// repeated flags, copy and assignment, and the cache id the render target
// uses to notice that a texture changed.

module Textures {
  import opened Basics
  import opened Gl

  datatype Size3 = Size3(x: nat, y: nat, z: nat)

  const NoSize: Size3 := Size3(0, 0, 0)

  /** An RGBA image: width*height pixels of four bytes, row by row. */
  datatype Image = Image(width: nat, height: nat, pixels: seq<uint8>)

  const EmptyImage: Image := Image(0, 0, [])

  /** An image either has both dimensions or is the empty image, and holds
      exactly four bytes per pixel. */
  predicate WellFormedImage(image: Image)
  {
    (image.width == 0 <==> image.height == 0) &&
    |image.pixels| == image.width * image.height * 4
  }

  /** Whether the hardware takes any texture size (the non-power-of-two
      extension) or only powers of two. */
  datatype SizeRule = AnySize | PowersOfTwo

  predicate IsPowerOfTwo(p: nat)
    decreases p
  {
    p == 1 || (p >= 2 && p % 2 == 0 && IsPowerOfTwo(p / 2))
  }

  /** The least power of two that is at least n, searching upwards from p. */
  function PowerOfTwoFrom(n: nat, p: nat): (q: nat)
    requires IsPowerOfTwo(p)
    requires p == 1 || p / 2 < n
    ensures IsPowerOfTwo(q) && n <= q && (q == 1 || q / 2 < n)
    decreases n - p
  {
    if p >= n then p else PowerOfTwoFrom(n, 2 * p)
  }

  /** `getValidSize`: the size itself when any size is supported, otherwise
      the nearest power of two at or above it. */
  function ValidSize(rule: SizeRule, n: nat): (v: nat)
    ensures n <= v
    ensures rule == AnySize ==> v == n
    ensures rule == PowersOfTwo ==> IsPowerOfTwo(v) && (v == 1 || v / 2 < n)
  {
    if rule == AnySize then n else PowerOfTwoFrom(n, 1)
  }

  /** `static_cast<unsigned int>` of an `int`: two's complement wrap-around. */
  function ToUnsigned(i: int): (u: nat)
    ensures u < U32
    ensures 0 <= i < U32 ==> u == i
    ensures -U32 <= i < 0 ==> u == i + U32
    decreases if i < 0 then U32 - i else i
  {
    if 0 <= i < U32 then i
    else if i < 0 then ToUnsigned(i + U32)
    else ToUnsigned(i - U32)
  }

  /** The target `create` initialises: no height means 1D, otherwise no
      depth means 2D, otherwise 3D. */
  function CreateTarget(height: nat, depth: nat): TextureTarget
  {
    if height == 0 then Texture1D else if depth == 0 then Texture2D else Texture3D
  }

  /** The target `bind`, `setSmooth` and `setRepeated` use, from the stored size. */
  function BoundTarget(size: Size3): TextureTarget
  {
    if size.z != 0 then Texture3D else if size.y != 0 then Texture2D else Texture1D
  }

  /** The internal size: each nonzero dimension rounded by the hardware
      rule, zero dimensions kept at zero. */
  function ActualSize(width: nat, height: nat, depth: nat, rule: SizeRule): (a: Size3)
    ensures width <= a.x && height <= a.y && depth <= a.z
    ensures (a.y == 0 <==> height == 0) && (a.z == 0 <==> depth == 0)
  {
    Size3(ValidSize(rule, width),
          if height != 0 then ValidSize(rule, height) else 0,
          if depth != 0 then ValidSize(rule, depth) else 0)
  }

  /** When `create` accepts a size. */
  predicate CreateAccepts(width: nat, height: nat, depth: nat, rule: SizeRule, maxSize: nat)
  {
    width != 0 && !(height == 0 && depth != 0) &&
    var a := ActualSize(width, height, depth, rule);
    a.x <= maxSize && a.y <= maxSize && a.z <= maxSize
  }

  /** The calls `create` makes on the texture it initialises. */
  function CreateCalls(target: TextureTarget, name: nat, repeated: bool, smooth: bool, a: Size3): seq<Call>
  {
    [BindTexture(target, name), TexWrap(target, repeated), TexFilter(target, smooth), TexImage(target, a.x, a.y, a.z)]
  }

  /** Whether `loadFromImage` loads the whole image: the area is empty or it
      covers the image. */
  predicate LoadsWhole(area: IntRect, width: int, height: int)
  {
    area.width == 0 || area.height == 0 ||
    (area.left <= 0 && area.top <= 0 && area.width >= width && area.height >= height)
  }

  /** The area adjustment of `loadFromImage`: left and top are raised to 0
      (width and height kept), then width and height are cut so that the
      right and bottom edges do not pass the image's. */
  function ClampArea(area: IntRect, width: int, height: int): (r: IntRect)
    ensures r.left == (if area.left < 0 then 0 else area.left)
    ensures r.top == (if area.top < 0 then 0 else area.top)
    ensures r.left + r.width <= width && r.top + r.height <= height
    ensures r.width <= area.width && r.height <= area.height
    ensures r.left + r.width == width || r.width == area.width
    ensures r.top + r.height == height || r.height == area.height
    ensures (0 <= area.left && area.left + area.width <= width &&
             0 <= area.top && area.top + area.height <= height) ==> r == area
  {
    var left := if area.left < 0 then 0 else area.left;
    var top := if area.top < 0 then 0 else area.top;
    var w := if left + area.width > width then width - left else area.width;
    var h := if top + area.height > height then height - top else area.height;
    IntRect(left, top, w, h)
  }

  /** The row uploads of a sub-area load: row i of the texture takes
      `width` pixels starting at byte `offset + i * pitch` of the image. */
  function RowUploads(width: nat, rows: nat, offset: nat, pitch: nat): (calls: seq<Call>)
    ensures |calls| == rows
    ensures forall i :: 0 <= i < rows ==> calls[i] == TexSubImage(Texture2D, 0, i, 0, width, 1, 0, offset + i * pitch)
  {
    if rows == 0 then []
    else RowUploads(width, rows - 1, offset, pitch) + [TexSubImage(Texture2D, 0, rows - 1, 0, width, 1, 0, offset + (rows - 1) * pitch)]
  }

  // ----- read-back -----

  lemma MulLe(a: nat, b: nat, c: nat)
    requires a <= b
    ensures a * c <= b * c
  {
  }

  /** Row r of the read-back buffer of a texture `aw` pixels wide fits in it. */
  lemma RowFits(r: nat, w: nat, aw: nat, ah: nat)
    requires r < ah && w <= aw
    ensures 0 <= r * aw * 4 && r * aw * 4 + w * 4 <= aw * ah * 4
  {
    MulLe(r + 1, ah, aw);
    assert (r + 1) * aw == r * aw + aw;
    assert ah * aw == aw * ah;
  }

  lemma NextRow(i: nat, w: nat)
    ensures (i + 1) * w * 4 == i * w * 4 + w * 4
  {
  }

  /** The padded row that becomes output row i. */
  function SourceRow(i: nat, h: nat, flipped: bool): (r: nat)
    requires i < h
    ensures r < h
  {
    if flipped then h - 1 - i else i
  }

  /** The first w pixels of padded row r of a buffer aw pixels wide. */
  function Row(src: seq<uint8>, r: nat, w: nat, aw: nat, ah: nat): (row: seq<uint8>)
    requires r < ah && w <= aw && |src| == aw * ah * 4
    ensures |row| == w * 4
  {
    RowFits(r, w, aw, ah);
    src[r * aw * 4 .. r * aw * 4 + w * 4]
  }

  /** The first i output rows copied out of the read-back buffer of a
      texture of size (w, h) stored as (aw, ah). */
  function CopiedRows(src: seq<uint8>, w: nat, h: nat, aw: nat, ah: nat, flipped: bool, i: nat): (out: seq<uint8>)
    requires w <= aw && h <= ah && |src| == aw * ah * 4 && i <= h
    ensures |out| == i * w * 4
  {
    if i == 0 then []
    else CopiedRows(src, w, h, aw, ah, flipped, i - 1) + Row(src, SourceRow(i - 1, h, flipped), w, aw, ah)
  }

  lemma {:induction false} CopiedRowsPrefix(src: seq<uint8>, w: nat, h: nat, aw: nat, ah: nat, flipped: bool, i: nat, j: nat)
    requires w <= aw && h <= ah && |src| == aw * ah * 4 && i <= j <= h
    ensures i * w * 4 <= j * w * 4
    ensures CopiedRows(src, w, h, aw, ah, flipped, j)[..i * w * 4] == CopiedRows(src, w, h, aw, ah, flipped, i)
    decreases j
  {
    MulLe(i, j, w);
    if i < j {
      CopiedRowsPrefix(src, w, h, aw, ah, flipped, i, j - 1);
      var prev := CopiedRows(src, w, h, aw, ah, flipped, j - 1);
      MulLe(i, j - 1, w);
      assert CopiedRows(src, w, h, aw, ah, flipped, j)[..i * w * 4] == prev[..i * w * 4];
    }
  }

  /** Output row y is the first size.x*4 bytes of padded row y, or of row
      h-1-y when the pixels are flipped. */
  lemma CopiedRowIs(src: seq<uint8>, w: nat, h: nat, aw: nat, ah: nat, flipped: bool, y: nat)
    requires w <= aw && h <= ah && |src| == aw * ah * 4 && y < h
    ensures (y + 1) * w * 4 <= |CopiedRows(src, w, h, aw, ah, flipped, h)|
    ensures CopiedRows(src, w, h, aw, ah, flipped, h)[y * w * 4 .. (y + 1) * w * 4]
         == Row(src, if flipped then h - 1 - y else y, w, aw, ah)
  {
    MulLe(y + 1, h, w);
    CopiedRowsPrefix(src, w, h, aw, ah, flipped, y + 1, h);
    var all := CopiedRows(src, w, h, aw, ah, flipped, h);
    var upTo := CopiedRows(src, w, h, aw, ah, flipped, y + 1);
    assert (y + 1) * w * 4 == y * w * 4 + w * 4;
    assert all[y * w * 4 .. (y + 1) * w * 4] == upTo[y * w * 4 ..];
  }

  /** A texture that is neither padded nor flipped reads back unchanged. */
  lemma {:induction false} DirectCopy(src: seq<uint8>, w: nat, h: nat, i: nat)
    requires |src| == w * h * 4 && i <= h
    ensures i * w * 4 <= |src|
    ensures CopiedRows(src, w, h, w, h, false, i) == src[..i * w * 4]
  {
    MulLe(i, h, w);
    if i > 0 {
      DirectCopy(src, w, h, i - 1);
      assert i * w * 4 == (i - 1) * w * 4 + w * 4;
    }
  }

  /** What `copyToImage` returns for a texture in the given state, `readback`
      being the texture's level-0 pixels as the driver returns them. */
  function Snapshot(name: nat, size: Size3, actual: Size3, flipped: bool, readback: seq<uint8>): Image
    requires size.x <= actual.x && size.y <= actual.y
    requires name != 0 && size.y != 0 && size.z == 0 ==> |readback| == actual.x * actual.y * 4
  {
    if name == 0 || size.y == 0 || size.z != 0 then EmptyImage
    else Image(size.x, size.y, CopiedRows(readback, size.x, size.y, actual.x, actual.y, flipped, size.y))
  }

  /** memcpy of `count` bytes into `dst` at `at`. */
  method CopyBytes(dst: array<uint8>, at: nat, src: seq<uint8>, from: nat, count: nat)
    requires at + count <= dst.Length && from + count <= |src|
    modifies dst
    ensures dst[..at] == old(dst[..at])
    ensures dst[at .. at + count] == src[from .. from + count]
  {
    var j := 0;
    while j < count
      invariant 0 <= j <= count
      invariant dst[..at] == old(dst[..at])
      invariant dst[at .. at + j] == src[from .. from + j]
    {
      dst[at + j] := src[from + j];
      j := j + 1;
    }
  }

  /** Appending the next source row to the first i rows gives i+1 rows. */
  lemma StepRows(out: seq<uint8>, src: seq<uint8>, w: nat, h: nat, aw: nat, ah: nat, flipped: bool, i: nat)
    requires w <= aw && h <= ah && |src| == aw * ah * 4 && i < h
    requires (i + 1) * w * 4 <= |out|
    requires out[..i * w * 4] == CopiedRows(src, w, h, aw, ah, flipped, i)
    requires i * w * 4 + w * 4 <= |out| && SourceRow(i, h, flipped) * aw * 4 + w * 4 <= |src|
    requires out[i * w * 4 .. i * w * 4 + w * 4] == Row(src, SourceRow(i, h, flipped), w, aw, ah)
    ensures out[..(i + 1) * w * 4] == CopiedRows(src, w, h, aw, ah, flipped, i + 1)
  {
    NextRow(i, w);
    assert out[..(i + 1) * w * 4] == out[..i * w * 4] + out[i * w * 4 .. i * w * 4 + w * 4];
  }

  /** The byte offset of row r in a buffer whose rows are `pixels` pixels
      of four bytes. */
  function Offset(r: nat, pixels: nat): (o: nat)
  {
    if r == 0 then 0 else Offset(r - 1, pixels) + pixels * 4
  }

  lemma {:induction false} OffsetIs(r: nat, pixels: nat)
    ensures Offset(r, pixels) == r * pixels * 4
  {
    if r > 0 {
      OffsetIs(r - 1, pixels);
      NextRow(r - 1, pixels);
    }
  }

  /** One iteration of the row loop: output row i is copied from the
      padded row it comes from. */
  method CopyRow(out: array<uint8>, readback: seq<uint8>, w: nat, h: nat, aw: nat, ah: nat, flipped: bool,
                 i: nat, dst: nat, src: nat)
    requires w <= aw && h <= ah && |readback| == aw * ah * 4 && i < h && out.Length == w * h * 4
    requires dst == Offset(i, w) <= out.Length && src == Offset(SourceRow(i, h, flipped), aw)
    requires out[..dst] == CopiedRows(readback, w, h, aw, ah, flipped, i)
    modifies out
    ensures Offset(i + 1, w) <= out.Length
    ensures out[..Offset(i + 1, w)] == CopiedRows(readback, w, h, aw, ah, flipped, i + 1)
  {
    OffsetIs(i, w);
    OffsetIs(i + 1, w);
    OffsetIs(SourceRow(i, h, flipped), aw);
    RowFits(SourceRow(i, h, flipped), w, aw, ah);
    RowFits(i, w, w, h);
    assert h * w * 4 == w * h * 4;
    CopyBytes(out, dst, readback, src, w * 4);
    StepRows(out[..], readback, w, h, aw, ah, flipped, i);
  }

  /** The source pointer moves by one padded row, down or up. */
  lemma NextSource(i: nat, h: nat, aw: nat, flipped: bool)
    requires i + 1 < h
    ensures Offset(SourceRow(i + 1, h, flipped), aw) ==
            Offset(SourceRow(i, h, flipped), aw) + (if flipped then -(aw * 4) else aw * 4)
  {
  }

  /** One pass of the row loop: copy the row, then move both pointers by
      their pitch. */
  method CopyRowAndAdvance(out: array<uint8>, readback: seq<uint8>, w: nat, h: nat, aw: nat, ah: nat, flipped: bool,
                           i: nat, dst: nat, src: int, dstPitch: nat, srcPitch: int)
    returns (dst': nat, src': int)
    requires w <= aw && h <= ah && |readback| == aw * ah * 4 && i < h && out.Length == w * h * 4
    requires dst == Offset(i, w) <= out.Length && dstPitch == w * 4
    requires srcPitch == if flipped then -(aw * 4) else aw * 4
    requires src == Offset(SourceRow(i, h, flipped), aw)
    requires out[..dst] == CopiedRows(readback, w, h, aw, ah, flipped, i)
    modifies out
    ensures dst' == Offset(i + 1, w) <= out.Length
    ensures i + 1 < h ==> src' == Offset(SourceRow(i + 1, h, flipped), aw)
    ensures out[..dst'] == CopiedRows(readback, w, h, aw, ah, flipped, i + 1)
  {
    CopyRow(out, readback, w, h, aw, ah, flipped, i, dst, src);
    if i + 1 < h {
      NextSource(i, h, aw, flipped);
    }
    src' := src + srcPitch;
    dst' := dst + dstPitch;
  }

  /** The source pointer starts at the first row, or at the last one when
      the pixels are flipped. */
  lemma FirstSource(h: nat, aw: nat, flipped: bool)
    ensures h > 0 ==> Offset(SourceRow(0, h, flipped), aw) == if flipped then (aw * 4) * (h - 1) else 0
  {
    if h > 0 {
      OffsetIs(h - 1, aw);
    }
  }

  /** After h rows the destination pointer is at the end of the output. */
  lemma WholeOutput(h: nat, w: nat)
    ensures Offset(h, w) == w * h * 4
  {
    OffsetIs(h, w);
    assert h * w * 4 == w * h * 4;
  }

  /** The row loop of `copyToImage`: each output row is the first w*4
      bytes of a padded row, walking the padded rows downwards, or upwards
      from the last one when the pixels are flipped. */
  method CopyRows(readback: seq<uint8>, w: nat, h: nat, aw: nat, ah: nat, flipped: bool) returns (pixels: seq<uint8>)
    requires w <= aw && h <= ah && |readback| == aw * ah * 4
    ensures pixels == CopiedRows(readback, w, h, aw, ah, flipped, h)
  {
    var out := new uint8[w * h * 4];
    var dstPitch := w * 4;
    var dst := 0;
    var srcPitch: int := aw * 4;
    var src: int := 0;
    if flipped {
      src := srcPitch * (h - 1);
      srcPitch := -srcPitch;
    }
    FirstSource(h, aw, flipped);
    var i := 0;
    while i < h
      invariant 0 <= i <= h
      invariant dst == Offset(i, w) <= out.Length && dstPitch == w * 4
      invariant srcPitch == if flipped then -(aw * 4) else aw * 4
      invariant i < h ==> src == Offset(SourceRow(i, h, flipped), aw)
      invariant out[..dst] == CopiedRows(readback, w, h, aw, ah, flipped, i)
    {
      dst, src := CopyRowAndAdvance(out, readback, w, h, aw, ah, flipped, i, dst, src, dstPitch, srcPitch);
      i := i + 1;
    }
    WholeOutput(h, w);
    assert out[..] == out[..dst];
    pixels := out[..];
  }

  /** Sends the calls in order. */
  method EmitAll(gl: Driver, calls: seq<Call>)
    modifies gl
    ensures gl.log == old(gl.log) + calls && gl.live == old(gl.live) && gl.program == old(gl.program)
  {
    var i := 0;
    while i < |calls|
      invariant 0 <= i <= |calls|
      invariant gl.log == old(gl.log) + calls[..i] && gl.live == old(gl.live) && gl.program == old(gl.program)
    {
      assert calls[..i + 1] == calls[..i] + [calls[i]];
      gl.Emit(calls[i]);
      i := i + 1;
    }
  }

  /** The row loop of a sub-area load: one upload per row, the source
      pointer advancing by a full image row each time. */
  method UploadRows(gl: Driver, width: nat, height: int, offset: nat, pitch: nat)
    modifies gl
    ensures gl.log == old(gl.log) + RowUploads(width, if height < 0 then 0 else height, offset, pitch)
    ensures gl.live == old(gl.live) && gl.program == old(gl.program)
  {
    var rows: nat := if height < 0 then 0 else height;
    var i := 0;
    while i < height
      invariant 0 <= i <= rows
      invariant gl.log == old(gl.log) + RowUploads(width, i, offset, pitch)
      invariant gl.live == old(gl.live) && gl.program == old(gl.program)
    {
      gl.Emit(TexSubImage(Texture2D, 0, i, 0, width, 1, 0, offset + i * pitch));
      i := i + 1;
    }
  }

  /** The size `loadFromImage` creates: the image's, or the adjusted area's
      (a negative width or height wraps around as an unsigned int). */
  function LoadSize(image: Image, area: IntRect): Size3
  {
    if LoadsWhole(area, image.width, image.height) then Size3(image.width, image.height, 0)
    else
      var r := ClampArea(area, image.width, image.height);
      Size3(ToUnsigned(r.width), ToUnsigned(r.height), 0)
  }

  /** The calls after `create` in a sub-area load: bind the 2D texture,
      then one upload per row of the adjusted area, reading from the
      pixel at (left, top) and advancing a full image row at a time. */
  function AreaUploads(image: Image, area: IntRect, name: nat): (calls: seq<Call>)
  {
    var r := ClampArea(area, image.width, image.height);
    var left: nat := r.left;
    var top: nat := r.top;
    [BindTexture(Texture2D, name)] +
    RowUploads(ToUnsigned(r.width), if r.height < 0 then 0 else r.height,
               4 * (left + image.width * top), 4 * image.width)
  }

  method UploadArea(gl: Driver, name: nat, imageWidth: nat, left: nat, top: nat, width: nat, height: int)
    modifies gl
    ensures gl.log == old(gl.log) + [BindTexture(Texture2D, name)] +
              RowUploads(width, if height < 0 then 0 else height, 4 * (left + imageWidth * top), 4 * imageWidth)
    ensures gl.live == old(gl.live) && gl.program == old(gl.program)
  {
    var offset: nat := 4 * (left + imageWidth * top);
    gl.Emit(BindTexture(Texture2D, name));
    UploadRows(gl, width, height, offset, 4 * imageWidth);
  }

  class Texture {
    var size: Size3
    var actualSize: Size3
    /** The GL texture name, 0 while there is none. */
    var name: nat
    var isSmooth: bool
    var isRepeated: bool
    var pixelsFlipped: bool
    var cacheId: nat

    /** A created texture has a width unless it has no size at all, has a
        height whenever it has a depth, and is stored at least as large as
        its size. */
    ghost predicate Valid()
      reads this
    {
      (size.x == 0 ==> size == NoSize) && !(size.y == 0 && size.z != 0) &&
      size.x <= actualSize.x && size.y <= actualSize.y && size.z <= actualSize.z
    }

    constructor(ids: IdCounter)
      modifies ids
      ensures Valid()
      ensures size == NoSize && actualSize == NoSize && name == 0
      ensures !isSmooth && !isRepeated && !pixelsFlipped
      ensures cacheId == old(ids.next) && ids.next == old(ids.next) + 1
    {
      var id := ids.Take();
      size, actualSize, name := NoSize, NoSize, 0;
      isSmooth, isRepeated, pixelsFlipped := false, false, false;
      cacheId := id;
    }

    /** The copy constructor: the copy keeps the flags, takes a fresh cache
        id and, when the original has a texture, is loaded from the
        original's read-back image (empty for a 1D or 3D original). */
    constructor Copy(copy: Texture, readback: seq<uint8>, ids: IdCounter, gl: Driver, rule: SizeRule, maxSize: nat)
      requires copy.Valid()
      requires copy.name != 0 && copy.size.y != 0 && copy.size.z == 0 ==>
                 |readback| == copy.actualSize.x * copy.actualSize.y * 4
      modifies ids, gl
      ensures Valid()
      ensures isSmooth == copy.isSmooth && isRepeated == copy.isRepeated && !pixelsFlipped
      ensures cacheId == ids.next - 1 && ids.next > old(ids.next)
      ensures copy.name == 0 || copy.size.y == 0 || copy.size.z != 0 ==>
                size == NoSize && name == 0 && ids.next == old(ids.next) + 1 && unchanged(gl)
      ensures copy.name != 0 && copy.size.y != 0 && copy.size.z == 0 ==>
                (name != 0 <==> CreateAccepts(copy.size.x, copy.size.y, 0, rule, maxSize)) &&
                (name != 0 ==> size == Size3(copy.size.x, copy.size.y, 0) &&
                               actualSize == ActualSize(copy.size.x, copy.size.y, 0, rule) &&
                               Name(TextureObject, name) !in old(gl.live) &&
                               gl.live == old(gl.live) + {Name(TextureObject, name)}) &&
                (name == 0 ==> gl.live == old(gl.live))
    {
      var id := ids.Take();
      size, actualSize, name := NoSize, NoSize, 0;
      isSmooth, isRepeated, pixelsFlipped := copy.isSmooth, copy.isRepeated, false;
      cacheId := id;
      new;
      if copy.name != 0 {
        var image := copy.CopyToImage(readback);
        if copy.size.y != 0 && copy.size.z == 0 {
          assert copy.size.y * copy.size.x == copy.size.x * copy.size.y;
          assert WellFormedImage(image);
        }
        var _ := LoadFromImage(image, IntRect(0, 0, 0, 0), ids, gl, rule, maxSize);
      }
    }

    method Create(width: nat, height: nat, depth: nat, ids: IdCounter, gl: Driver, rule: SizeRule, maxSize: nat)
      returns (ok: bool)
      requires Valid()
      modifies this, ids, gl
      ensures Valid()
      ensures ok <==> CreateAccepts(width, height, depth, rule, maxSize)
      ensures !ok ==> unchanged(this) && unchanged(ids) && unchanged(gl)
      ensures ok ==> size == Size3(width, height, depth) &&
                     actualSize == ActualSize(width, height, depth, rule) &&
                     !pixelsFlipped && isSmooth == old(isSmooth) && isRepeated == old(isRepeated) &&
                     cacheId == old(ids.next) && ids.next == old(ids.next) + 1
      ensures ok && old(name) != 0 ==> name == old(name) && gl.live == old(gl.live)
      ensures ok && old(name) == 0 ==> name != 0 && Name(TextureObject, name) !in old(gl.live) &&
                                       gl.live == old(gl.live) + {Name(TextureObject, name)}
      ensures ok ==> gl.log == old(gl.log) + CreateCalls(CreateTarget(height, depth), name, isRepeated, isSmooth, actualSize)
    {
      ok := width != 0 && !(height == 0 && depth != 0);
      if !ok {
        return;
      }
      var actual := ActualSize(width, height, depth, rule);
      ok := actual.x <= maxSize && actual.y <= maxSize && actual.z <= maxSize;
      if !ok {
        return;
      }
      Initialise(Size3(width, height, depth), actual, CreateTarget(height, depth), ids, gl);
    }

    /** The accepted half of `create`: store the sizes, make sure the
        texture has a name, set it up and give it a new cache id. */
    method Initialise(requested: Size3, actual: Size3, target: TextureTarget, ids: IdCounter, gl: Driver)
      requires requested.x != 0 && !(requested.y == 0 && requested.z != 0)
      requires requested.x <= actual.x && requested.y <= actual.y && requested.z <= actual.z
      modifies this, ids, gl
      ensures Valid()
      ensures size == requested && actualSize == actual && !pixelsFlipped
      ensures isSmooth == old(isSmooth) && isRepeated == old(isRepeated)
      ensures cacheId == old(ids.next) && ids.next == old(ids.next) + 1
      ensures old(name) != 0 ==> name == old(name) && gl.live == old(gl.live)
      ensures old(name) == 0 ==> name != 0 && Name(TextureObject, name) !in old(gl.live) &&
                                 gl.live == old(gl.live) + {Name(TextureObject, name)}
      ensures gl.log == old(gl.log) + CreateCalls(target, name, isRepeated, isSmooth, actual)
    {
      size := requested;
      actualSize := actual;
      pixelsFlipped := false;
      if name == 0 {
        name := gl.Gen(TextureObject);
      }
      EmitAll(gl, CreateCalls(target, name, isRepeated, isSmooth, actual));
      cacheId := ids.Take();
    }

    /** Loads the image, or the part of it inside `area`. */
    method LoadFromImage(image: Image, area: IntRect, ids: IdCounter, gl: Driver, rule: SizeRule, maxSize: nat)
      returns (ok: bool)
      requires Valid() && WellFormedImage(image)
      modifies this, ids, gl
      ensures Valid()
      ensures ok <==> CreateAccepts(LoadSize(image, area).x, LoadSize(image, area).y, 0, rule, maxSize)
      ensures !ok ==> unchanged(this) && unchanged(ids) && unchanged(gl)
      ensures ok ==> size == LoadSize(image, area) && !pixelsFlipped && name != 0 && cacheId == ids.next - 1
      ensures ok && old(name) == 0 ==> Name(TextureObject, name) !in old(gl.live) &&
                                       gl.live == old(gl.live) + {Name(TextureObject, name)}
      ensures ok && LoadsWhole(area, image.width, image.height) ==>
                ids.next == old(ids.next) + 2 && actualSize == ActualSize(image.width, image.height, 0, rule)
      ensures ok && !LoadsWhole(area, image.width, image.height) ==>
                ids.next == old(ids.next) + 1 &&
                exists created :: gl.log == old(gl.log) + created + AreaUploads(image, area, name)
      ensures isSmooth == old(isSmooth) && isRepeated == old(isRepeated)
      ensures old(name) != 0 ==> name == old(name)
    {
      if LoadsWhole(area, image.width, image.height) {
        ok := Create(image.width, image.height, 0, ids, gl, rule, maxSize);
        if ok {
          Update2D(Some(image.pixels), image.width, image.height, 0, 0, ids, gl);
        }
      } else {
        ok := LoadArea(image, area, ids, gl, rule, maxSize);
      }
    }

    /** The sub-area branch of `loadFromImage`: the area is clamped to the
        image, a texture of its size is created and the rows are uploaded
        one by one. */
    method LoadArea(image: Image, area: IntRect, ids: IdCounter, gl: Driver, rule: SizeRule, maxSize: nat)
      returns (ok: bool)
      requires Valid() && !LoadsWhole(area, image.width, image.height)
      modifies this, ids, gl
      ensures Valid()
      ensures ok <==> CreateAccepts(LoadSize(image, area).x, LoadSize(image, area).y, 0, rule, maxSize)
      ensures !ok ==> unchanged(this) && unchanged(ids) && unchanged(gl)
      ensures ok ==> size == LoadSize(image, area) && !pixelsFlipped && name != 0 &&
                     cacheId == old(ids.next) && ids.next == old(ids.next) + 1
      ensures ok && old(name) == 0 ==> Name(TextureObject, name) !in old(gl.live) &&
                                       gl.live == old(gl.live) + {Name(TextureObject, name)}
      ensures ok ==> exists created :: gl.log == old(gl.log) + created + AreaUploads(image, area, name)
      ensures isSmooth == old(isSmooth) && isRepeated == old(isRepeated)
      ensures old(name) != 0 ==> name == old(name)
    {
      var width: int := image.width;
      var height: int := image.height;
      var rectangle := ClampArea(area, width, height);
      ok := Create(ToUnsigned(rectangle.width), ToUnsigned(rectangle.height), 0, ids, gl, rule, maxSize);
      if ok {
        ghost var created := gl.log[|old(gl.log)|..];
        assert gl.log == old(gl.log) + created;
        var left: nat := rectangle.left;
        var top: nat := rectangle.top;
        UploadArea(gl, name, image.width, left, top, ToUnsigned(rectangle.width), rectangle.height);
        assert gl.log == old(gl.log) + created + AreaUploads(image, area, name);
      }
    }

    /** copyToImage: the texture's pixels as an image, empty without a
        texture or for a 1D or 3D texture. */
    method CopyToImage(readback: seq<uint8>) returns (image: Image)
      requires Valid()
      requires name != 0 && size.y != 0 && size.z == 0 ==> |readback| == actualSize.x * actualSize.y * 4
      ensures image == Snapshot(name, size, actualSize, pixelsFlipped, readback)
    {
      if name == 0 {
        return EmptyImage;
      }
      if size.y == 0 || size.z != 0 {
        return EmptyImage;
      }
      var w, h, aw, ah := size.x, size.y, actualSize.x, actualSize.y;
      if size == actualSize && !pixelsFlipped {
        DirectCopy(readback, w, h, h);
        return Image(w, h, readback);
      }
      var pixels := CopyRows(readback, w, h, aw, ah, pixelsFlipped);
      image := Image(w, h, pixels);
    }

    /** update(texels, width, x) on a 1D texture. */
    method Update1D(texels: Option<seq<uint8>>, width: nat, x: nat, ids: IdCounter, gl: Driver)
      requires size.y == 0 && x + width <= size.x
      modifies this, ids, gl
      ensures texels.Some? && old(name) != 0 ==>
                !pixelsFlipped && cacheId == old(ids.next) && ids.next == old(ids.next) + 1 &&
                gl.log == old(gl.log) + [BindTexture(Texture1D, name), TexSubImage(Texture1D, x, 0, 0, width, 0, 0, 0)]
      ensures texels.None? || old(name) == 0 ==> unchanged(this) && unchanged(ids) && unchanged(gl)
      ensures size == old(size) && actualSize == old(actualSize) && name == old(name)
      ensures isSmooth == old(isSmooth) && isRepeated == old(isRepeated) && gl.live == old(gl.live)
    {
      if texels.Some? && name != 0 {
        gl.Emit(BindTexture(Texture1D, name));
        gl.Emit(TexSubImage(Texture1D, x, 0, 0, width, 0, 0, 0));
        pixelsFlipped := false;
        cacheId := ids.Take();
      }
    }

    /** update(texels, width, height, x, y) on a 2D texture. */
    method Update2D(texels: Option<seq<uint8>>, width: nat, height: nat, x: nat, y: nat, ids: IdCounter, gl: Driver)
      requires size.y != 0 && size.z == 0 && x + width <= size.x && y + height <= size.y
      modifies this, ids, gl
      ensures texels.Some? && old(name) != 0 ==>
                !pixelsFlipped && cacheId == old(ids.next) && ids.next == old(ids.next) + 1 &&
                gl.log == old(gl.log) + [BindTexture(Texture2D, name), TexSubImage(Texture2D, x, y, 0, width, height, 0, 0)]
      ensures texels.None? || old(name) == 0 ==> unchanged(this) && unchanged(ids) && unchanged(gl)
      ensures size == old(size) && actualSize == old(actualSize) && name == old(name)
      ensures isSmooth == old(isSmooth) && isRepeated == old(isRepeated) && gl.live == old(gl.live)
    {
      if texels.Some? && name != 0 {
        gl.Emit(BindTexture(Texture2D, name));
        gl.Emit(TexSubImage(Texture2D, x, y, 0, width, height, 0, 0));
        pixelsFlipped := false;
        cacheId := ids.Take();
      }
    }

    /** update(texels, width, height, depth, x, y, z) on a 3D texture. */
    method Update3D(texels: Option<seq<uint8>>, width: nat, height: nat, depth: nat, x: nat, y: nat, z: nat,
                    ids: IdCounter, gl: Driver)
      requires size.y != 0 && size.z != 0
      requires x + width <= size.x && y + height <= size.y && z + depth <= size.z
      modifies this, ids, gl
      ensures texels.Some? && old(name) != 0 ==>
                !pixelsFlipped && cacheId == old(ids.next) && ids.next == old(ids.next) + 1 &&
                gl.log == old(gl.log) + [BindTexture(Texture3D, name), TexSubImage(Texture3D, x, y, z, width, height, depth, 0)]
      ensures texels.None? || old(name) == 0 ==> unchanged(this) && unchanged(ids) && unchanged(gl)
      ensures size == old(size) && actualSize == old(actualSize) && name == old(name)
      ensures isSmooth == old(isSmooth) && isRepeated == old(isRepeated) && gl.live == old(gl.live)
    {
      if texels.Some? && name != 0 {
        gl.Emit(BindTexture(Texture3D, name));
        gl.Emit(TexSubImage(Texture3D, x, y, z, width, height, depth, 0));
        pixelsFlipped := false;
        cacheId := ids.Take();
      }
    }

    /** update(texels): the whole texture, through the overload of its
        dimensionality; a texture with no size is left alone. */
    method UpdateAll(texels: Option<seq<uint8>>, ids: IdCounter, gl: Driver)
      requires Valid()
      modifies this, ids, gl
      ensures texels.Some? && old(name) != 0 && old(size.x) != 0 ==>
                !pixelsFlipped && cacheId == old(ids.next) && ids.next == old(ids.next) + 1 &&
                gl.log == old(gl.log) + [BindTexture(BoundTarget(size), name),
                                         TexSubImage(BoundTarget(size), 0, 0, 0, size.x, size.y, size.z, 0)]
      ensures texels.None? || old(name) == 0 || old(size.x) == 0 ==> unchanged(this) && unchanged(ids) && unchanged(gl)
      ensures size == old(size) && actualSize == old(actualSize) && name == old(name)
    {
      if size.z != 0 {
        Update3D(texels, size.x, size.y, size.z, 0, 0, 0, ids, gl);
      } else if size.y != 0 {
        Update2D(texels, size.x, size.y, 0, 0, ids, gl);
      } else if size.x != 0 {
        Update1D(texels, size.x, 0, ids, gl);
      }
    }

    /** update(image, x, y); update(image) is the case x = y = 0. */
    method UpdateFromImage(image: Image, x: nat, y: nat, ids: IdCounter, gl: Driver)
      requires size.y != 0 && size.z == 0 && x + image.width <= size.x && y + image.height <= size.y
      modifies this, ids, gl
      ensures old(name) != 0 ==>
                !pixelsFlipped && cacheId == old(ids.next) && ids.next == old(ids.next) + 1 &&
                gl.log == old(gl.log) + [BindTexture(Texture2D, name),
                                         TexSubImage(Texture2D, x, y, 0, image.width, image.height, 0, 0)]
      ensures old(name) == 0 ==> unchanged(this) && unchanged(ids) && unchanged(gl)
    {
      Update2D(Some(image.pixels), image.width, image.height, x, y, ids, gl);
    }

    /** update(window, x, y): copies the window's back buffer; the texture
        then holds bottom-up rows, so its pixels are flagged as flipped. */
    method UpdateFromWindow(windowWidth: nat, windowHeight: nat, activated: bool, x: nat, y: nat,
                            ids: IdCounter, gl: Driver)
      requires size.y != 0 && size.z == 0 && x + windowWidth <= size.x && y + windowHeight <= size.y
      modifies this, ids, gl
      ensures old(name) != 0 && activated ==>
                pixelsFlipped && cacheId == old(ids.next) && ids.next == old(ids.next) + 1 &&
                gl.log == old(gl.log) + [BindTexture(Texture2D, name), CopyTexSubImage(x, y, windowWidth, windowHeight)]
      ensures old(name) == 0 || !activated ==> unchanged(this) && unchanged(ids) && unchanged(gl)
      ensures size == old(size) && name == old(name)
    {
      if name != 0 && activated {
        gl.Emit(BindTexture(Texture2D, name));
        gl.Emit(CopyTexSubImage(x, y, windowWidth, windowHeight));
        pixelsFlipped := true;
        cacheId := ids.Take();
      }
    }

    method SetSmooth(smooth: bool, gl: Driver)
      modifies this, gl
      ensures isSmooth == smooth
      ensures smooth == old(isSmooth) || old(name) == 0 ==> unchanged(gl)
      ensures smooth != old(isSmooth) && old(name) != 0 ==>
                gl.log == old(gl.log) + [BindTexture(BoundTarget(size), name), TexFilter(BoundTarget(size), smooth)]
      ensures size == old(size) && actualSize == old(actualSize) && name == old(name) && isRepeated == old(isRepeated)
      ensures pixelsFlipped == old(pixelsFlipped) && cacheId == old(cacheId) && gl.live == old(gl.live)
    {
      if smooth != isSmooth {
        isSmooth := smooth;
        if name != 0 {
          var target := BoundTarget(size);
          gl.Emit(BindTexture(target, name));
          gl.Emit(TexFilter(target, smooth));
        }
      }
    }

    method SetRepeated(repeated: bool, gl: Driver)
      modifies this, gl
      ensures isRepeated == repeated
      ensures repeated == old(isRepeated) || old(name) == 0 ==> unchanged(gl)
      ensures repeated != old(isRepeated) && old(name) != 0 ==>
                gl.log == old(gl.log) + [BindTexture(BoundTarget(size), name), TexWrap(BoundTarget(size), repeated)]
      ensures size == old(size) && actualSize == old(actualSize) && name == old(name) && isSmooth == old(isSmooth)
      ensures pixelsFlipped == old(pixelsFlipped) && cacheId == old(cacheId) && gl.live == old(gl.live)
    {
      if repeated != isRepeated {
        isRepeated := repeated;
        if name != 0 {
          var target := BoundTarget(size);
          gl.Emit(BindTexture(target, name));
          gl.Emit(TexWrap(target, repeated));
        }
      }
    }

    /** The destructor: the GL texture, if any, is deleted. */
    method Destroy(gl: Driver)
      modifies gl
      ensures old(name) != 0 ==> gl.live == old(gl.live) - {Name(TextureObject, name)} &&
                                 gl.log == old(gl.log) + [DeleteObject(TextureObject, name)]
      ensures old(name) == 0 ==> unchanged(gl)
      ensures gl.program == old(gl.program)
    {
      if name != 0 {
        gl.Delete(TextureObject, name);
      }
    }

    /** operator=: copies `right` into a temporary, swaps every field but the
        cache id with it, takes a fresh cache id, and lets the temporary's
        destructor delete this texture's former GL name. */
    method Assign(right: Texture, readback: seq<uint8>, ids: IdCounter, gl: Driver, rule: SizeRule, maxSize: nat)
      requires right.Valid()
      requires right.name != 0 && right.size.y != 0 && right.size.z == 0 ==>
                 |readback| == right.actualSize.x * right.actualSize.y * 4
      modifies this, ids, gl
      ensures Valid()
      ensures isSmooth == old(right.isSmooth) && isRepeated == old(right.isRepeated) && !pixelsFlipped
      ensures cacheId == ids.next - 1 && ids.next >= old(ids.next) + 2
      ensures old(right.name) == 0 || old(right.size.y) == 0 || old(right.size.z) != 0 ==>
                size == NoSize && name == 0
      ensures old(right.name) != 0 && old(right.size.y) != 0 && old(right.size.z) == 0 ==>
                (name != 0 <==> CreateAccepts(old(right.size.x), old(right.size.y), 0, rule, maxSize)) &&
                (name != 0 ==> size == Size3(old(right.size.x), old(right.size.y), 0) &&
                               actualSize == ActualSize(old(right.size.x), old(right.size.y), 0, rule) &&
                               Name(TextureObject, name) !in old(gl.live))
      ensures gl.live == (old(gl.live) + (if name != 0 then {Name(TextureObject, name)} else {})) -
                         (if old(name) != 0 then {Name(TextureObject, old(name))} else {})
      ensures old(name) != 0 ==> Name(TextureObject, old(name)) !in gl.live
      ensures name != 0 && (old(name) == 0 || Name(TextureObject, old(name)) in old(gl.live)) ==>
                Name(TextureObject, name) in gl.live
    {
      var temp := new Texture.Copy(right, readback, ids, gl, rule, maxSize);
      SwapWith(temp);
      cacheId := ids.Take();
      temp.Destroy(gl);
    }

    /** The `std::swap`s of operator=: every field but the cache id trades
        places with `other`'s. */
    method SwapWith(other: Texture)
      requires other != this
      modifies this, other
      ensures size == old(other.size) && actualSize == old(other.actualSize) && name == old(other.name)
      ensures isSmooth == old(other.isSmooth) && isRepeated == old(other.isRepeated)
      ensures pixelsFlipped == old(other.pixelsFlipped) && cacheId == old(cacheId)
      ensures other.size == old(size) && other.actualSize == old(actualSize) && other.name == old(name)
      ensures other.isSmooth == old(isSmooth) && other.isRepeated == old(isRepeated)
      ensures other.pixelsFlipped == old(pixelsFlipped) && other.cacheId == old(other.cacheId)
    {
      size, other.size := other.size, size;
      actualSize, other.actualSize := other.actualSize, actualSize;
      name, other.name := other.name, name;
      isSmooth, other.isSmooth := other.isSmooth, isSmooth;
      isRepeated, other.isRepeated := other.isRepeated, isRepeated;
      pixelsFlipped, other.pixelsFlipped := other.pixelsFlipped, pixelsFlipped;
    }
  }

  /** The calls of Texture::bind: the texture on the target of its
      dimensionality, or no texture on any target. */
  function BindCalls(texture: Texture?): (calls: seq<Call>)
    reads texture
    ensures texture != null && texture.name != 0 ==> |calls| == 1 && calls[0].BindTexture? && calls[0].name == texture.name
    ensures texture == null || texture.name == 0 ==> |calls| == 3 && forall c :: c in calls ==> c.BindTexture? && c.name == 0
  {
    if texture != null && texture.name != 0 then [BindTexture(BoundTarget(texture.size), texture.name)]
    else [BindTexture(Texture3D, 0), BindTexture(Texture2D, 0), BindTexture(Texture1D, 0)]
  }

  /** Texture::bind (the texture-matrix set-up is not modelled). */
  method Bind(texture: Texture?, gl: Driver)
    modifies gl
    ensures gl.log == old(gl.log) + BindCalls(texture)
    ensures gl.live == old(gl.live) && gl.program == old(gl.program)
  {
    if texture != null && texture.name != 0 {
      gl.Emit(BindTexture(BoundTarget(texture.size), texture.name));
    } else {
      gl.Emit(BindTexture(Texture3D, 0));
      gl.Emit(BindTexture(Texture2D, 0));
      gl.Emit(BindTexture(Texture1D, 0));
    }
  }
}
