/**
 * The pure part of package v4l: the supported pixel format, the format
 * registry, the requested frame format, its set-format payload, the image
 * rectangle and the capture buffer size.
 */
module V4l {
  import opened Wrappers
  import opened Layout
  import opened VideoDev2

  /** A V4L pixel format code (a four-character code read as a little-endian uint32). */
  type Format = uint32

  const PixFmtUYVY: Format := 0x59565955

  /** Read little-endian, the UYVY code is the ASCII text "UYVY". */
  lemma UyvyIsFourCC()
    ensures LittleEndian32(PixFmtUYVY) == ['U' as int, 'Y' as int, 'V' as int, 'Y' as int]
  {
  }

  /** Chroma subsampling ratios of Go's `image.YCbCr`. */
  datatype SubsampleRatio = Ratio444 | Ratio422 | Ratio420 | Ratio440 | Ratio411 | Ratio410

  /** How to decode a pixel format: its size per pixel and its subsampling. */
  datatype ImgInfo = ImgInfo(bitsPerPixel: nat, subsample: SubsampleRatio)

  /** The registry of supported formats, fixed at initialisation. */
  const InfoMap: map<Format, ImgInfo> := map[PixFmtUYVY := ImgInfo(16, Ratio422)]

  /** The registry lookup `infoMap[ff.Format]` with its `ok` flag. */
  function LookupInfo(format: Format): (r: Option<ImgInfo>)
    ensures r.Some? <==> format == PixFmtUYVY
    ensures r.Some? ==> r.value.bitsPerPixel == 16 && r.value.subsample == Ratio422
  {
    if format in InfoMap then Some(InfoMap[format]) else None
  }

  /** The frame format a caller asks for; Go's `int` width and height. */
  datatype FrameFormat = FrameFormat(format: Format, width: int, height: int)

  /** The `v4l2_pix_format` that `req()` fills in: the capture buffer type,
   *  the width, height and pixel format, and zero everywhere else. */
  function PixRequest(ff: FrameFormat): (p: PixFormat)
    ensures p.bufType == 1 && p.pixelformat == ff.format
    ensures p.width == Uint32(ff.width) && p.height == Uint32(ff.height)
    ensures forall f :: f !in {Type, Width, Height, Pixelformat} ==> Get(p, f) == 0
  {
    PixFormat(BufTypeVideoCapture, Uint32(ff.width), Uint32(ff.height), ff.format,
              0, 0, 0, 0, 0, 0)
  }

  /** `FrameFormat.req()`: the set-format payload. */
  function Req(ff: FrameFormat): (payload: seq<byte>)
    ensures |payload| == 40
  {
    AsBytes(PixRequest(ff))
  }

  /** The payload holds the buffer type 1, width, height and pixel format at
   *  offsets 0, 4, 8 and 12, and 24 zero bytes after them. */
  lemma ReqLayout(ff: FrameFormat)
    ensures Req(ff)[0..4] == [1, 0, 0, 0]
    ensures Req(ff)[4..8] == LittleEndian32(Uint32(ff.width))
    ensures Req(ff)[8..12] == LittleEndian32(Uint32(ff.height))
    ensures Req(ff)[12..16] == LittleEndian32(ff.format)
    ensures Req(ff)[16..] == seq(24, _ => 0)
  {
    var p := PixRequest(ff);
    AsBytesHeader(p);
    var fs := Fields(p);
    assert fs == fs[..4] + seq(6, _ => 0);
    EncodeFieldsAppend(fs[..4], seq(6, _ => 0));
    EncodeZeroFields(6);
  }

  /** Parsing the payload recovers exactly what `req()` put in it. */
  lemma ReqRoundTrip(ff: FrameFormat)
    ensures ParsePixFormat(Req(ff)) ==
            PixFormat(1, Uint32(ff.width), Uint32(ff.height), ff.format, 0, 0, 0, 0, 0, 0)
  {
    ParseAsBytes(PixRequest(ff));
  }

  /** Two requests with the same payload ask for the same format, and for the
   *  same width and height as far as 32 bits can tell them apart. */
  lemma ReqInjective(a: FrameFormat, b: FrameFormat)
    requires Req(a) == Req(b)
    ensures a.format == b.format
    ensures Uint32(a.width) == Uint32(b.width) && Uint32(a.height) == Uint32(b.height)
  {
    AsBytesInjective(PixRequest(a), PixRequest(b));
  }

  /** The reference payload for UYVY at 1280x720. */
  lemma ReqUyvy720p()
    ensures Req(FrameFormat(PixFmtUYVY, 1280, 720)) ==
            [0x01, 0x00, 0x00, 0x00, 0x00, 0x05, 0x00, 0x00,
             0xD0, 0x02, 0x00, 0x00, 0x55, 0x59, 0x56, 0x59] + seq(24, _ => 0)
  {
    var ff := FrameFormat(PixFmtUYVY, 1280, 720);
    ReqLayout(ff);
    var r := Req(ff);
    assert r == r[0..4] + r[4..8] + r[8..12] + r[12..16] + r[16..];
  }

  datatype Point = Point(x: int, y: int)

  /** Go's `image.Rectangle`: the points with `min.x <= x < max.x`, `min.y <= y < max.y`. */
  datatype Rectangle = Rectangle(min: Point, max: Point) {
    function Dx(): int { max.x - min.x }
    function Dy(): int { max.y - min.y }
  }

  /** Go's `image.Rect`: the corners are swapped where needed so that min <= max. */
  function Rect(x0: int, y0: int, x1: int, y1: int): (r: Rectangle)
    ensures r.min.x <= r.max.x && r.min.y <= r.max.y
    ensures {r.min.x, r.max.x} == {x0, x1} && {r.min.y, r.max.y} == {y0, y1}
  {
    var (lx, hx) := if x0 > x1 then (x1, x0) else (x0, x1);
    var (ly, hy) := if y0 > y1 then (y1, y0) else (y0, y1);
    Rectangle(Point(lx, ly), Point(hx, hy))
  }

  /** The bounds `Stream` gives every decoded image: `Rect(0, 0, Width, Height)`. */
  function FrameRect(ff: FrameFormat): (r: Rectangle)
    ensures r.min.x <= 0 <= r.max.x && r.min.y <= 0 <= r.max.y
    ensures r.Dx() == (if ff.width >= 0 then ff.width else -ff.width)
    ensures r.Dy() == (if ff.height >= 0 then ff.height else -ff.height)
  {
    Rect(0, 0, ff.width, ff.height)
  }

  /** A decoded image is exactly as wide and as tall as the requested format. */
  lemma FrameRectSize(ff: FrameFormat)
    requires ff.width >= 0 && ff.height >= 0
    ensures FrameRect(ff).min == Point(0, 0)
    ensures FrameRect(ff).Dx() == ff.width && FrameRect(ff).Dy() == ff.height
  {
  }

  /** `imageSize`: `bitsPerPixel / 8 * Width * Height` bytes per captured frame. */
  function ImageSize(info: ImgInfo, ff: FrameFormat): (n: int)
    ensures ff.width >= 0 && ff.height >= 0 ==> n >= 0
    ensures n == 0 <==> info.bitsPerPixel < 8 || ff.width == 0 || ff.height == 0
  {
    info.bitsPerPixel / 8 * ff.width * ff.height
  }

  /** For UYVY a frame takes two bytes per pixel. */
  lemma UyvyImageSize(ff: FrameFormat)
    requires ff.format == PixFmtUYVY
    ensures LookupInfo(ff.format).Some?
    ensures ImageSize(LookupInfo(ff.format).value, ff) == 2 * ff.width * ff.height
  {
  }
}
