/**
 * The constants and the one control structure as videodev2.go declares
 * them: the capture buffer type, the set-format request code and
 * `v4l2_pix_format`, ten `uint32` fields in this order. The record is the
 * `type` field of the kernel's `struct v4l2_format` followed by pixel-format
 * fields; 0x5605 is the low 16 bits of the kernel header's `VIDIOC_S_FMT`.
 */
module VideoDev2 {
  import opened Layout

  const BufTypeVideoCapture: uint32 := 1

  /** The package's set-format request code: group 'V', number 5. */
  const VidiocSFmt: nat := 0x5605

  /** The set-format code is the group letter shifted left by 8, or'ed with 5. */
  lemma VidiocSFmtIsGroupVNumber5()
    ensures VidiocSFmt == ((('V' as int) as bv16 << 8) | 5) as int
  {
  }

  datatype PixFormat = PixFormat(
    bufType: uint32, width: uint32, height: uint32, pixelformat: uint32, field: uint32,
    bytesperline: uint32, sizeimage: uint32, colorspace: uint32, priv: uint32, flags: uint32)

  /** The names of the fields of `v4l2_pix_format`, in declaration order. */
  datatype PixField =
    | Type | Width | Height | Pixelformat | Field
    | Bytesperline | Sizeimage | Colorspace | Priv | Flags

  /** The position of a field in the declaration. */
  function Index(f: PixField): (i: nat)
    ensures i < 10
  {
    match f
    case Type => 0
    case Width => 1
    case Height => 2
    case Pixelformat => 3
    case Field => 4
    case Bytesperline => 5
    case Sizeimage => 6
    case Colorspace => 7
    case Priv => 8
    case Flags => 9
  }

  /** Distinct fields sit at distinct positions. */
  lemma IndexInjective(f: PixField, g: PixField)
    requires Index(f) == Index(g)
    ensures f == g
  {
  }

  /** The value of field `f` of `p`. */
  function Get(p: PixFormat, f: PixField): (v: uint32)
  {
    match f
    case Type => p.bufType
    case Width => p.width
    case Height => p.height
    case Pixelformat => p.pixelformat
    case Field => p.field
    case Bytesperline => p.bytesperline
    case Sizeimage => p.sizeimage
    case Colorspace => p.colorspace
    case Priv => p.priv
    case Flags => p.flags
  }

  /** The fields in declaration order: position `Index(f)` holds field `f`. */
  function Fields(p: PixFormat): (fs: seq<uint32>)
    ensures |fs| == 10
    ensures forall f :: fs[Index(f)] == Get(p, f)
  {
    [p.bufType, p.width, p.height, p.pixelformat, p.field,
     p.bytesperline, p.sizeimage, p.colorspace, p.priv, p.flags]
  }

  /** The record whose fields, in declaration order, are `fs`. */
  function FromFields(fs: seq<uint32>): (p: PixFormat)
    requires |fs| == 10
    ensures Fields(p) == fs
  {
    PixFormat(fs[0], fs[1], fs[2], fs[3], fs[4], fs[5], fs[6], fs[7], fs[8], fs[9])
  }

  /** The encoder standing for `asBytes`, applied to `v4l2_pix_format`. */
  function AsBytes(p: PixFormat): (bytes: seq<byte>)
    ensures |bytes| == 40
  {
    EncodeFields(Fields(p))
  }

  /** Reads a 40-byte payload back into the record. */
  function ParsePixFormat(bytes: seq<byte>): (p: PixFormat)
    requires |bytes| == 40
    ensures AsBytes(p) == bytes
  {
    EncodeDecodeFields(bytes);
    FromFields(DecodeFields(bytes))
  }

  /** Field `f` occupies bytes `[4 * Index(f), 4 * Index(f) + 4)`, little-endian. */
  lemma AsBytesField(p: PixFormat, f: PixField)
    ensures |AsBytes(p)| == 40
    ensures AsBytes(p)[4 * Index(f) .. 4 * Index(f) + 4] == LittleEndian32(Get(p, f))
  {
    EncodeFieldsAt(Fields(p), Index(f));
  }

  /** The Type, Width, Height and Pixelformat fields are at offsets 0, 4, 8 and 12. */
  lemma AsBytesHeader(p: PixFormat)
    ensures AsBytes(p)[0..4] == LittleEndian32(p.bufType)
    ensures AsBytes(p)[4..8] == LittleEndian32(p.width)
    ensures AsBytes(p)[8..12] == LittleEndian32(p.height)
    ensures AsBytes(p)[12..16] == LittleEndian32(p.pixelformat)
  {
    AsBytesField(p, Type);
    AsBytesField(p, Width);
    AsBytesField(p, Height);
    AsBytesField(p, Pixelformat);
  }

  /** Parsing the encoding gives back the record. */
  lemma ParseAsBytes(p: PixFormat)
    ensures ParsePixFormat(AsBytes(p)) == p
  {
    DecodeEncodeFields(Fields(p));
  }

  /** The layout is injective: different records never share a payload. */
  lemma AsBytesInjective(p: PixFormat, q: PixFormat)
    requires AsBytes(p) == AsBytes(q)
    ensures p == q
  {
    ParseAsBytes(p);
    ParseAsBytes(q);
  }
}
