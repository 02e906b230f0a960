# v4l: a Dafny model of the Video4Linux capture core

This project models the core of the Go package `v4l`, which captures frames
from a Linux video device by issuing V4L2 control calls itself. It covers:

- an encoder standing for `asBytes`, which the package calls but does not
  define here: `uint32` fields written little-endian, four bytes each, in
  declaration order, with no padding (module `Layout`);
- the constants and the `v4l2_pix_format` record as videodev2.go declares
  them (module `VideoDev2`). The record is the `type` field of the kernel's
  `struct v4l2_format` followed by pixel-format fields, and 0x5605 is the
  low 16 bits of the kernel header's `VIDIOC_S_FMT`;
- the pixel format `V4L2_PIX_FMT_UYVY`, the format registry `infoMap`, the
  requested `FrameFormat`, its set-format payload `req()`, the image bounds
  and `imageSize` (module `V4l`);
- `frameToImage`, the UYVY decoder, as a loop over three plane arrays, with
  an independent packing function as its inverse (module `FrameDecode`);
- the offset arithmetic of `allocPageAligned`, over an abstract address
  (module `PageAlign`);
- the `Device` class with `Open`, `Close` and the checks and control calls
  of `Stream` (module `V4lDevice`).

The operating system is outside the model. The result of `os.Open` is a
parameter (`Result<File, nat>`). Each control call's error number is a
parameter too, 0 meaning success, as `ioctl` reports it. The start address
of an allocation and the page size are numbers given to `PageAlign`. A ghost
field `ioctls` logs the control calls a `Device` has issued. This log makes
"no control call before the format is accepted" something a contract can say.

Behaviour of the code worth noting (the model follows it):

- `Close` clears the file but not the stream channel, so after a stream has
  started, `Stream` on the closed device reports "already running", not
  "not open".
- The package comment at v4l.go:74 says it is an error to call `Stream` on a
  Device more than once. The code does not enforce this after a failed
  control call: the channel stays unset, so a later `Stream` on the same
  device can succeed.
- The capture loop allocates its frame with `make` (v4l.go:106), so
  `allocPageAligned` is not called from `Stream`. The page-aligned allocator
  is modelled on its own.

## Model

| member | source | states |
|---|---|---|
| Layout.Uint32 | v4l.go:176-177 | Go's `uint32(int)` keeps the low 32 bits: identity on `[0, 2^32)`, congruent modulo 2^32 everywhere |
| Layout.LittleEndian32 | videodev2.go:11-12 | a `uint32` is written as four bytes, least significant first, whose base-256 value is the field |
| Layout.FromLittleEndian32 | videodev2.go:11-12 | reading four bytes back keeps the first byte as the low byte |
| Layout.LittleEndian32RoundTrip | videodev2.go:11-12 | reading back the four bytes of a field gives the field |
| Layout.FromLittleEndian32RoundTrip | videodev2.go:11-12 | every four-byte sequence is the encoding of the value read from it |
| Layout.LittleEndian32Injective | videodev2.go:11-12 | distinct field values have distinct encodings |
| Layout.EncodeFields | videodev2.go:10-13 | the encoding of n `uint32` fields is exactly 4n bytes: no padding |
| Layout.DecodeFields | videodev2.go:10-13 | reading 4-byte fields back gives one field per four bytes |
| Layout.EncodeFieldsAt | videodev2.go:10-13 | field i occupies bytes `[4i, 4i+4)` of the encoding, little-endian |
| Layout.EncodeFieldsAppend | videodev2.go:10-13 | encoding is contiguous: the encoding of a concatenation is the concatenation of the encodings |
| Layout.DecodeEncodeFields | videodev2.go:10-13 | decoding the encoding gives back the fields |
| Layout.EncodeDecodeFields | videodev2.go:10-13 | every whole number of 4-byte fields is the encoding of what it decodes to |
| Layout.EncodeFieldsInjective | videodev2.go:10-13 | two field lists with the same encoding are equal |
| Layout.EncodeZeroFields | v4l.go:174-179 | fields left at zero encode as zero bytes |
| VideoDev2.VidiocSFmtIsGroupVNumber5 | videodev2.go:8 | the set-format code 0x5605 is 'V' shifted left by 8 bits, or'ed with 5 |
| VideoDev2.Index | videodev2.go:11-12 | the ten fields of `v4l2_pix_format` have positions 0 to 9 |
| VideoDev2.IndexInjective | videodev2.go:11-12 | no two fields share a position |
| VideoDev2.Fields | videodev2.go:11-12 | the record lists exactly ten `uint32` fields, each at its declaration position |
| VideoDev2.FromFields | videodev2.go:10-13 | building the record from ten fields and listing it again gives back the ten fields |
| VideoDev2.AsBytes | videodev2.go:10-13 | the encoded `v4l2_pix_format` payload is 40 bytes |
| VideoDev2.ParsePixFormat | videodev2.go:10-13 | every 40-byte payload is the encoding of the record parsed from it |
| VideoDev2.AsBytesField | videodev2.go:10-13 | each field f lies at bytes `[4*Index(f), 4*Index(f)+4)` of the payload |
| VideoDev2.AsBytesHeader | videodev2.go:11 | Type, Width, Height and Pixelformat sit at offsets 0, 4, 8 and 12 |
| VideoDev2.ParseAsBytes | videodev2.go:10-13 | parsing the payload gives back the record |
| VideoDev2.AsBytesInjective | videodev2.go:10-13 | different records have different payloads |
| V4l.UyvyIsFourCC | v4l.go:22 | the code 0x59565955 is the ASCII bytes 'U','Y','V','Y' read little-endian |
| V4l.LookupInfo | v4l.go:30-32 | the registry holds exactly one format: UYVY, 16 bits per pixel, 4:2:2 subsampling |
| V4l.PixRequest | v4l.go:174-179 | the record `req()` fills in has Type 1, the width and height converted to `uint32`, the given pixel format, and every other field zero |
| V4l.Req | v4l.go:173-180 | `req()` yields a 40-byte payload |
| V4l.ReqLayout | v4l.go:173-180 | the payload holds buffer type 1, the width, the height and the pixel format at offsets 0, 4, 8, 12, and 24 zero bytes after them |
| V4l.ReqRoundTrip | v4l.go:173-180 | the payload parses to Type=1, Width, Height and Pixelformat as given, every other field zero |
| V4l.ReqInjective | v4l.go:173-180 | two requests with the same payload have the same format and the same width and height modulo 2^32 |
| V4l.ReqUyvy720p | v4l.go:173-180 | UYVY at 1280x720 encodes as `01 00 00 00 00 05 00 00 D0 02 00 00 55 59 56 59` and 24 zero bytes |
| V4l.Rect | v4l.go:86 | `image.Rect` orders its corners so that min <= max, keeping the given coordinates |
| V4l.FrameRect | v4l.go:86 | the bounds `Rect(0, 0, Width, Height)` contain the origin and are as wide and as tall as the absolute values of Width and Height |
| V4l.FrameRectSize | v4l.go:86 | for a non-negative width and height the image bounds start at (0,0) and are Width wide and Height tall |
| V4l.ImageSize | v4l.go:91 | `imageSize` is non-negative for a non-negative width and height, and zero exactly when a pixel has under 8 bits or the width or height is zero |
| V4l.UyvyImageSize | v4l.go:91 | for UYVY, `imageSize` is 2 x Width x Height bytes |
| FrameDecode.Luma | v4l.go:149-153 | the luma plane has one sample per two frame bytes |
| FrameDecode.BlueChroma | v4l.go:148-152 | the Cb plane has one sample per four-byte group |
| FrameDecode.RedChroma | v4l.go:150-152 | the Cr plane has one sample per four-byte group |
| FrameDecode.DecodedGroup | v4l.go:147-154 | group k gives `Cb[k]=frame[4k]`, `Y[2k]=frame[4k+1]`, `Cr[k]=frame[4k+2]`, `Y[2k+1]=frame[4k+3]` |
| FrameDecode.Pack | v4l.go:143-145 | the UYVY packing of three planes is four bytes per chroma pair |
| FrameDecode.PackLumaAt | v4l.go:149-151 | byte 2j+1 of a packed frame is luma sample j |
| FrameDecode.PackChromaAt | v4l.go:148-150 | bytes 4k and 4k+2 of a packed frame are Cb[k] and Cr[k] |
| FrameDecode.DecodePack | v4l.go:143-154 | decoding a packed frame gives back the three planes |
| FrameDecode.PackDecode | v4l.go:143-154 | packing the decoded planes gives back any frame of whole groups: decoding loses nothing |
| FrameDecode.Iterations | v4l.go:147 | the loop `for i := 0; i < len(frame); i += 4` runs once for each multiple of 4 below the frame length |
| FrameDecode.DecodeInBoundsIff | v4l.go:147-153 | every access of the loop is in bounds if and only if `len(frame) % 4 == 0`, `len(Y) >= len(frame)/2` and `len(Cb), len(Cr) >= len(frame)/4` |
| FrameDecode.FrameToImage | v4l.go:142-155 | the loop sets the first `len/2` luma and `len/4` chroma samples from the frame and leaves the rest of each plane unchanged |
| FrameDecode.DecodeCountingFrame | v4l.go:147-154 | the 24-byte frame 0..23 decodes with `Y[11]=23`, `Cb[5]=20`, `Cr[5]=22` |
| FrameDecode.UyvyFrameFillsPlanes | v4l.go:91 | an `imageSize` UYVY frame of even width is whole groups and fills W x H luma and (W/2) x H chroma samples |
| FrameDecode.UyvyOddFrameOutOfBounds | v4l.go:147-153 | when W x H is odd, the decoder reads past the end of an `imageSize` frame whatever the plane sizes |
| PageAlign.ToNextPage | v4l.go:204-206 | `toNextPage` lies in `[1, pageSize]`, lands on a page boundary, and no boundary lies strictly before it |
| PageAlign.NextBoundary | v4l.go:206 | `pageSize - addr % pageSize` bytes past `addr` is the next page boundary |
| PageAlign.AllocPageAligned | v4l.go:200-213 | the inner slice lies inside the `size+pageSize` outer allocation, has length `size` (0 included) and starts on a page boundary |
| V4lDevice.IoctlResult | v4l.go:187-193 | a control call fails exactly when its error number is non-zero, and then reports that number |
| V4lDevice.Device.constructor | v4l.go:50 | a new device holds its path and file, has no stream channel and has issued no control call |
| V4lDevice.Device.Open | v4l.go:49-53 | a device is always returned; it holds the file when opening succeeded, and otherwise no file and the open error |
| V4lDevice.Device.Close | v4l.go:58-61 | the file is forgotten and the stream channel is kept |
| V4lDevice.Device.Stream | v4l.go:78-103 | checks run in the order running stream, open file, supported format, set-format call, request-buffers call; each failure returns its error and leaves the channel as it was; the channel is set only when both calls succeed; no control call is issued before the format is accepted |
| V4lDevice.Device.SetFormatCall | v4l.go:167-169 | issues `VIDIOC_S_FMT` with the payload of `req()` on the device's descriptor |
| V4lDevice.Device.SetUserptrCall | v4l.go:158-164 | issues the request-buffers call on the device's descriptor |
| V4lDevice.StreamCloseStream | v4l.go:58-84 | once a stream has started, a second `Stream` reports "already running", also after `Close` |
| V4lDevice.RetryAfterSetFormatError | v4l.go:94-103 | a failed set-format call returns its error and leaves the device able to start a stream later |
| V4lDevice.StreamUnopened | v4l.go:49-84 | a device whose file did not open reports the open error, and `Stream` on it reports "not open" |

## Left out

- The capture goroutine (v4l.go:104-136): enqueue and dequeue calls, the blocking dequeue, the channel send, `close(dev.ch)` and the WaitGroup. This is concurrency and system calls. The model stops at the point where `ch` becomes set.
- V4lDevice.Device.Close: `dev.wg.Wait()` is not modelled, because the worker is not modelled. The call to `dev.f.Close()` is not modelled either, because it is I/O and its error is dropped.
- `ioctl`, `where`, `os.Open` and `os.Getpagesize` are system calls and unsafe pointer reads. Their results are parameters.
- `asBytes` is called at v4l.go:113, 162 and 179 but defined in neither v4l.go nor videodev2.go. Layout.EncodeFields is this model's definition of it: little-endian, declaration order, no padding, which is the kernel ABI's layout on a little-endian machine. Every payload fact (V4l.ReqLayout, V4l.ReqUyvy720p, VideoDev2.AsBytesField) rests on that definition.
- The layouts of `v4l2_buffer` and `v4l2_requestbuffers` are not modelled, and neither are the codes of the other control calls: none of them is defined in videodev2.go. The request-buffers call is logged without a payload.
- Whether the declared `v4l2_pix_format` matches the kernel's `struct v4l2_format` on a given architecture is not part of this model. The model fixes the layout as declared.
- The driver may write an adjusted format back into the set-format payload. The source ignores that reply, and the model does too.
- FrameDecode.FrameToImage: the model takes the plane lengths and their disjointness as preconditions. Its `requires |frame| % 4 == 0` excludes the index-out-of-range panic at v4l.go:150-151; that panic is modelled by FrameDecode.DecodeInBoundsIff and FrameDecode.UyvyOddFrameOutOfBounds. `image.NewYCbCr`, which allocates the three planes as disjoint parts of one buffer with its own rounding for odd widths, is not modelled.
- V4l.ImageSize: Go's 64-bit `int` is modelled as an unbounded integer here, so an overflowing `bitsPerPixel/8 * Width * Height` is not modelled. The value only sizes the goroutine's allocation.
- PageAlign.AllocPageAligned: the size is a `nat` and the page size is positive. A negative size panics: in `make` when size+pageSize < 0, otherwise in the reslice at v4l.go:210. A zero page size makes the `%` panic.
- snapshot/main.go is not part of this model: it parses command-line flags, encodes PNG files and writes output.
