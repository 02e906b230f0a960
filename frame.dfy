/**
 * `frameToImage`: decoding a packed UYVY frame into Y, Cb and Cr planes.
 * Each 4-byte group of the frame is {Cb, Y0, Cr, Y1} for two horizontally
 * adjacent pixels that share one chroma pair.
 */
module FrameDecode {
  import opened Layout
  import opened V4l

  /** The luma samples: the odd-numbered bytes of the frame. */
  function Luma(frame: seq<byte>): (y: seq<byte>)
    ensures |y| == |frame| / 2
  {
    seq(|frame| / 2, j requires 0 <= j < |frame| / 2 => frame[2 * j + 1])
  }

  /** The blue-difference samples: the first byte of each group. */
  function BlueChroma(frame: seq<byte>): (cb: seq<byte>)
    ensures |cb| == |frame| / 4
  {
    seq(|frame| / 4, k requires 0 <= k < |frame| / 4 => frame[4 * k])
  }

  /** The red-difference samples: the third byte of each group. */
  function RedChroma(frame: seq<byte>): (cr: seq<byte>)
    ensures |cr| == |frame| / 4
  {
    seq(|frame| / 4, k requires 0 <= k < |frame| / 4 => frame[4 * k + 2])
  }

  /** Group `k` of the frame lands in Cb[k], Y[2k], Cr[k] and Y[2k+1]. */
  lemma DecodedGroup(frame: seq<byte>, k: nat)
    requires |frame| % 4 == 0 && k < |frame| / 4
    ensures BlueChroma(frame)[k] == frame[4 * k]
    ensures Luma(frame)[2 * k] == frame[4 * k + 1]
    ensures RedChroma(frame)[k] == frame[4 * k + 2]
    ensures Luma(frame)[2 * k + 1] == frame[4 * k + 3]
  {
  }

  /** The UYVY packing of three planes, the inverse of decoding. */
  function Pack(y: seq<byte>, cb: seq<byte>, cr: seq<byte>): (frame: seq<byte>)
    requires |y| == 2 * |cb| && |cr| == |cb|
    ensures |frame| == 4 * |cb|
  {
    seq(4 * |cb|, i requires 0 <= i < 4 * |cb| =>
      if i % 2 == 1 then y[i / 2] else if i % 4 == 0 then cb[i / 4] else cr[i / 4])
  }

  /** Byte `2j + 1` of a packed frame is luma sample `j`. */
  lemma PackLumaAt(y: seq<byte>, cb: seq<byte>, cr: seq<byte>, j: nat)
    requires |y| == 2 * |cb| && |cr| == |cb| && j < |y|
    ensures Pack(y, cb, cr)[2 * j + 1] == y[j]
  {
    var i := 2 * j + 1;
    assert i % 2 == 1 && i / 2 == j;
  }

  /** Bytes `4k` and `4k + 2` of a packed frame are chroma pair `k`. */
  lemma PackChromaAt(y: seq<byte>, cb: seq<byte>, cr: seq<byte>, k: nat)
    requires |y| == 2 * |cb| && |cr| == |cb| && k < |cb|
    ensures Pack(y, cb, cr)[4 * k] == cb[k] && Pack(y, cb, cr)[4 * k + 2] == cr[k]
  {
    var i := 4 * k;
    assert i % 2 == 0 && i % 4 == 0 && i / 4 == k;
    assert (i + 2) % 2 == 0 && (i + 2) % 4 == 2 && (i + 2) / 4 == k;
  }

  /** Decoding a packed frame gives back the three planes. */
  lemma DecodePack(y: seq<byte>, cb: seq<byte>, cr: seq<byte>)
    requires |y| == 2 * |cb| && |cr| == |cb|
    ensures Luma(Pack(y, cb, cr)) == y
    ensures BlueChroma(Pack(y, cb, cr)) == cb
    ensures RedChroma(Pack(y, cb, cr)) == cr
  {
    var f := Pack(y, cb, cr);
    forall j | 0 <= j < |y| ensures Luma(f)[j] == y[j] {
      PackLumaAt(y, cb, cr, j);
    }
    forall k | 0 <= k < |cb| ensures BlueChroma(f)[k] == cb[k] && RedChroma(f)[k] == cr[k] {
      PackChromaAt(y, cb, cr, k);
    }
  }

  /** Packing the decoded planes gives back the frame: decoding loses nothing. */
  lemma PackDecode(frame: seq<byte>)
    requires |frame| % 4 == 0
    ensures Pack(Luma(frame), BlueChroma(frame), RedChroma(frame)) == frame
  {
    var p := Pack(Luma(frame), BlueChroma(frame), RedChroma(frame));
    forall i | 0 <= i < |frame| ensures p[i] == frame[i] {
      if i % 2 == 1 {
        assert 2 * (i / 2) + 1 == i;
      } else if i % 4 == 0 {
        assert 4 * (i / 4) == i;
      } else {
        assert 4 * (i / 4) + 2 == i;
      }
    }
  }

  /** Whether the accesses of loop iteration `k` (frame[4k..4k+3], Cb[k], Y[2k],
   *  Cr[k], Y[2k+1]) are all in bounds. */
  predicate GroupInBounds(k: nat, frameLen: nat, yLen: nat, cbLen: nat, crLen: nat)
  {
    4 * k + 3 < frameLen && 2 * k + 1 < yLen && k < cbLen && k < crLen
  }

  /** The iterations `i = 0, 4, 8, ... < frameLen` of the decoding loop. */
  function Iterations(frameLen: nat): (n: nat)
    ensures 4 * n >= frameLen && (n > 0 ==> 4 * (n - 1) < frameLen)
  {
    (frameLen + 3) / 4
  }

  /** Whether every access of the decoding loop is in bounds. */
  predicate DecodeInBounds(frameLen: nat, yLen: nat, cbLen: nat, crLen: nat)
  {
    forall k: nat :: k < Iterations(frameLen) ==> GroupInBounds(k, frameLen, yLen, cbLen, crLen)
  }

  /** The decoding loop stays in bounds exactly when the frame is a whole
   *  number of groups and the planes hold at least |frame|/2 luma and
   *  |frame|/4 chroma samples each. */
  lemma DecodeInBoundsIff(frameLen: nat, yLen: nat, cbLen: nat, crLen: nat)
    ensures DecodeInBounds(frameLen, yLen, cbLen, crLen) <==>
            frameLen % 4 == 0 && yLen >= frameLen / 2 && cbLen >= frameLen / 4 && crLen >= frameLen / 4
  {
    var n := Iterations(frameLen);
    if DecodeInBounds(frameLen, yLen, cbLen, crLen) && n > 0 {
      assert GroupInBounds(n - 1, frameLen, yLen, cbLen, crLen);
    }
  }

  /** `frameToImage`: fills the first |frame|/2 luma and |frame|/4 chroma
   *  samples of the planes from the frame and leaves the rest as they were. */
  method FrameToImage(frame: seq<byte>, Y: array<byte>, Cb: array<byte>, Cr: array<byte>)
    requires |frame| % 4 == 0
    requires Y.Length >= |frame| / 2 && Cb.Length >= |frame| / 4 && Cr.Length >= |frame| / 4
    requires Y != Cb && Y != Cr && Cb != Cr
    modifies Y, Cb, Cr
    ensures Y[..] == Luma(frame) + old(Y[..])[|frame| / 2..]
    ensures Cb[..] == BlueChroma(frame) + old(Cb[..])[|frame| / 4..]
    ensures Cr[..] == RedChroma(frame) + old(Cr[..])[|frame| / 4..]
  {
    var y, br := 0, 0;
    var i := 0;
    while i < |frame|
      invariant i % 4 == 0 && i <= |frame|
      invariant y == i / 2 && br == i / 4
      invariant forall j :: 0 <= j < y ==> Y[j] == frame[2 * j + 1]
      invariant forall k :: 0 <= k < br ==> Cb[k] == frame[4 * k]
      invariant forall k :: 0 <= k < br ==> Cr[k] == frame[4 * k + 2]
      invariant forall j :: y <= j < Y.Length ==> Y[j] == old(Y[j])
      invariant forall k :: br <= k < Cb.Length ==> Cb[k] == old(Cb[k])
      invariant forall k :: br <= k < Cr.Length ==> Cr[k] == old(Cr[k])
    {
      Cb[br] := frame[i + 0];
      Y[y] := frame[i + 1];
      Cr[br] := frame[i + 2];
      Y[y + 1] := frame[i + 3];
      br := br + 1;
      y := y + 2;
      i := i + 4;
    }
  }

  /** The 24-byte frame 0, 1, ..., 23 of a 4x3 image: its last luma sample is
   *  23, its last Cb sample 20 and its last Cr sample 22. */
  method DecodeCountingFrame() returns (lastY: byte, lastCb: byte, lastCr: byte)
    ensures lastY == 23 && lastCb == 20 && lastCr == 22
  {
    var frame: seq<byte> := seq(24, (i: nat) requires i < 24 => i);
    var Y := new byte[12];
    var Cb := new byte[6];
    var Cr := new byte[6];
    FrameToImage(frame, Y, Cb, Cr);
    assert Y[..][11] == Luma(frame)[11];
    assert Cb[..][5] == BlueChroma(frame)[5];
    assert Cr[..][5] == RedChroma(frame)[5];
    lastY, lastCb, lastCr := Y[11], Cb[5], Cr[5];
  }

  /** A UYVY frame of `imageSize` bytes for an even width fills a luma plane
   *  of Width x Height samples and chroma planes of (Width/2) x Height. */
  lemma UyvyFrameFillsPlanes(ff: FrameFormat)
    requires ff.format == PixFmtUYVY
    requires ff.width >= 0 && ff.height >= 0 && ff.width % 2 == 0
    ensures var n := ImageSize(LookupInfo(ff.format).value, ff);
            n >= 0 && n % 4 == 0 && n / 2 == ff.width * ff.height && n / 4 == ff.width / 2 * ff.height
  {
    var w, h := ff.width, ff.height;
    var m := w / 2;
    var n := ImageSize(LookupInfo(ff.format).value, ff);
    assert n == 2 * w * h;
    assert w == 2 * m;
    assert n == 4 * (m * h) by {
      assert 2 * w * h == 2 * (2 * m) * h == 4 * (m * h);
    }
    assert w * h == 2 * (m * h) by {
      assert w * h == (2 * m) * h;
    }
    assert m * h >= 0;
  }

  /** When Width x Height is odd, a UYVY frame of `imageSize` bytes ends in half
   *  a group, and decoding it reads past its end whatever the plane sizes. */
  lemma UyvyOddFrameOutOfBounds(ff: FrameFormat, yLen: nat, cbLen: nat, crLen: nat)
    requires ff.format == PixFmtUYVY
    requires ff.width >= 0 && ff.height >= 0 && (ff.width * ff.height) % 2 == 1
    ensures !DecodeInBounds(ImageSize(LookupInfo(ff.format).value, ff), yLen, cbLen, crLen)
  {
    var p := ff.width * ff.height;
    var n := ImageSize(LookupInfo(ff.format).value, ff);
    assert n == 2 * p by {
      assert 2 * ff.width * ff.height == 2 * (ff.width * ff.height);
    }
    assert n % 4 == 2;
    DecodeInBoundsIff(n, yLen, cbLen, crLen);
  }
}
