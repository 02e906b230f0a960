/**
 * The encoder standing for `asBytes`, which the package calls but does not
 * define in the files modelled here: unsigned 32-bit fields are written
 * little-endian, four bytes each, contiguously and in declaration order,
 * with no padding, as the kernel ABI lays them out on a little-endian machine.
 */
module Layout {

  type byte = b: int | 0 <= b < 0x100
  type uint32 = x: int | 0 <= x < 0x1_0000_0000

  /** Go's conversion `uint32(x)` of an `int`: it keeps the low 32 bits. */
  function Uint32(x: int): (r: uint32)
    ensures 0 <= x < 0x1_0000_0000 ==> r == x
    ensures (x - r) % 0x1_0000_0000 == 0
  {
    x % 0x1_0000_0000
  }

  /** The four little-endian bytes of `x`, least significant first. */
  function LittleEndian32(x: uint32): (r: seq<byte>)
    ensures |r| == 4
    ensures x == r[0] as int + 0x100 * (r[1] as int + 0x100 * (r[2] as int + 0x100 * r[3] as int))
  {
    var q1 := x / 0x100;
    var q2 := q1 / 0x100;
    var q3 := q2 / 0x100;
    [x % 0x100, q1 % 0x100, q2 % 0x100, q3]
  }

  /** Reads four little-endian bytes back into a 32-bit value. */
  function FromLittleEndian32(b: seq<byte>): (x: uint32)
    requires |b| == 4
    ensures x % 0x100 == b[0]
  {
    b[0] as int + 0x100 * (b[1] as int + 0x100 * (b[2] as int + 0x100 * b[3] as int))
  }

  lemma DivModByte(lo: int, hi: int)
    requires 0 <= lo < 0x100
    ensures (lo + 0x100 * hi) % 0x100 == lo
    ensures (lo + 0x100 * hi) / 0x100 == hi
  {
  }

  lemma LittleEndian32RoundTrip(x: uint32)
    ensures FromLittleEndian32(LittleEndian32(x)) == x
  {
  }

  lemma {:induction false} FromLittleEndian32RoundTrip(b: seq<byte>)
    requires |b| == 4
    ensures LittleEndian32(FromLittleEndian32(b)) == b
  {
    var r2: int := b[2] as int + 0x100 * b[3] as int;
    var r1: int := b[1] as int + 0x100 * r2;
    var x: int := b[0] as int + 0x100 * r1;
    DivModByte(b[0], r1);
    DivModByte(b[1], r2);
    DivModByte(b[2], b[3]);
    assert x == FromLittleEndian32(b);
  }

  /** Each value has exactly one four-byte encoding. */
  lemma LittleEndian32Injective(x: uint32, y: uint32)
    requires LittleEndian32(x) == LittleEndian32(y)
    ensures x == y
  {
    LittleEndian32RoundTrip(x);
    LittleEndian32RoundTrip(y);
  }

  /** The encoder standing for `asBytes`, for a record whose fields are all `uint32`. */
  function EncodeFields(fields: seq<uint32>): (bytes: seq<byte>)
    ensures |bytes| == 4 * |fields|
  {
    if fields == [] then [] else LittleEndian32(fields[0]) + EncodeFields(fields[1..])
  }

  /** Reads back a sequence of 4-byte little-endian fields. */
  function DecodeFields(bytes: seq<byte>): (fields: seq<uint32>)
    requires |bytes| % 4 == 0
    ensures |fields| == |bytes| / 4
  {
    if bytes == [] then [] else [FromLittleEndian32(bytes[..4])] + DecodeFields(bytes[4..])
  }

  /** Field `i` occupies exactly bytes `[4i, 4i + 4)` of the encoding. */
  lemma {:induction false} EncodeFieldsAt(fields: seq<uint32>, i: nat)
    requires i < |fields|
    ensures |EncodeFields(fields)| == 4 * |fields|
    ensures EncodeFields(fields)[4 * i .. 4 * i + 4] == LittleEndian32(fields[i])
  {
    var head := LittleEndian32(fields[0]);
    var rest := EncodeFields(fields[1..]);
    assert EncodeFields(fields) == head + rest;
    if i == 0 {
      assert (head + rest)[..4] == head;
    } else {
      EncodeFieldsAt(fields[1..], i - 1);
      assert (head + rest)[4 * i .. 4 * i + 4] == rest[4 * (i - 1) .. 4 * (i - 1) + 4];
    }
  }

  /** Encoding a concatenation concatenates the encodings. */
  lemma {:induction false} EncodeFieldsAppend(a: seq<uint32>, b: seq<uint32>)
    ensures EncodeFields(a + b) == EncodeFields(a) + EncodeFields(b)
  {
    if a != [] {
      assert (a + b)[1..] == a[1..] + b;
      EncodeFieldsAppend(a[1..], b);
    } else {
      assert a + b == b;
    }
  }

  /** Decoding undoes encoding, field by field. */
  lemma {:induction false} DecodeEncodeFields(fields: seq<uint32>)
    ensures DecodeFields(EncodeFields(fields)) == fields
  {
    if fields != [] {
      var bytes := EncodeFields(fields);
      assert bytes[..4] == LittleEndian32(fields[0]);
      assert bytes[4..] == EncodeFields(fields[1..]);
      LittleEndian32RoundTrip(fields[0]);
      DecodeEncodeFields(fields[1..]);
    }
  }

  /** Encoding undoes decoding: every whole number of 4-byte fields is the
   *  encoding of what it decodes to. */
  lemma {:induction false} EncodeDecodeFields(bytes: seq<byte>)
    requires |bytes| % 4 == 0
    ensures EncodeFields(DecodeFields(bytes)) == bytes
  {
    if bytes != [] {
      var fields := DecodeFields(bytes);
      assert fields[0] == FromLittleEndian32(bytes[..4]);
      assert fields[1..] == DecodeFields(bytes[4..]);
      FromLittleEndian32RoundTrip(bytes[..4]);
      EncodeDecodeFields(bytes[4..]);
      assert bytes == bytes[..4] + bytes[4..];
    }
  }

  /** Two field lists with the same encoding are equal. */
  lemma EncodeFieldsInjective(a: seq<uint32>, b: seq<uint32>)
    requires EncodeFields(a) == EncodeFields(b)
    ensures a == b
  {
    DecodeEncodeFields(a);
    DecodeEncodeFields(b);
  }

  /** The encoding of a list of zero fields is all zero bytes. */
  lemma {:induction false} EncodeZeroFields(n: nat)
    ensures EncodeFields(seq(n, _ => 0)) == seq(4 * n, _ => 0)
  {
    if n > 0 {
      var zs: seq<uint32> := seq(n, _ => 0);
      assert zs[1..] == seq(n - 1, _ => 0);
      EncodeZeroFields(n - 1);
      assert LittleEndian32(0) == [0, 0, 0, 0];
      assert seq(4 * n, _ => 0) == [0, 0, 0, 0] + seq(4 * (n - 1), _ => 0);
    }
  }
}
