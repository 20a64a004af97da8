/**
 * Bytes of the shared segment and the `struct` codecs the manager uses:
 * 'I' (unsigned 32-bit) and 'i' (signed 32-bit), both little-endian as on the
 * x86 hosts the library targets, and 'd' kept as an opaque 8-byte pattern.
 */
module Bytes {

  import opened Wrappers

  newtype byte = x: int | 0 <= x < 256

  const TWO_32: int := 0x1_0000_0000
  const TWO_31: int := 0x8000_0000

  /** A float64 as the 8 bytes `struct.pack('d', x)` produces; its value is not interpreted. */
  type F64 = b: seq<byte> | |b| == 8 witness [0, 0, 0, 0, 0, 0, 0, 0]

  predicate IsInt32(v: int) { -TWO_31 <= v < TWO_31 }

  /** `struct.pack('I', n)`. */
  function PackU32(n: nat): (r: seq<byte>)
    requires n < TWO_32
    ensures |r| == 4
  {
    [(n % 256) as byte, (n / 256 % 256) as byte, (n / 65536 % 256) as byte, (n / 16777216) as byte]
  }

  /** `struct.unpack('I', b)` on exactly four bytes. */
  function UnpackU32(b: seq<byte>): (n: nat)
    requires |b| == 4
    ensures n < TWO_32
  {
    b[0] as int + 256 * b[1] as int + 65536 * b[2] as int + 16777216 * b[3] as int
  }

  lemma U32RoundTrip(n: nat)
    requires n < TWO_32
    ensures UnpackU32(PackU32(n)) == n
  {
    var x := n / 256;
    var y := x / 256;
    var z := y / 256;
    assert n == 256 * x + n % 256 && x == 256 * y + x % 256 && y == 256 * z + y % 256;
    assert n == 65536 * y + (256 * (x % 256) + n % 256);
    assert y == n / 65536;
    assert n == 16777216 * z + (65536 * (y % 256) + 256 * (x % 256) + n % 256);
    assert z == n / 16777216;
  }

  /** `struct.pack('i', v)`: two's complement of an int32. */
  function PackI32(v: int): (r: seq<byte>)
    requires IsInt32(v)
    ensures |r| == 4
  {
    PackU32(if v < 0 then v + TWO_32 else v)
  }

  /** `struct.unpack('i', b)`. */
  function UnpackI32(b: seq<byte>): (v: int)
    requires |b| == 4
    ensures IsInt32(v)
  {
    var u := UnpackU32(b);
    if u >= TWO_31 then u - TWO_32 else u
  }

  lemma I32RoundTrip(v: int)
    requires IsInt32(v)
    ensures UnpackI32(PackI32(v)) == v
  {
    U32RoundTrip(if v < 0 then v + TWO_32 else v);
  }

  /** Concatenation of a sequence of byte strings. */
  function Concat(chunks: seq<seq<byte>>): (r: seq<byte>)
  {
    if chunks == [] then [] else chunks[0] + Concat(chunks[1..])
  }

  /** `np.array(xs, dtype=np.int32).tobytes()`. */
  function PackI32s(xs: seq<int>): (r: seq<byte>)
    requires forall i :: 0 <= i < |xs| ==> IsInt32(xs[i])
    ensures |r| == 4 * |xs|
  {
    if xs == [] then [] else PackI32(xs[0]) + PackI32s(xs[1..])
  }

  /** `np.frombuffer(b, dtype=np.int32)`: None when the length is not a multiple of 4. */
  function UnpackI32s(b: seq<byte>): (r: Option<seq<int>>)
    ensures r.Some? ==> 4 * |r.value| == |b|
    decreases |b|
  {
    if b == [] then Some([])
    else if |b| < 4 then None
    else match UnpackI32s(b[4..])
      case None => None
      case Some(rest) => Some([UnpackI32(b[..4])] + rest)
  }

  lemma {:induction false} I32sRoundTrip(xs: seq<int>)
    requires forall i :: 0 <= i < |xs| ==> IsInt32(xs[i])
    ensures UnpackI32s(PackI32s(xs)) == Some(xs)
  {
    if xs != [] {
      var b := PackI32s(xs);
      assert b[..4] == PackI32(xs[0]);
      assert b[4..] == PackI32s(xs[1..]);
      I32RoundTrip(xs[0]);
      I32sRoundTrip(xs[1..]);
      assert UnpackI32s(b) == Some([xs[0]] + xs[1..]);
      assert [xs[0]] + xs[1..] == xs;
    }
  }

  /** `np.array(ds, dtype=np.float64).tobytes()`. */
  function PackF64s(ds: seq<F64>): (r: seq<byte>)
    ensures |r| == 8 * |ds|
  {
    if ds == [] then [] else ds[0] + PackF64s(ds[1..])
  }

  /** `np.frombuffer(b, dtype=np.float64)`: None when the length is not a multiple of 8. */
  function UnpackF64s(b: seq<byte>): (r: Option<seq<F64>>)
    ensures r.Some? ==> 8 * |r.value| == |b|
    decreases |b|
  {
    if b == [] then Some([])
    else if |b| < 8 then None
    else match UnpackF64s(b[8..])
      case None => None
      case Some(rest) => var d: F64 := b[..8]; Some([d] + rest)
  }

  lemma {:induction false} F64sRoundTrip(ds: seq<F64>)
    ensures UnpackF64s(PackF64s(ds)) == Some(ds)
  {
    if ds != [] {
      var b := PackF64s(ds);
      assert b[..8] == ds[0];
      assert b[8..] == PackF64s(ds[1..]);
      F64sRoundTrip(ds[1..]);
      assert UnpackF64s(b) == Some([ds[0]] + ds[1..]);
      assert [ds[0]] + ds[1..] == ds;
    }
  }

  /** The `n` bytes of `seg` at `off`, when they lie inside `seg`. */
  function Read(seg: seq<byte>, off: nat, n: nat): (r: Option<seq<byte>>)
    ensures r.Some? <==> off + n <= |seg|
    ensures r.Some? ==> |r.value| == n && (forall i :: 0 <= i < n ==> r.value[i] == seg[off + i])
  {
    if off + n <= |seg| then Some(seg[off..off + n]) else None
  }

  /** `seg` with the bytes at `off .. off + |data|` replaced by `data`. */
  function Overwrite(seg: seq<byte>, off: nat, data: seq<byte>): (r: seq<byte>)
    requires off + |data| <= |seg|
    ensures |r| == |seg|
    ensures forall i :: 0 <= i < |data| ==> r[off + i] == data[i]
    ensures forall i :: 0 <= i < |seg| && !(off <= i < off + |data|) ==> r[i] == seg[i]
  {
    seg[..off] + data + seg[off + |data|..]
  }

  lemma ReadOverwritten(seg: seq<byte>, off: nat, data: seq<byte>)
    requires off + |data| <= |seg|
    ensures Read(Overwrite(seg, off, data), off, |data|) == Some(data)
  {
    var r := Overwrite(seg, off, data);
    assert r[off..off + |data|] == data;
  }

  /** Reading a range that an overwrite did not touch gives the old bytes. */
  lemma ReadAround(seg: seq<byte>, off: nat, data: seq<byte>, a: nat, n: nat)
    requires off + |data| <= |seg|
    requires a + n <= off || off + |data| <= a
    ensures Read(Overwrite(seg, off, data), a, n) == Read(seg, a, n)
  {
    var r := Overwrite(seg, off, data);
    if a + n <= |seg| {
      assert r[a..a + n] == seg[a..a + n];
    }
  }

  /** A range holding two byte strings end to end reads as each of them. */
  lemma ReadSplit(seg: seq<byte>, off: nat, x: seq<byte>, y: seq<byte>)
    requires Read(seg, off, |x| + |y|) == Some(x + y)
    ensures Read(seg, off, |x|) == Some(x)
    ensures Read(seg, off + |x|, |y|) == Some(y)
  {
    assert seg[off..off + |x|] == (x + y)[..|x|];
    assert seg[off + |x|..off + |x| + |y|] == (x + y)[|x|..];
  }

  /** A read inside a range that reads as `data` gives the matching part of `data`. */
  lemma ReadPart(seg: seq<byte>, off: nat, data: seq<byte>, a: nat, n: nat)
    requires Read(seg, off, |data|) == Some(data)
    requires a + n <= |data|
    ensures Read(seg, off + a, n) == Some(data[a..a + n])
  {
    assert seg[off + a..off + a + n] == data[a..a + n];
  }
}
