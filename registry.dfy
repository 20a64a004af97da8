/**
 * The registry of the shared segment: variable descriptors, the header that
 * stores them at the front of the segment, the bump allocator that carves
 * slots after it, and the name-to-key fold.
 */
module Registry {
  import opened Wrappers
  import opened Bytes

  /** Bytes reserved at the front of the segment for the header (`self.header_size`). */
  const HEADER_SIZE: nat := 1024

  /** The type tags 'int', 'double', 'string' and 'array'. */
  datatype VarType = IntVar | DoubleVar | StringVar | ArrayVar

  /**
   * One entry of `metadata['variables']`: `{type, offset, size, update_time}`.
   * `update_time` is a `time.time()` float, carried as its eight IEEE-754 bytes.
   */
  datatype Descriptor = Descriptor(vtype: VarType, offset: nat, size: nat, updateTime: F64)

  /** The header dictionary `{version, create_time, name, variables}`; `create_time` is a float as above. */
  datatype Metadata = Metadata(version: string, createTime: F64, name: string, variables: map<string, Descriptor>)

  /**
   * `json.dumps(...).encode('utf-8')` and `json.loads(....decode('utf-8'))`
   * as a pair of functions; `loads` answers None where Python raises.
   */
  datatype JsonCodec = JsonCodec(dumps: Metadata -> seq<byte>, loads: seq<byte> -> Option<Metadata>)

  /**
   * What the model assumes of the JSON codec: loading what was dumped gives it back.
   * Every field of a header is a string, a natural number or a float's eight bytes,
   * so headers are countably many and an injective `dumps` can exist; `json` writes
   * a float as its shortest round-tripping repr, which reads back as the same double.
   */
  ghost predicate Faithful(codec: JsonCodec)
  {
    forall m :: codec.loads(codec.dumps(m)) == Some(m)
  }

  /** The exceptions the manager's operations raise. */
  datatype Error =
    | SegmentFull       // MemoryError from _allocate_memory
    | HeaderOverflow    // ValueError from _save_header
    | CorruptHeader     // struct or JSON failure in _load_header
    | VariableNotFound  // KeyError from a read
    | TypeMismatch      // TypeError from a read or a write
    | UnsupportedDtype  // ValueError from write_array
    | OutOfSegment      // the segment refuses a read or write past its end
    | PackOverflow      // struct.error packing a length of 2**32 or more
    | Undecodable       // the slot's bytes do not decode (UTF-8, array layout)
    | ReshapeFailed     // numpy cannot reshape the data read back
    | IndexFailed       // IndexError reading shape[0] of a 0-d array
    | ExtentOverflow    // OverflowError converting an extent of 2**31 or more to int32

  /** Initial contents of the header written by `_init_header`. */
  function InitialMetadata(name: string, now: F64): (m: Metadata)
    ensures m.variables == map[] && m.name == name
  {
    Metadata("1.0", now, name, map[])
  }

  // ---------------------------------------------------------------------
  // Key derivation

  /** The fold `h = (h * 31 + ord(c)) & 0x7fffffff` over `name`; on non-negative values the mask is `% 2**31`. */
  function HashFold(name: string): (h: nat)
    ensures h < TWO_31
  {
    if name == [] then 0
    else (HashFold(name[..|name| - 1]) * 31 + name[|name| - 1] as int) % TWO_31
  }

  /** The IPC key `_generate_key_from_name` returns: the fold, with 0 replaced by 1. */
  function KeyOf(name: string): (key: int)
    ensures 1 <= key < TWO_31
    ensures name == [] ==> key == 1
  {
    var h := HashFold(name);
    if h == 0 then 1 else h
  }

  // ---------------------------------------------------------------------
  // Segment writes

  /** The new segment contents after a sequence of `memory.write` calls, and whether all succeeded. */
  datatype Written = Written(result: Result<(), Error>, seg: seq<byte>)

  /** `memory.write(data, off)`: the segment refuses a write past its end and changes nothing. */
  function Store(seg: seq<byte>, off: nat, data: seq<byte>): (w: Written)
    ensures w.result.Ok? <==> off + |data| <= |seg|
    ensures w.result.Ok? ==> w.seg == Overwrite(seg, off, data)
    ensures w.result.Err? ==> w.result.error == OutOfSegment && w.seg == seg
  {
    if off + |data| <= |seg| then Written(Ok(()), Overwrite(seg, off, data))
    else Written(Err(OutOfSegment), seg)
  }

  /** Consecutive writes of `chunks` starting at `off`, stopping at the first one that does not fit. */
  function StoreChunks(seg: seq<byte>, off: nat, chunks: seq<seq<byte>>): (w: Written)
    requires chunks != []
    ensures |w.seg| == |seg|
    ensures w.result.Ok? <==> off + |Concat(chunks)| <= |seg|
    ensures w.result.Ok? ==> w.seg == Overwrite(seg, off, Concat(chunks))
    ensures w.result.Err? ==> w.result.error == OutOfSegment
    decreases |chunks|
  {
    var first := Store(seg, off, chunks[0]);
    if |chunks| == 1 then
      assert Concat(chunks) == chunks[0] + Concat([]);
      first
    else if first.result.Err? then first
    else
      var rest := StoreChunks(first.seg, off + |chunks[0]|, chunks[1..]);
      if off + |Concat(chunks)| <= |seg| then
        OverwriteTwice(seg, off, chunks[0], Concat(chunks[1..]));
        rest
      else rest
  }

  /** Writes that stop part way, like those that complete, touch no byte before `off` or past the chunks. */
  lemma {:induction false} StoreChunksKeeps(seg: seq<byte>, off: nat, chunks: seq<seq<byte>>)
    requires chunks != []
    ensures forall i :: 0 <= i < |seg| && !(off <= i < off + |Concat(chunks)|) ==> StoreChunks(seg, off, chunks).seg[i] == seg[i]
    decreases |chunks|
  {
    var first := Store(seg, off, chunks[0]);
    ConcatCons(chunks[0], chunks[1..]);
    assert [chunks[0]] + chunks[1..] == chunks;
    if |chunks| > 1 && first.result.Ok? {
      StoreChunksKeeps(first.seg, off + |chunks[0]|, chunks[1..]);
    }
  }

  /** A chunk sequence that ends with its first write, because that is the only chunk or it failed. */
  lemma StoreChunksStop(seg: seq<byte>, off: nat, chunks: seq<seq<byte>>)
    requires chunks != []
    requires |chunks| == 1 || Store(seg, off, chunks[0]).result.Err?
    ensures StoreChunks(seg, off, chunks) == Store(seg, off, chunks[0])
  {
  }

  /** A first write that succeeds leaves the rest of the chunks to be written from where it ended. */
  lemma StoreChunksRest(seg: seq<byte>, mid: seq<byte>, off: nat, chunks: seq<seq<byte>>)
    requires |chunks| > 1 && Store(seg, off, chunks[0]) == Written(Ok(()), mid)
    ensures StoreChunks(seg, off, chunks) == StoreChunks(mid, off + |chunks[0]|, chunks[1..])
  {
  }

  lemma ConcatCons(c: seq<byte>, rest: seq<seq<byte>>)
    ensures Concat([c] + rest) == c + Concat(rest)
  {
    assert ([c] + rest)[1..] == rest;
  }

  lemma ConcatPair(a: seq<byte>, b: seq<byte>)
    ensures Concat([a, b]) == a + b
  {
    assert [a, b][1..] == [b];
    assert Concat([b]) == b + Concat([]);
  }

  lemma OverwriteTwice(seg: seq<byte>, off: nat, a: seq<byte>, b: seq<byte>)
    requires off + |a| + |b| <= |seg|
    ensures Overwrite(Overwrite(seg, off, a), off + |a|, b) == Overwrite(seg, off, a + b)
  {
    var m := Overwrite(seg, off, a);
    var l := Overwrite(m, off + |a|, b);
    var r := Overwrite(seg, off, a + b);
    forall i | 0 <= i < |seg| ensures l[i] == r[i] {
      if i < off {
      } else if i < off + |a| {
        assert l[i] == m[i] == a[i - off];
        assert r[i] == (a + b)[i - off];
      } else if i < off + |a| + |b| {
        assert l[i] == b[i - off - |a|];
        assert r[i] == (a + b)[i - off];
      }
    }
  }

  // ---------------------------------------------------------------------
  // Header

  /** The length prefix stored at offset 0, when the segment has four bytes. */
  function StoredLength(seg: seq<byte>): (r: Option<nat>)
    ensures r.Some? <==> |seg| >= 4
  {
    match Read(seg, 0, 4)
    case None => None
    case Some(b) => Some(UnpackU32(b))
  }

  /** `_load_header`: the metadata the segment's header decodes to, or None where Python raises. */
  function LoadHeader(codec: JsonCodec, seg: seq<byte>): Option<Metadata>
  {
    match StoredLength(seg)
    case None => None
    case Some(n) =>
      match Read(seg, 4, n)
      case None => None
      case Some(blob) => codec.loads(blob)
  }

  /** `_save_header`: refuse a blob of HEADER_SIZE bytes or more, else write its length at 0 and itself at 4. */
  function SaveHeader(codec: JsonCodec, seg: seq<byte>, m: Metadata): (w: Written)
    ensures |w.seg| == |seg|
    ensures |codec.dumps(m)| >= HEADER_SIZE ==> w == Written(Err(HeaderOverflow), seg)
    ensures w.result.Ok? <==> |codec.dumps(m)| < HEADER_SIZE && 4 + |codec.dumps(m)| <= |seg|
    ensures forall i :: 4 + |codec.dumps(m)| <= i < |seg| ==> w.seg[i] == seg[i]
  {
    var blob := codec.dumps(m);
    if |blob| >= HEADER_SIZE then Written(Err(HeaderOverflow), seg)
    else
      ConcatPair(PackU32(|blob|), blob);
      StoreChunks(seg, 0, [PackU32(|blob|), blob])
  }

  /** After a successful save the header loads back as the saved metadata, with the blob's length stored. */
  lemma SaveThenLoad(codec: JsonCodec, seg: seq<byte>, m: Metadata)
    requires Faithful(codec)
    requires SaveHeader(codec, seg, m).result.Ok?
    ensures LoadHeader(codec, SaveHeader(codec, seg, m).seg) == Some(m)
    ensures StoredLength(SaveHeader(codec, seg, m).seg) == Some(|codec.dumps(m)|)
  {
    var blob := codec.dumps(m);
    var s2 := SaveHeader(codec, seg, m).seg;
    var len := PackU32(|blob|);
    ConcatPair(len, blob);
    assert s2 == Overwrite(seg, 0, len + blob);
    assert s2[0..4] == len;
    U32RoundTrip(|blob|);
    assert s2[4..4 + |blob|] == blob;
  }

  /** A write that starts past the stored header leaves the header, and what it loads to, unchanged. */
  lemma StorePastHeader(codec: JsonCodec, seg: seq<byte>, off: nat, data: seq<byte>)
    requires StoredLength(seg).Some? && 4 + StoredLength(seg).value <= off
    ensures StoredLength(Store(seg, off, data).seg) == StoredLength(seg)
    ensures LoadHeader(codec, Store(seg, off, data).seg) == LoadHeader(codec, seg)
  {
    var n := StoredLength(seg).value;
    if off + |data| <= |seg| {
      ReadAround(seg, off, data, 0, 4);
      ReadAround(seg, off, data, 4, n);
    }
  }

  /** The same for a sequence of writes. */
  lemma StoreChunksPastHeader(codec: JsonCodec, seg: seq<byte>, off: nat, chunks: seq<seq<byte>>)
    requires chunks != []
    requires StoredLength(seg).Some? && 4 + StoredLength(seg).value <= off
    ensures StoredLength(StoreChunks(seg, off, chunks).seg) == StoredLength(seg)
    ensures LoadHeader(codec, StoreChunks(seg, off, chunks).seg) == LoadHeader(codec, seg)
  {
    StoreChunksKeeps(seg, off, chunks);
    HeaderKept(codec, seg, StoreChunks(seg, off, chunks).seg);
  }

  /** A segment that keeps the length prefix and the bytes it counts loads the same header. */
  lemma HeaderKept(codec: JsonCodec, seg: seq<byte>, w: seq<byte>)
    requires |w| == |seg| && StoredLength(seg).Some?
    requires forall i :: 0 <= i < |seg| && i < 4 + StoredLength(seg).value ==> w[i] == seg[i]
    ensures StoredLength(w) == StoredLength(seg)
    ensures LoadHeader(codec, w) == LoadHeader(codec, seg)
  {
    var n := StoredLength(seg).value;
    assert w[0..4] == seg[0..4];
    if 4 + n <= |seg| {
      assert w[4..4 + n] == seg[4..4 + n];
    }
  }

  // ---------------------------------------------------------------------
  // Registry updates

  /** `metadata['variables'][key] = d`. */
  function Registered(m: Metadata, key: string, d: Descriptor): (r: Metadata)
    ensures key in r.variables && r.variables[key] == d
    ensures r.variables.Keys == m.variables.Keys + {key}
    ensures forall k :: k in m.variables && k != key ==> r.variables[k] == m.variables[k]
    ensures r.version == m.version && r.createTime == m.createTime && r.name == m.name
  {
    m.(variables := m.variables[key := d])
  }

  // ---------------------------------------------------------------------
  // Bump allocator

  function End(d: Descriptor): nat { d.offset + d.size }

  /** The value `max_offset` reaches in `_allocate_memory`: HEADER_SIZE or the largest registered end. */
  ghost predicate IsHighWater(vars: map<string, Descriptor>, h: nat)
  {
    && h >= HEADER_SIZE
    && (forall k :: k in vars ==> End(vars[k]) <= h)
    && (h == HEADER_SIZE || exists k :: k in vars && End(vars[k]) == h)
  }

  ghost function HighWater(vars: map<string, Descriptor>): (h: nat)
    ensures IsHighWater(vars, h)
    decreases |vars|
  {
    if vars == map[] then HEADER_SIZE
    else
      var k :| k in vars;
      var rest := HighWater(vars - {k});
      assert forall j :: j in vars ==> j == k || j in vars - {k};
      if End(vars[k]) > rest then End(vars[k]) else rest
  }

  lemma HighWaterUnique(vars: map<string, Descriptor>, h1: nat, h2: nat)
    requires IsHighWater(vars, h1) && IsHighWater(vars, h2)
    ensures h1 == h2
  {
  }

  /** `new_offset` rounded up to a multiple of 8 as in `_allocate_memory`. */
  function AlignUp(n: nat): (r: nat)
    ensures r % 8 == 0 && n <= r < n + 8
  {
    if n % 8 != 0 then n + (8 - n % 8) else n
  }

  /** The offset `_allocate_memory` returns for `n` bytes, or MemoryError. */
  ghost function Allocate(vars: map<string, Descriptor>, segSize: nat, n: nat): (r: Result<nat, Error>)
    ensures r.Ok? ==> HEADER_SIZE <= r.value && r.value % 8 == 0 && r.value + n <= segSize
    ensures r.Ok? ==> forall k :: k in vars ==> End(vars[k]) <= r.value
    ensures r.Err? ==> r.error == SegmentFull
  {
    var off := AlignUp(HighWater(vars));
    if off + n > segSize then Err(SegmentFull) else Ok(off)
  }

  /** An offset a new slot could start at: past the header region, 8-aligned and past every registered slot. */
  ghost predicate FreeFrom(vars: map<string, Descriptor>, off: nat)
  {
    HEADER_SIZE <= off && off % 8 == 0 && forall k :: k in vars ==> End(vars[k]) <= off
  }

  lemma AlignUpLeast(h: nat, o: nat)
    requires h <= o && o % 8 == 0
    ensures AlignUp(h) <= o
  {
  }

  /**
   * The allocator returns the lowest offset a new slot could start at, and
   * fails exactly when even that one leaves fewer than `n` bytes below the
   * segment size; an exact fit therefore succeeds.
   */
  lemma AllocateIsLeastFree(vars: map<string, Descriptor>, segSize: nat, n: nat)
    ensures var r := Allocate(vars, segSize, n);
      && (r.Ok? ==> FreeFrom(vars, r.value) && forall o: nat :: FreeFrom(vars, o) ==> r.value <= o)
      && (r.Err? <==> forall o: nat :: FreeFrom(vars, o) ==> o + n > segSize)
  {
    var h := HighWater(vars);
    var off := AlignUp(h);
    assert FreeFrom(vars, off);
    forall o: nat | FreeFrom(vars, o)
      ensures off <= o
    {
      if h != HEADER_SIZE {
        var k :| k in vars && End(vars[k]) == h;
      }
      AlignUpLeast(h, o);
    }
  }
}
