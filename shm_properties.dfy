/**
 * What the canonical manager's operations guarantee, proved about the ShmSpec
 * functions (and so, by the methods' postconditions, about the class).
 *
 * The round trips need the header to stay out of the data region. The manager
 * does not ensure this: `_save_header` accepts blobs of up to 1023 bytes, so a
 * saved header can end at byte 1027, past the first data slot at 1024, and
 * `_load_header` trusts whatever length it finds. `Sound` is the condition under
 * which the lemmas hold, and each write keeps it as long as the header it saves
 * ends within the reserved 1024 bytes.
 */
module ShmProperties {
  import opened Wrappers
  import opened Bytes
  import Utf8
  import Text
  import opened Registry
  import opened ShmSpec

  /** The smallest slot a fixed-size type needs: 4 bytes for 'int', 8 for 'double'. */
  function MinSize(t: VarType): nat
  {
    match t
    case IntVar => 4
    case DoubleVar => 8
    case _ => 0
  }

  /** Every slot lies past the header region, is big enough for its type, and no two overlap. */
  ghost predicate SlotsPlaced(vars: map<string, Descriptor>)
  {
    && (forall k :: k in vars ==> HEADER_SIZE <= vars[k].offset && MinSize(vars[k].vtype) <= vars[k].size)
    && (forall j, k :: j in vars && k in vars && j != k ==> End(vars[j]) <= vars[k].offset || End(vars[k]) <= vars[j].offset)
  }

  /** The registry the segment's header loads to, when it loads. */
  function Loaded(env: Env, s: Shm): Option<Metadata>
  {
    LoadHeader(env.codec, s.seg)
  }

  /**
   * The header loads and ends within the reserved region, its slots are placed and
   * lie inside the segment, and the allocator's bound `self.size` does not pass the
   * segment's end.
   */
  ghost predicate Sound(env: Env, s: Shm)
  {
    && Loaded(env, s).Some?
    && StoredLength(s.seg).Some?
    && 4 + StoredLength(s.seg).value <= HEADER_SIZE
    && SlotsPlaced(Loaded(env, s).value.variables)
    && (forall k :: k in Loaded(env, s).value.variables ==> End(Loaded(env, s).value.variables[k]) <= |s.seg|)
    && env.size <= |s.seg|
  }

  /** A header that, once saved, fits the reserved region with its length prefix. */
  predicate FitsHeader(env: Env, m: Metadata)
  {
    4 + |env.codec.dumps(m)| <= HEADER_SIZE
  }

  // ---------------------------------------------------------------------
  // Allocation

  /**
   * `_allocate_memory` reloads the header and nothing else: the segment is
   * unchanged, and a successful offset is the lowest one past every slot, 8-aligned
   * and not below 1024, with `n` bytes left below `self.size`.
   */
  lemma AllocateStepFacts(env: Env, s: Shm, n: nat)
    ensures var a := AllocateStep(env, s, n);
      && a.post.seg == s.seg
      && (a.result.Ok? ==>
            && Loaded(env, s).Some? && a.post.meta == Loaded(env, s).value
            && FreeFrom(a.post.meta.variables, a.result.value)
            && a.result.value + n <= env.size
            && forall o: nat :: FreeFrom(a.post.meta.variables, o) ==> a.result.value <= o)
      && (a.result.Err? ==>
            || (Loaded(env, s).None? && a.result.error == CorruptHeader)
            || (Loaded(env, s).Some? && a.result.error == SegmentFull
                && forall o: nat :: FreeFrom(Loaded(env, s).value.variables, o) ==> o + n > env.size))
  {
    if Loaded(env, s).Some? {
      AllocateIsLeastFree(Loaded(env, s).value.variables, env.size, n);
    }
  }

  /** A new slot for `key` keeps the slots placed: it starts past all of them and is big enough. */
  lemma PlacedAfterNewSlot(vars: map<string, Descriptor>, key: string, d: Descriptor)
    requires SlotsPlaced(vars)
    requires FreeFrom(vars, d.offset) && MinSize(d.vtype) <= d.size
    ensures SlotsPlaced(vars[key := d])
  {
  }

  /**
   * The new-slot path: on success the header reloads as the registry with exactly
   * `key` replaced by the new slot, the slot is free, and no byte past the header
   * region changes.
   */
  lemma AllocAndRegisterFacts(env: Env, s: Shm, key: string, t: VarType, n: nat, now: F64)
    requires Faithful(env.codec) && Sound(env, s) && MinSize(t) <= n
    requires AllocAndRegister(env, s, key, t, n, now).result.Ok?
    requires FitsHeader(env, AllocAndRegister(env, s, key, t, n, now).post.meta)
    ensures var a := AllocAndRegister(env, s, key, t, n, now);
      var m := Loaded(env, s).value;
      var off := a.result.value;
      && a.post.meta == Registered(m, key, Descriptor(t, off, n, now))
      && FreeFrom(m.variables, off) && off + n <= env.size
      && Loaded(env, a.post) == Some(a.post.meta)
      && Sound(env, a.post)
      && |a.post.seg| == |s.seg|
      && forall i :: HEADER_SIZE <= i < |s.seg| ==> a.post.seg[i] == s.seg[i]
  {
    var al := AllocateStep(env, s, n);
    AllocateStepFacts(env, s, n);
    var m := Loaded(env, s).value;
    var off := al.result.value;
    var m2 := Registered(m, key, Descriptor(t, off, n, now));
    SaveThenLoad(env.codec, s.seg, m2);
    PlacedAfterNewSlot(m.variables, key, Descriptor(t, off, n, now));
  }

  // ---------------------------------------------------------------------
  // Choosing a slot and storing into it

  /** The slot a fixed-size write (`sized == false`) or a variable-size write (`sized == true`) goes to. */
  ghost function Slot(env: Env, s: Shm, key: string, t: VarType, n: nat, now: F64, sized: bool): Step<nat>
  {
    if sized then SizedSlot(env, s, key, t, n, now) else FixedSlot(env, s, key, t, n, now)
  }

  /** Two segments that agree from `HEADER_SIZE` on read the same there. */
  lemma ReadPastHeader(seg1: seq<byte>, seg2: seq<byte>, a: nat, n: nat)
    requires |seg1| == |seg2| && HEADER_SIZE <= a
    requires forall i :: HEADER_SIZE <= i < |seg1| ==> seg2[i] == seg1[i]
    ensures Read(seg2, a, n) == Read(seg1, a, n)
  {
    if a + n <= |seg1| {
      assert seg2[a..a + n] == seg1[a..a + n];
    }
  }

  /**
   * Any write's choice of slot: on success `key` is registered with type `t` at the
   * returned offset (with at least `n` bytes when the size is checked), every other
   * entry is kept, the header reloads as the new registry, and no byte past the
   * header region changes.
   */
  lemma SlotFacts(env: Env, s: Shm, key: string, t: VarType, n: nat, now: F64, sized: bool)
    requires Faithful(env.codec) && Sound(env, s) && MinSize(t) <= n
    requires Slot(env, s, key, t, n, now, sized).result.Ok?
    requires FitsHeader(env, Slot(env, s, key, t, n, now, sized).post.meta)
    ensures var sl := Slot(env, s, key, t, n, now, sized);
      var m := Loaded(env, s).value;
      && Sound(env, sl.post) && Loaded(env, sl.post) == Some(sl.post.meta)
      && key in sl.post.meta.variables
      && sl.post.meta.variables[key].offset == sl.result.value
      && sl.post.meta.variables[key].vtype == t
      && (sized ==> n <= sl.post.meta.variables[key].size)
      && (forall k :: k in m.variables && k != key ==> k in sl.post.meta.variables && sl.post.meta.variables[k] == m.variables[k])
      && (forall k :: k in sl.post.meta.variables ==> k == key || k in m.variables)
      && |sl.post.seg| == |s.seg|
      && forall i :: HEADER_SIZE <= i < |s.seg| ==> sl.post.seg[i] == s.seg[i]
  {
    var m := Loaded(env, s).value;
    var l := LoadStep(env, s);
    assert l.post == Shm(s.seg, m);
    var info := if key in m.variables then Some(m.variables[key]) else None;
    var isNew := if sized then info.None? || info.value.size < n else info.None?;
    if isNew {
      AllocAndRegisterFacts(env, l.post, key, t, n, now);
    }
  }

  /**
   * Storing at most a slot's worth of bytes into a registered slot: the header and
   * registry stay as they were, the bytes read back, and every other slot keeps its
   * bytes.
   */
  lemma StoreInSlot(env: Env, s: Shm, key: string, chunks: seq<seq<byte>>)
    requires chunks != []
    requires Sound(env, s) && Loaded(env, s) == Some(s.meta)
    requires key in s.meta.variables && |Concat(chunks)| <= s.meta.variables[key].size
    requires StoreStep(s, s.meta.variables[key].offset, chunks).result.Ok?
    ensures var w := StoreStep(s, s.meta.variables[key].offset, chunks);
      var off := s.meta.variables[key].offset;
      && w.post.meta == s.meta && Loaded(env, w.post) == Some(s.meta) && Sound(env, w.post)
      && Read(w.post.seg, off, |Concat(chunks)|) == Some(Concat(chunks))
      && forall k :: k in s.meta.variables && k != key ==>
           Read(w.post.seg, s.meta.variables[k].offset, s.meta.variables[k].size)
             == Read(s.seg, s.meta.variables[k].offset, s.meta.variables[k].size)
  {
    var off := s.meta.variables[key].offset;
    var data := Concat(chunks);
    StoreChunksPastHeader(env.codec, s.seg, off, chunks);
    ReadOverwritten(s.seg, off, data);
    forall k | k in s.meta.variables && k != key
      ensures Read(StoreStep(s, off, chunks).post.seg, s.meta.variables[k].offset, s.meta.variables[k].size)
                == Read(s.seg, s.meta.variables[k].offset, s.meta.variables[k].size)
    {
      ReadAround(s.seg, off, data, s.meta.variables[k].offset, s.meta.variables[k].size);
    }
  }

  // ---------------------------------------------------------------------
  // Write, then read back

  /** Every variable other than `key` keeps its descriptor and its bytes from `s` to `t`. */
  ghost predicate OthersKept(env: Env, s: Shm, t: Shm, key: string)
  {
    && Loaded(env, s).Some? && Loaded(env, t).Some?
    && var before := Loaded(env, s).value.variables;
       var after := Loaded(env, t).value.variables;
       forall k :: k in before && k != key ==>
         && k in after && after[k] == before[k]
         && Read(t.seg, before[k].offset, before[k].size) == Read(s.seg, before[k].offset, before[k].size)
  }

  /**
   * A successful write at the chosen slot, when the saved header fits: the slot is
   * registered for `key` with type `t`, its bytes read back as written, the state
   * stays sound and every other variable is untouched.
   */
  lemma WriteAtSlotFacts(env: Env, s: Shm, key: string, t: VarType, n: nat, now: F64, sized: bool, chunks: seq<seq<byte>>)
    requires chunks != []
    requires Faithful(env.codec) && Sound(env, s) && MinSize(t) <= n
    requires |Concat(chunks)| <= (if sized then n else MinSize(t))
    requires WriteAtSlot(Slot(env, s, key, t, n, now, sized), chunks).result.Ok?
    requires FitsHeader(env, WriteAtSlot(Slot(env, s, key, t, n, now, sized), chunks).post.meta)
    ensures var w := WriteAtSlot(Slot(env, s, key, t, n, now, sized), chunks).post;
      && Sound(env, w) && Loaded(env, w) == Some(w.meta)
      && key in w.meta.variables && w.meta.variables[key].vtype == t
      && Read(w.seg, w.meta.variables[key].offset, |Concat(chunks)|) == Some(Concat(chunks))
      && OthersKept(env, s, w, key)
  {
    var sl := Slot(env, s, key, t, n, now, sized);
    SlotFacts(env, s, key, t, n, now, sized);
    StoreInSlot(env, sl.post, key, chunks);
    var w := WriteAtSlot(sl, chunks).post;
    var before := Loaded(env, s).value.variables;
    forall k | k in before && k != key
      ensures Read(w.seg, before[k].offset, before[k].size) == Read(s.seg, before[k].offset, before[k].size)
    {
      ReadPastHeader(s.seg, sl.post.seg, before[k].offset, before[k].size);
    }
  }

  /** `write_int` then `read_int` gives the value back; other variables are untouched. */
  lemma WriteIntRoundTrip(env: Env, s: Shm, key: string, value: int, now: F64)
    requires Faithful(env.codec) && Sound(env, s) && IsInt32(value)
    requires ShmSpec.WriteInt(env, s, key, value, now).result.Ok?
    requires FitsHeader(env, ShmSpec.WriteInt(env, s, key, value, now).post.meta)
    ensures var w := ShmSpec.WriteInt(env, s, key, value, now).post;
      Sound(env, w) && ReadInt(env, w, key).result == Ok(value) && OthersKept(env, s, w, key)
  {
    assert Concat([PackI32(value)]) == PackI32(value) + Concat([]);
    WriteAtSlotFacts(env, s, key, IntVar, 4, now, false, [PackI32(value)]);
    I32RoundTrip(value);
  }

  /** `write_double` then `read_double` gives the same eight bytes back; other variables are untouched. */
  lemma WriteDoubleRoundTrip(env: Env, s: Shm, key: string, value: F64, now: F64)
    requires Faithful(env.codec) && Sound(env, s)
    requires ShmSpec.WriteDouble(env, s, key, value, now).result.Ok?
    requires FitsHeader(env, ShmSpec.WriteDouble(env, s, key, value, now).post.meta)
    ensures var w := ShmSpec.WriteDouble(env, s, key, value, now).post;
      Sound(env, w) && ReadDouble(env, w, key).result == Ok(value) && OthersKept(env, s, w, key)
  {
    assert Concat([value]) == value + Concat([]);
    WriteAtSlotFacts(env, s, key, DoubleVar, 8, now, false, [value]);
  }

  /** A successful `write_string` is the sized-slot write of the length prefix and the UTF-8 bytes. */
  lemma WriteStringAsSlotWrite(env: Env, s: Shm, key: string, value: string, now: F64)
    requires ShmSpec.WriteString(env, s, key, value, now).result.Ok?
    ensures var bytes := Utf8.Encode(value);
      && |bytes| < TWO_32
      && ShmSpec.WriteString(env, s, key, value, now)
           == WriteAtSlot(Slot(env, s, key, StringVar, |bytes| + 4, now, true), [PackU32(|bytes|), bytes])
  {
  }

  /** A range holding a length prefix and the bytes it counts reads as those two parts. */
  lemma ReadPrefixed(seg: seq<byte>, off: nat, bytes: seq<byte>)
    requires |bytes| < TWO_32
    requires Read(seg, off, 4 + |bytes|) == Some(PackU32(|bytes|) + bytes)
    ensures Read(seg, off, 4) == Some(PackU32(|bytes|))
    ensures Read(seg, off + 4, |bytes|) == Some(bytes)
  {
    ReadSplit(seg, off, PackU32(|bytes|), bytes);
  }

  /** A string slot holding a length prefix and the bytes it counts reads back as their decoding. */
  lemma ReadStringSlot(env: Env, w: Shm, key: string, bytes: seq<byte>)
    requires |bytes| < TWO_32
    requires Loaded(env, w) == Some(w.meta) && key in w.meta.variables && w.meta.variables[key].vtype == StringVar
    requires Read(w.seg, w.meta.variables[key].offset, 4 + |bytes|) == Some(PackU32(|bytes|) + bytes)
    requires Utf8.Decode(bytes).Some?
    ensures ReadString(env, w, key).result == Ok(Utf8.Decode(bytes).value)
  {
    LookupFound(env, w, key, StringVar);
    DecodeStringPrefixed(w.seg, w.meta.variables[key].offset, bytes);
  }

  /** A length prefix followed by the bytes it counts decodes as those bytes' UTF-8 decoding. */
  lemma DecodeStringPrefixed(seg: seq<byte>, off: nat, bytes: seq<byte>)
    requires |bytes| < TWO_32
    requires Read(seg, off, 4 + |bytes|) == Some(PackU32(|bytes|) + bytes)
    requires Utf8.Decode(bytes).Some?
    ensures DecodeStringAt(seg, off) == Ok(Utf8.Decode(bytes).value)
  {
    ReadPrefixed(seg, off, bytes);
    DecodeStringParts(seg, off, bytes);
  }

  /** The same, from the prefix and the counted bytes read one by one. */
  lemma DecodeStringParts(seg: seq<byte>, off: nat, bytes: seq<byte>)
    requires |bytes| < TWO_32
    requires Read(seg, off, 4) == Some(PackU32(|bytes|))
    requires Read(seg, off + 4, |bytes|) == Some(bytes)
    requires Utf8.Decode(bytes).Some?
    ensures DecodeStringAt(seg, off) == Ok(Utf8.Decode(bytes).value)
  {
    U32RoundTrip(|bytes|);
  }

  /** A lookup on a header that loads finds the registered descriptor of the requested type. */
  lemma LookupFound(env: Env, s: Shm, key: string, t: VarType)
    requires Loaded(env, s).Some? && key in Loaded(env, s).value.variables
    requires Loaded(env, s).value.variables[key].vtype == t
    ensures Lookup(env, s, key, t) == Step(Ok(Loaded(env, s).value.variables[key]), Shm(s.seg, Loaded(env, s).value))
  {
  }

  /** The string round trip for the slot write `write_string` performs. */
  lemma StringSlotRoundTrip(env: Env, s: Shm, key: string, value: string, now: F64, w: Step<()>)
    requires Faithful(env.codec) && Sound(env, s)
    requires |Utf8.Encode(value)| < TWO_32
    requires w == WriteAtSlot(Slot(env, s, key, StringVar, |Utf8.Encode(value)| + 4, now, true),
                              [PackU32(|Utf8.Encode(value)|), Utf8.Encode(value)])
    requires w.result.Ok? && FitsHeader(env, w.post.meta)
    ensures Sound(env, w.post) && ReadString(env, w.post, key).result == Ok(value) && OthersKept(env, s, w.post, key)
  {
    PrefixedSlotFacts(env, s, key, Utf8.Encode(value), now);
    ReadEncodedSlot(env, w.post, key, value);
  }

  /** A length prefix and the bytes it counts, written into a sized 'string' slot, sit at the slot's offset. */
  lemma PrefixedSlotFacts(env: Env, s: Shm, key: string, bytes: seq<byte>, now: F64)
    requires Faithful(env.codec) && Sound(env, s) && |bytes| < TWO_32
    requires WriteAtSlot(Slot(env, s, key, StringVar, |bytes| + 4, now, true), [PackU32(|bytes|), bytes]).result.Ok?
    requires FitsHeader(env, WriteAtSlot(Slot(env, s, key, StringVar, |bytes| + 4, now, true), [PackU32(|bytes|), bytes]).post.meta)
    ensures var w := WriteAtSlot(Slot(env, s, key, StringVar, |bytes| + 4, now, true), [PackU32(|bytes|), bytes]).post;
      && Sound(env, w) && Loaded(env, w) == Some(w.meta)
      && key in w.meta.variables && w.meta.variables[key].vtype == StringVar
      && Read(w.seg, w.meta.variables[key].offset, |Concat([PackU32(|bytes|), bytes])|) == Some(Concat([PackU32(|bytes|), bytes]))
      && OthersKept(env, s, w, key)
  {
    ConcatPair(PackU32(|bytes|), bytes);
    WriteAtSlotFacts(env, s, key, StringVar, |bytes| + 4, now, true, [PackU32(|bytes|), bytes]);
  }

  /** A string slot holding the prefixed UTF-8 encoding of `value` reads back as `value`. */
  lemma ReadEncodedSlot(env: Env, p: Shm, key: string, value: string)
    requires |Utf8.Encode(value)| < TWO_32
    requires Loaded(env, p) == Some(p.meta) && key in p.meta.variables && p.meta.variables[key].vtype == StringVar
    requires Read(p.seg, p.meta.variables[key].offset, |Concat([PackU32(|Utf8.Encode(value)|), Utf8.Encode(value)])|)
      == Some(Concat([PackU32(|Utf8.Encode(value)|), Utf8.Encode(value)]))
    ensures ReadString(env, p, key).result == Ok(value)
  {
    var bytes := Utf8.Encode(value);
    ConcatPair(PackU32(|bytes|), bytes);
    Utf8.DecodeEncode(value);
    ReadStringSlot(env, p, key, bytes);
  }

  /** `write_string` then `read_string` gives the string back; other variables are untouched. */
  lemma WriteStringRoundTrip(env: Env, s: Shm, key: string, value: string, now: F64)
    requires Faithful(env.codec) && Sound(env, s)
    requires ShmSpec.WriteString(env, s, key, value, now).result.Ok?
    requires FitsHeader(env, ShmSpec.WriteString(env, s, key, value, now).post.meta)
    ensures var w := ShmSpec.WriteString(env, s, key, value, now).post;
      Sound(env, w) && ReadString(env, w, key).result == Ok(value) && OthersKept(env, s, w, key)
  {
    WriteStringAsSlotWrite(env, s, key, value, now);
    StringSlotRoundTrip(env, s, key, value, now, ShmSpec.WriteString(env, s, key, value, now));
  }

  /** The bytes of an array slot: ndim, the extents, the dtype code and the elements, end to end. */
  function ArrayBlob(a: NdArray): (b: seq<byte>)
    requires StorableArray(a)
    ensures b == Concat(ArrayChunks(a))
    ensures |b| == ArraySize(a)
  {
    var c := ArrayChunks(a);
    ConcatCons(c[0], c[1..]);
    ConcatCons(c[1], c[2..]);
    ConcatCons(c[2], c[3..]);
    ConcatCons(c[3], []);
    assert c[1..][1..] == c[2..] && c[2..][1..] == c[3..] && c[3..][1..] == [];
    c[0] + c[1] + c[2] + c[3]
  }

  /** The element bytes decode back to the elements under the dtype code written with them. */
  lemma DecodeDataBytes(data: ArrayData)
    requires data.Ints? ==> forall i :: 0 <= i < |data.ns| ==> IsInt32(data.ns[i])
    ensures DecodeData(DtypeCode(data), DataBytes(data)) == Some(data)
  {
    match data
    case Doubles(ds) => F64sRoundTrip(ds);
    case Ints(ns) => I32sRoundTrip(ns);
  }

  /** The four parts of an array blob, read in place. */
  lemma ReadArrayParts(seg: seq<byte>, off: nat, a: NdArray)
    requires StorableArray(a)
    requires Read(seg, off, ArraySize(a)) == Some(ArrayBlob(a))
    ensures Read(seg, off, 4) == Some(PackU32(|a.shape|))
    ensures Read(seg, off + 4, 4 * |a.shape|) == Some(PackI32s(a.shape))
    ensures Read(seg, off + 4 + 4 * |a.shape|, 4) == Some(PackU32(DtypeCode(a.data)))
    ensures Read(seg, off + 8 + 4 * |a.shape|, |DataBytes(a.data)|) == Some(DataBytes(a.data))
  {
    var p0 := PackU32(|a.shape|);
    var p1 := PackI32s(a.shape);
    var p2 := PackU32(DtypeCode(a.data));
    var data := DataBytes(a.data);
    assert ArrayBlob(a) == p0 + p1 + p2 + data;
    ReadSplit(seg, off, p0 + p1 + p2, data);
    ReadSplit(seg, off, p0 + p1, p2);
    ReadSplit(seg, off, p0, p1);
  }

  /** A canonical array slot holding the bytes of `a` decodes to `a`: same shape, same elements. */
  lemma DecodeArrayBlob(seg: seq<byte>, off: nat, a: NdArray)
    requires StorableArray(a)
    requires Read(seg, off, ArraySize(a)) == Some(ArrayBlob(a))
    ensures DecodeArrayAt(seg, off) == Ok(a)
  {
    ReadArrayParts(seg, off, a);
    DecodeArrayParts(seg, off, a);
  }

  /** The same, from the four parts of the blob read one by one. */
  lemma DecodeArrayParts(seg: seq<byte>, off: nat, a: NdArray)
    requires StorableArray(a)
    requires Read(seg, off, 4) == Some(PackU32(|a.shape|))
    requires Read(seg, off + 4, 4 * |a.shape|) == Some(PackI32s(a.shape))
    requires Read(seg, off + 4 + 4 * |a.shape|, 4) == Some(PackU32(DtypeCode(a.data)))
    requires Read(seg, off + 8 + 4 * |a.shape|, |DataBytes(a.data)|) == Some(DataBytes(a.data))
    ensures DecodeArrayAt(seg, off) == Ok(a)
  {
    var ndim := |a.shape|;
    U32RoundTrip(ndim);
    U32RoundTrip(DtypeCode(a.data));
    I32sRoundTrip(a.shape);
    DecodeArrayHeader(seg, off, PackU32(ndim), PackI32s(a.shape), PackU32(DtypeCode(a.data)), a.shape, DtypeCode(a.data));
    DecodeElementsOf(seg, off + 8 + 4 * ndim, a);
  }

  /** An array slot whose ndim, extents and dtype code read back leaves only its elements to decode. */
  lemma DecodeArrayHeader(seg: seq<byte>, off: nat, nb: seq<byte>, sb: seq<byte>, cb: seq<byte>, shape: seq<int>, code: nat)
    requires |nb| == 4 && Read(seg, off, 4) == Some(nb)
    requires Read(seg, off + 4, 4 * |shape|) == Some(sb) && UnpackU32(nb) == |shape| && UnpackI32s(sb) == Some(shape)
    requires |cb| == 4 && Read(seg, off + 4 + 4 * |shape|, 4) == Some(cb) && UnpackU32(cb) == code
    ensures DecodeArrayAt(seg, off) == DecodeElements(seg, off + 8 + 4 * |shape|, shape, code)
  {
  }

  /** The element bytes of `a`, read at `at` with its extents and dtype code, decode to `a`. */
  lemma DecodeElementsOf(seg: seq<byte>, at: nat, a: NdArray)
    requires StorableArray(a)
    requires Read(seg, at, |DataBytes(a.data)|) == Some(DataBytes(a.data))
    ensures DecodeElements(seg, at, a.shape, DtypeCode(a.data)) == Ok(a)
  {
    var code := DtypeCode(a.data);
    DecodeDataBytes(a.data);
    var total := Product(a.shape);
    var db := DataBytes(a.data);
    assert !(exists i :: 0 <= i < |a.shape| && a.shape[i] < 0);
    assert total * (if code == 1 then 8 else 4) == |db|;
  }

  /** A successful `write_array` is the sized-slot write of the array's chunks. */
  lemma WriteArrayAsSlotWrite(env: Env, s: Shm, key: string, a: NdArray, dtype: string, now: F64)
    requires StorableArray(a)
    requires dtype == "double" ==> a.data.Doubles?
    requires dtype == "int" ==> a.data.Ints?
    requires ShmSpec.WriteArray(env, s, key, a, dtype, now).result.Ok?
    ensures ShmSpec.WriteArray(env, s, key, a, dtype, now)
              == WriteAtSlot(Slot(env, s, key, ArrayVar, ArraySize(a), now, true), ArrayChunks(a))
  {
  }

  /** `write_array` then `read_array` gives the same shape and elements back; other variables are untouched. */
  lemma WriteArrayRoundTrip(env: Env, s: Shm, key: string, a: NdArray, dtype: string, now: F64)
    requires Faithful(env.codec) && Sound(env, s) && StorableArray(a)
    requires dtype == "double" ==> a.data.Doubles?
    requires dtype == "int" ==> a.data.Ints?
    requires ShmSpec.WriteArray(env, s, key, a, dtype, now).result.Ok?
    requires FitsHeader(env, ShmSpec.WriteArray(env, s, key, a, dtype, now).post.meta)
    ensures var w := ShmSpec.WriteArray(env, s, key, a, dtype, now).post;
      Sound(env, w) && ReadArray(env, w, key).result == Ok(a) && OthersKept(env, s, w, key)
  {
    WriteArrayAsSlotWrite(env, s, key, a, dtype, now);
    var blob := ArrayBlob(a);
    WriteAtSlotFacts(env, s, key, ArrayVar, ArraySize(a), now, true, ArrayChunks(a));
    var w := ShmSpec.WriteArray(env, s, key, a, dtype, now).post;
    LookupFound(env, w, key, ArrayVar);
    DecodeArrayBlob(w.seg, w.meta.variables[key].offset, a);
  }

  // ---------------------------------------------------------------------
  // Registry lookups and updates

  /**
   * `_get_var_info`, `check_variable_exists` and `list_variables` answer from the
   * freshly loaded header and leave the segment as it is: an absent name gives None
   * and False, and a header that does not load gives CorruptHeader.
   */
  lemma QueryFacts(env: Env, s: Shm, key: string)
    ensures var g := GetVarInfo(env, s, key);
      && g.post.seg == s.seg
      && (Loaded(env, s).None? ==> g.result == Err(CorruptHeader))
      && (Loaded(env, s).Some? ==>
            g.result == Ok(if key in Loaded(env, s).value.variables then Some(Loaded(env, s).value.variables[key]) else None))
    ensures var c := CheckVariableExists(env, s, key);
      && c.post.seg == s.seg
      && forall b: bool :: c.result == Ok(b) <==> Loaded(env, s).Some? && b == (key in Loaded(env, s).value.variables)
    ensures var l := ListVariables(env, s);
      && l.post.seg == s.seg
      && (l.result.Ok? <==> Loaded(env, s).Some?)
      && (l.result.Ok? ==> l.result.value == Loaded(env, s).value.variables)
  {
  }

  /**
   * `_register_var` on a header that loads: it succeeds exactly when the new header
   * can be saved, and then the header loads as the old registry with exactly the entry
   * for `key` inserted or replaced; no byte after the saved header changes.
   */
  lemma RegisterVarFacts(env: Env, s: Shm, key: string, t: VarType, off: nat, size: nat, now: F64)
    requires Faithful(env.codec) && Loaded(env, s).Some?
    ensures var m := Loaded(env, s).value;
      var m2 := Registered(m, key, Descriptor(t, off, size, now));
      var r := RegisterVar(env, s, key, t, off, size, now);
      && (r.result.Ok? <==> |env.codec.dumps(m2)| < HEADER_SIZE && 4 + |env.codec.dumps(m2)| <= |s.seg|)
      && (r.result.Err? ==> r.result.error == HeaderOverflow || r.result.error == OutOfSegment)
      && (r.result.Ok? ==> Loaded(env, r.post) == Some(m2) && r.post.meta == m2)
      && |r.post.seg| == |s.seg|
      && forall i :: 4 + |env.codec.dumps(m2)| <= i < |s.seg| ==> r.post.seg[i] == s.seg[i]
  {
    var m2 := Registered(Loaded(env, s).value, key, Descriptor(t, off, size, now));
    if SaveHeader(env.codec, s.seg, m2).result.Ok? {
      SaveThenLoad(env.codec, s.seg, m2);
    }
  }

  /** The new-slot path fails only for a full segment or a header that cannot be saved. */
  lemma AllocAndRegisterErrors(env: Env, s: Shm, key: string, t: VarType, n: nat, now: F64)
    requires Loaded(env, s).Some?
    ensures var a := AllocAndRegister(env, s, key, t, n, now);
      a.result.Err? ==> a.result.error in {SegmentFull, HeaderOverflow, OutOfSegment}
  {
  }

  // ---------------------------------------------------------------------
  // Type rules of the writes

  /** `write_int` raises TypeError exactly for a name registered with another type, and then writes nothing. */
  lemma WriteIntTypeRule(env: Env, s: Shm, key: string, value: int, now: F64)
    requires Loaded(env, s).Some? && IsInt32(value)
    ensures var m := Loaded(env, s).value;
      var w := ShmSpec.WriteInt(env, s, key, value, now);
      && (w.result == Err(TypeMismatch) <==> key in m.variables && m.variables[key].vtype != IntVar)
      && (w.result == Err(TypeMismatch) ==> w.post == Shm(s.seg, m))
  {
    AllocAndRegisterErrors(env, Shm(s.seg, Loaded(env, s).value), key, IntVar, 4, now);
  }

  /** `write_double` raises TypeError exactly for a name registered with another type, and then writes nothing. */
  lemma WriteDoubleTypeRule(env: Env, s: Shm, key: string, value: F64, now: F64)
    requires Loaded(env, s).Some?
    ensures var m := Loaded(env, s).value;
      var w := ShmSpec.WriteDouble(env, s, key, value, now);
      && (w.result == Err(TypeMismatch) <==> key in m.variables && m.variables[key].vtype != DoubleVar)
      && (w.result == Err(TypeMismatch) ==> w.post == Shm(s.seg, m))
  {
    AllocAndRegisterErrors(env, Shm(s.seg, Loaded(env, s).value), key, DoubleVar, 8, now);
  }

  /**
   * The canonical `write_string` raises TypeError only when the name holds another
   * type in a slot big enough for the new string; a smaller slot of any type is
   * silently replaced by a new 'string' slot.
   */
  lemma WriteStringTypeRule(env: Env, s: Shm, key: string, value: string, now: F64)
    requires Loaded(env, s).Some?
    ensures var m := Loaded(env, s).value;
      var n := |Utf8.Encode(value)| + 4;
      var w := ShmSpec.WriteString(env, s, key, value, now);
      && (w.result == Err(TypeMismatch) <==>
            key in m.variables && m.variables[key].vtype != StringVar && n <= m.variables[key].size)
      && (w.result == Err(TypeMismatch) ==> w.post == Shm(s.seg, m))
  {
    AllocAndRegisterErrors(env, Shm(s.seg, Loaded(env, s).value), key, StringVar, |Utf8.Encode(value)| + 4, now);
  }

  /**
   * `write_array` refuses a dtype other than 'double' and 'int', and then an extent
   * that does not fit an int32, before touching anything; otherwise it raises
   * TypeError under the same rule as `write_string`.
   */
  lemma WriteArrayTypeRule(env: Env, s: Shm, key: string, a: NdArray, dtype: string, now: F64)
    requires Loaded(env, s).Some? && WellFormedArray(a) && ElementsFit(a.data)
    requires dtype == "double" ==> a.data.Doubles?
    requires dtype == "int" ==> a.data.Ints?
    ensures var m := Loaded(env, s).value;
      var w := ShmSpec.WriteArray(env, s, key, a, dtype, now);
      && (dtype != "double" && dtype != "int" ==> w == Step(Err(UnsupportedDtype), s))
      && ((dtype == "double" || dtype == "int") && !ExtentsFit(a.shape) ==> w == Step(Err(ExtentOverflow), s))
      && (w.result == Err(TypeMismatch) <==>
            && (dtype == "double" || dtype == "int") && ExtentsFit(a.shape)
            && key in m.variables && m.variables[key].vtype != ArrayVar && ArraySize(a) <= m.variables[key].size)
      && (w.result == Err(TypeMismatch) ==> w.post == Shm(s.seg, m))
  {
    AllocAndRegisterErrors(env, Shm(s.seg, Loaded(env, s).value), key, ArrayVar, ArraySize(a), now);
  }

  // ---------------------------------------------------------------------
  // Rewriting a variable in place

  /** A name registered as `t`, with at least `n` bytes when the size is checked, keeps its slot. */
  lemma ReusedSlot(env: Env, s: Shm, key: string, t: VarType, n: nat, now: F64, sized: bool)
    requires Loaded(env, s).Some? && key in Loaded(env, s).value.variables
    requires Loaded(env, s).value.variables[key].vtype == t
    requires sized ==> n <= Loaded(env, s).value.variables[key].size
    ensures Slot(env, s, key, t, n, now, sized)
              == Step(Ok(Loaded(env, s).value.variables[key].offset), Shm(s.seg, Loaded(env, s).value))
  {
  }

  /** Storing at most a slot's worth of bytes at the start of a registered slot, on a sound state. */
  lemma StoreInOwnSlot(env: Env, s: Shm, d: Descriptor, chunks: seq<seq<byte>>)
    requires chunks != []
    requires Sound(env, s) && d in Loaded(env, s).value.variables.Values
    requires |Concat(chunks)| <= d.size
    ensures var w := StoreStep(Shm(s.seg, Loaded(env, s).value), d.offset, chunks);
      && w.result.Ok?
      && w.post.meta == Loaded(env, s).value && Loaded(env, w.post) == Loaded(env, s)
      && |w.post.seg| == |s.seg|
      && forall i :: 0 <= i < |s.seg| && !(d.offset <= i < End(d)) ==> w.post.seg[i] == s.seg[i]
  {
    var vars := Loaded(env, s).value.variables;
    var k :| k in vars && vars[k] == d;
    assert HEADER_SIZE <= d.offset && End(d) <= |s.seg|;
    StoreChunksPastHeader(env.codec, s.seg, d.offset, chunks);
  }

  /**
   * Rewriting a variable into its own slot: the write succeeds, the registry and the
   * header stay as they were, and only bytes inside the slot change.
   */
  lemma WriteAtReusedSlot(env: Env, s: Shm, key: string, t: VarType, n: nat, now: F64, sized: bool, chunks: seq<seq<byte>>)
    requires chunks != []
    requires Sound(env, s) && key in Loaded(env, s).value.variables
    requires Loaded(env, s).value.variables[key].vtype == t
    requires sized ==> n <= Loaded(env, s).value.variables[key].size
    requires |Concat(chunks)| <= (if sized then n else MinSize(t))
    ensures var w := WriteAtSlot(Slot(env, s, key, t, n, now, sized), chunks);
      var d := Loaded(env, s).value.variables[key];
      && w.result.Ok?
      && w.post.meta == Loaded(env, s).value && Loaded(env, w.post) == Loaded(env, s)
      && |w.post.seg| == |s.seg|
      && forall i :: 0 <= i < |s.seg| && !(d.offset <= i < End(d)) ==> w.post.seg[i] == s.seg[i]
  {
    var m := Loaded(env, s).value;
    var d := m.variables[key];
    ReusedSlot(env, s, key, t, n, now, sized);
    assert WriteAtSlot(Slot(env, s, key, t, n, now, sized), chunks) == StoreStep(Shm(s.seg, m), d.offset, chunks);
    StoreInOwnSlot(env, s, d, chunks);
  }

  /** Rewriting an 'int' reuses its slot and changes nothing outside it. */
  lemma WriteIntInPlace(env: Env, s: Shm, key: string, value: int, now: F64)
    requires Sound(env, s) && IsInt32(value)
    requires key in Loaded(env, s).value.variables && Loaded(env, s).value.variables[key].vtype == IntVar
    ensures var w := ShmSpec.WriteInt(env, s, key, value, now);
      var d := Loaded(env, s).value.variables[key];
      && w.result.Ok? && Loaded(env, w.post) == Loaded(env, s)
      && |w.post.seg| == |s.seg|
      && forall i :: 0 <= i < |s.seg| && !(d.offset <= i < End(d)) ==> w.post.seg[i] == s.seg[i]
  {
    assert Concat([PackI32(value)]) == PackI32(value) + Concat([]);
    WriteAtReusedSlot(env, s, key, IntVar, 4, now, false, [PackI32(value)]);
  }

  /** Rewriting a 'double' reuses its slot and changes nothing outside it. */
  lemma WriteDoubleInPlace(env: Env, s: Shm, key: string, value: F64, now: F64)
    requires Sound(env, s)
    requires key in Loaded(env, s).value.variables && Loaded(env, s).value.variables[key].vtype == DoubleVar
    ensures var w := ShmSpec.WriteDouble(env, s, key, value, now);
      var d := Loaded(env, s).value.variables[key];
      && w.result.Ok? && Loaded(env, w.post) == Loaded(env, s)
      && |w.post.seg| == |s.seg|
      && forall i :: 0 <= i < |s.seg| && !(d.offset <= i < End(d)) ==> w.post.seg[i] == s.seg[i]
  {
    assert Concat([value]) == value + Concat([]);
    WriteAtReusedSlot(env, s, key, DoubleVar, 8, now, false, [value]);
  }

  /** Rewriting a 'string' whose slot holds the new one reuses the slot and changes nothing outside it. */
  lemma WriteStringInPlace(env: Env, s: Shm, key: string, value: string, now: F64)
    requires Sound(env, s) && |Utf8.Encode(value)| < TWO_32
    requires key in Loaded(env, s).value.variables && Loaded(env, s).value.variables[key].vtype == StringVar
    requires |Utf8.Encode(value)| + 4 <= Loaded(env, s).value.variables[key].size
    ensures var w := ShmSpec.WriteString(env, s, key, value, now);
      var d := Loaded(env, s).value.variables[key];
      && w.result.Ok? && Loaded(env, w.post) == Loaded(env, s)
      && |w.post.seg| == |s.seg|
      && forall i :: 0 <= i < |s.seg| && !(d.offset <= i < End(d)) ==> w.post.seg[i] == s.seg[i]
  {
    var bytes := Utf8.Encode(value);
    ConcatPair(PackU32(|bytes|), bytes);
    ReusedSlot(env, s, key, StringVar, |bytes| + 4, now, true);
    WriteAtReusedSlot(env, s, key, StringVar, |bytes| + 4, now, true, [PackU32(|bytes|), bytes]);
  }

  /** Rewriting an 'array' whose slot holds the new one reuses the slot and changes nothing outside it. */
  lemma WriteArrayInPlace(env: Env, s: Shm, key: string, a: NdArray, dtype: string, now: F64)
    requires Sound(env, s) && StorableArray(a)
    requires dtype == "double" || dtype == "int"
    requires dtype == "double" ==> a.data.Doubles?
    requires dtype == "int" ==> a.data.Ints?
    requires key in Loaded(env, s).value.variables && Loaded(env, s).value.variables[key].vtype == ArrayVar
    requires ArraySize(a) <= Loaded(env, s).value.variables[key].size
    ensures var w := ShmSpec.WriteArray(env, s, key, a, dtype, now);
      var d := Loaded(env, s).value.variables[key];
      && w.result.Ok? && Loaded(env, w.post) == Loaded(env, s)
      && |w.post.seg| == |s.seg|
      && forall i :: 0 <= i < |s.seg| && !(d.offset <= i < End(d)) ==> w.post.seg[i] == s.seg[i]
  {
    var blob := ArrayBlob(a);
    WriteAtReusedSlot(env, s, key, ArrayVar, ArraySize(a), now, true, ArrayChunks(a));
  }

  // ---------------------------------------------------------------------
  // Reads

  /**
   * Every read answers KeyError exactly for an absent name and TypeError exactly for
   * a name of another type, and none changes the segment.
   */
  lemma ReadErrors(env: Env, s: Shm, key: string)
    requires Loaded(env, s).Some?
    ensures var vars := Loaded(env, s).value.variables;
      && (ReadInt(env, s, key).result == Err(VariableNotFound) <==> key !in vars)
      && (ReadInt(env, s, key).result == Err(TypeMismatch) <==> key in vars && vars[key].vtype != IntVar)
      && (ReadDouble(env, s, key).result == Err(VariableNotFound) <==> key !in vars)
      && (ReadDouble(env, s, key).result == Err(TypeMismatch) <==> key in vars && vars[key].vtype != DoubleVar)
      && (ReadString(env, s, key).result == Err(VariableNotFound) <==> key !in vars)
      && (ReadString(env, s, key).result == Err(TypeMismatch) <==> key in vars && vars[key].vtype != StringVar)
      && (ReadArray(env, s, key).result == Err(VariableNotFound) <==> key !in vars)
      && (ReadArray(env, s, key).result == Err(TypeMismatch) <==> key in vars && vars[key].vtype != ArrayVar)
      && ReadInt(env, s, key).post.seg == s.seg && ReadDouble(env, s, key).post.seg == s.seg
      && ReadString(env, s, key).post.seg == s.seg && ReadArray(env, s, key).post.seg == s.seg
  {
  }
}
