/**
 * The divergent `SharedMemoryManager` of pyfreefem_ml/shm_manager.py. Its key,
 * header, allocator, registry, scalar operations and `read_string` are those of
 * the canonical manager line for line; it differs in `write_string`, which checks
 * the type before the size, and in its array format: a u32 element count, a u32
 * ndim and a u32 `shape[0]`, then the elements as float64, read back as a 1-D
 * array of `shape[0]` elements.
 */
module ShmVariant {
  import opened Wrappers
  import opened Bytes
  import Utf8
  import opened Registry
  import opened ShmSpec
  import opened ShmProperties
  import opened ShmManager

  // ---------------------------------------------------------------------
  // What the variant's operations do

  /**
   * The slot a variable-size write goes to in the variant: TypeError for a name of
   * another type whatever its size, a new slot when the name is absent or its slot is
   * smaller than `n`, the registered one otherwise.
   */
  ghost function VariantSlot(env: Env, s: Shm, key: string, t: VarType, n: nat, now: F64): Step<nat>
  {
    var g := GetVarInfo(env, s, key);
    match g.result
    case Err(e) => Step(Err(e), g.post)
    case Ok(None) => AllocAndRegister(env, g.post, key, t, n, now)
    case Ok(Some(d)) =>
      if d.vtype != t then Step(Err(TypeMismatch), g.post)
      else if d.size < n then AllocAndRegister(env, g.post, key, t, n, now)
      else Step(Ok(d.offset), g.post)
  }

  /** The variant's `write_string(key, value)`. */
  ghost function WriteString(env: Env, s: Shm, key: string, value: string, now: F64): Step<()>
  {
    var bytes := Utf8.Encode(value);
    WriteStringAt(VariantSlot(env, s, key, StringVar, |bytes| + 4, now), bytes)
  }

  /** The slot size the variant asks for: 12 header bytes and 8 bytes per element. */
  function VariantSize(ds: seq<F64>): nat { 12 + 8 * |ds| }

  /** The layout of a variant array slot: u32 count, u32 ndim, u32 `shape[0]`, float64 elements. */
  function VariantChunks(shape: seq<int>, ds: seq<F64>): seq<seq<byte>>
    requires |ds| < TWO_32 && 0 < |shape| < TWO_32 && 0 <= shape[0] < TWO_32
  {
    [PackU32(|ds|), PackU32(|shape|), PackU32(shape[0]), PackF64s(ds)]
  }

  /**
   * Write an array's slot once the slot is chosen. `struct.pack('I', array.size)`
   * refuses 2**32 elements or more before anything is written; a 0-d array has its
   * count and ndim written before `array.shape[0]` raises IndexError, and a first
   * extent of 2**32 or more has them written before `struct.pack` refuses it.
   */
  function WriteArrayAt(slot: Step<nat>, shape: seq<int>, ds: seq<F64>): Step<()>
    requires |shape| < TWO_32 && (|shape| > 0 ==> 0 <= shape[0])
  {
    match slot.result
    case Err(e) => Step(Err(e), slot.post)
    case Ok(off) =>
      if |ds| >= TWO_32 then Step(Err(PackOverflow), slot.post)
      else if |shape| == 0 then
        var w := StoreStep(slot.post, off, [PackU32(|ds|), PackU32(0)]);
        if w.result.Err? then w else Step(Err(IndexFailed), w.post)
      else if shape[0] >= TWO_32 then
        var w := StoreStep(slot.post, off, [PackU32(|ds|), PackU32(|shape|)]);
        if w.result.Err? then w else Step(Err(PackOverflow), w.post)
      else StoreStep(slot.post, off, VariantChunks(shape, ds))
  }

  /** The variant's `write_array(key, array)`; the array is already float64. */
  ghost function WriteArray(env: Env, s: Shm, key: string, a: NdArray, now: F64): Step<()>
    requires WellFormedArray(a) && a.data.Doubles?
  {
    WriteArrayAt(VariantSlot(env, s, key, ArrayVar, VariantSize(a.data.ds), now), a.shape, a.data.ds)
  }

  /** Decode a variant array slot: `count` float64s reshaped to `(shape[0],)`. */
  function DecodeVariantAt(seg: seq<byte>, off: nat): Result<NdArray, Error>
  {
    match Read(seg, off, 4)
    case None => Err(OutOfSegment)
    case Some(cb) =>
      match Read(seg, off + 4, 4)
      case None => Err(OutOfSegment)
      case Some(_) =>
        match Read(seg, off + 8, 4)
        case None => Err(OutOfSegment)
        case Some(sb) =>
          var count := UnpackU32(cb);
          var extent := UnpackU32(sb);
          match Read(seg, off + 12, count * 8)
          case None => Err(OutOfSegment)
          case Some(db) =>
            match UnpackF64s(db)
            case None => Err(Undecodable)
            case Some(ds) => if extent != count then Err(ReshapeFailed) else Ok(NdArray([extent], Doubles(ds)))
  }

  /** The variant's `read_array(key)`. */
  function ReadArray(env: Env, s: Shm, key: string): Step<NdArray>
  {
    var l := Lookup(env, s, key, ArrayVar);
    match l.result
    case Err(e) => Step(Err(e), l.post)
    case Ok(d) => Step(DecodeVariantAt(s.seg, d.offset), l.post)
  }

  // ---------------------------------------------------------------------
  // Write rules

  /**
   * The variant chooses the same slot as the canonical manager unless the name holds
   * another type, where it raises TypeError without allocating.
   */
  lemma VariantSlotAgrees(env: Env, s: Shm, key: string, t: VarType, n: nat, now: F64)
    ensures var l := Loaded(env, s);
      (l.None? || key !in l.value.variables || l.value.variables[key].vtype == t) ==>
        VariantSlot(env, s, key, t, n, now) == SizedSlot(env, s, key, t, n, now)
    ensures var l := Loaded(env, s);
      (l.Some? && key in l.value.variables && l.value.variables[key].vtype != t) ==>
        VariantSlot(env, s, key, t, n, now) == Step(Err(TypeMismatch), Shm(s.seg, l.value))
  {
  }

  /** The variant's `write_string` raises TypeError exactly for a name of another type, whatever its slot's size. */
  lemma VariantWriteStringTypeRule(env: Env, s: Shm, key: string, value: string, now: F64)
    requires Loaded(env, s).Some?
    ensures var m := Loaded(env, s).value;
      var w := WriteString(env, s, key, value, now);
      && (w.result == Err(TypeMismatch) <==> key in m.variables && m.variables[key].vtype != StringVar)
      && (w.result == Err(TypeMismatch) ==> w.post == Shm(s.seg, m))
  {
    VariantSlotAgrees(env, s, key, StringVar, |Utf8.Encode(value)| + 4, now);
    ShmProperties.WriteStringTypeRule(env, s, key, value, now);
  }

  /**
   * Where the two `write_string`s part: a name of another type whose slot is too small
   * for the string is re-registered as a 'string' by the canonical manager and refused
   * by the variant.
   */
  lemma WriteStringRulesDiffer(env: Env, s: Shm, key: string, value: string, now: F64)
    requires Loaded(env, s).Some? && key in Loaded(env, s).value.variables
    requires Loaded(env, s).value.variables[key].vtype != StringVar
    requires Loaded(env, s).value.variables[key].size < |Utf8.Encode(value)| + 4
    ensures ShmSpec.WriteString(env, s, key, value, now).result != Err(TypeMismatch)
    ensures WriteString(env, s, key, value, now).result == Err(TypeMismatch)
  {
    ShmProperties.WriteStringTypeRule(env, s, key, value, now);
    VariantWriteStringTypeRule(env, s, key, value, now);
  }

  /** A successful variant `write_string` does what the canonical one does. */
  lemma VariantWriteStringAgrees(env: Env, s: Shm, key: string, value: string, now: F64)
    requires WriteString(env, s, key, value, now).result.Ok?
    ensures WriteString(env, s, key, value, now) == ShmSpec.WriteString(env, s, key, value, now)
  {
    VariantSlotAgrees(env, s, key, StringVar, |Utf8.Encode(value)| + 4, now);
  }

  /** The variant's `write_string` then `read_string` gives the string back; other variables are untouched. */
  lemma VariantWriteStringRoundTrip(env: Env, s: Shm, key: string, value: string, now: F64)
    requires Faithful(env.codec) && Sound(env, s)
    requires WriteString(env, s, key, value, now).result.Ok?
    requires FitsHeader(env, WriteString(env, s, key, value, now).post.meta)
    ensures var w := WriteString(env, s, key, value, now).post;
      Sound(env, w) && ReadString(env, w, key).result == Ok(value) && OthersKept(env, s, w, key)
  {
    VariantWriteStringAgrees(env, s, key, value, now);
    WriteStringRoundTrip(env, s, key, value, now);
  }

  /** The variant reuses a 'string' slot big enough for the new string, changing nothing outside it. */
  lemma VariantWriteStringInPlace(env: Env, s: Shm, key: string, value: string, now: F64)
    requires Sound(env, s) && |Utf8.Encode(value)| < TWO_32
    requires key in Loaded(env, s).value.variables && Loaded(env, s).value.variables[key].vtype == StringVar
    requires |Utf8.Encode(value)| + 4 <= Loaded(env, s).value.variables[key].size
    ensures var w := WriteString(env, s, key, value, now);
      var d := Loaded(env, s).value.variables[key];
      && w.result.Ok? && Loaded(env, w.post) == Loaded(env, s)
      && |w.post.seg| == |s.seg|
      && forall i :: 0 <= i < |s.seg| && !(d.offset <= i < End(d)) ==> w.post.seg[i] == s.seg[i]
  {
    VariantSlotAgrees(env, s, key, StringVar, |Utf8.Encode(value)| + 4, now);
    WriteStringInPlace(env, s, key, value, now);
  }

  /** The variant's `write_array` raises TypeError exactly for a name of another type. */
  lemma VariantWriteArrayTypeRule(env: Env, s: Shm, key: string, a: NdArray, now: F64)
    requires Loaded(env, s).Some? && WellFormedArray(a) && a.data.Doubles?
    ensures var m := Loaded(env, s).value;
      var w := WriteArray(env, s, key, a, now);
      && (w.result == Err(TypeMismatch) <==> key in m.variables && m.variables[key].vtype != ArrayVar)
      && (w.result == Err(TypeMismatch) ==> w.post == Shm(s.seg, m))
  {
    VariantSlotAgrees(env, s, key, ArrayVar, VariantSize(a.data.ds), now);
    AllocAndRegisterErrors(env, Shm(s.seg, Loaded(env, s).value), key, ArrayVar, VariantSize(a.data.ds), now);
  }

  // ---------------------------------------------------------------------
  // The variant's array format

  /** The bytes of a variant array slot, end to end. */
  function VariantBlob(shape: seq<int>, ds: seq<F64>): (b: seq<byte>)
    requires |ds| < TWO_32 && 0 < |shape| < TWO_32 && 0 <= shape[0] < TWO_32
    ensures b == Concat(VariantChunks(shape, ds))
    ensures |b| == VariantSize(ds)
  {
    var c := VariantChunks(shape, ds);
    ConcatCons(c[0], c[1..]);
    ConcatCons(c[1], c[2..]);
    ConcatCons(c[2], c[3..]);
    ConcatCons(c[3], []);
    assert c[1..][1..] == c[2..] && c[2..][1..] == c[3..] && c[3..][1..] == [];
    c[0] + c[1] + c[2] + c[3]
  }

  /**
   * A variant slot holding the bytes of an array decodes to the 1-D array of its
   * first extent when that extent equals the element count, and fails to reshape
   * otherwise.
   */
  lemma DecodeVariantBlob(seg: seq<byte>, off: nat, shape: seq<int>, ds: seq<F64>)
    requires |ds| < TWO_32 && 0 < |shape| < TWO_32 && 0 <= shape[0] < TWO_32
    requires Read(seg, off, VariantSize(ds)) == Some(VariantBlob(shape, ds))
    ensures DecodeVariantAt(seg, off)
              == if shape[0] == |ds| then Ok(NdArray([shape[0]], Doubles(ds))) else Err(ReshapeFailed)
  {
    var p0 := PackU32(|ds|);
    var p1 := PackU32(|shape|);
    var p2 := PackU32(shape[0]);
    assert VariantBlob(shape, ds) == p0 + p1 + p2 + PackF64s(ds);
    ReadSplit(seg, off, p0 + p1 + p2, PackF64s(ds));
    ReadSplit(seg, off, p0 + p1, p2);
    ReadSplit(seg, off, p0, p1);
    U32RoundTrip(|ds|);
    U32RoundTrip(shape[0]);
    F64sRoundTrip(ds);
    assert UnpackU32(Read(seg, off, 4).value) == |ds|;
    assert UnpackU32(Read(seg, off + 8, 4).value) == shape[0];
    assert Read(seg, off + 12, |ds| * 8) == Some(PackF64s(ds));
  }

  /** The variant's `read_array` on a registered array slot holding a variant blob. */
  lemma VariantReadBack(env: Env, w: Shm, key: string, shape: seq<int>, ds: seq<F64>)
    requires |ds| < TWO_32 && 0 < |shape| < TWO_32 && 0 <= shape[0] < TWO_32
    requires Loaded(env, w) == Some(w.meta) && key in w.meta.variables && w.meta.variables[key].vtype == ArrayVar
    requires Read(w.seg, w.meta.variables[key].offset, VariantSize(ds)) == Some(VariantBlob(shape, ds))
    ensures ReadArray(env, w, key).result
              == if shape[0] == |ds| then Ok(NdArray([shape[0]], Doubles(ds))) else Err(ReshapeFailed)
  {
    var d := w.meta.variables[key];
    LookupFound(env, w, key, ArrayVar);
    DecodeVariantBlob(w.seg, d.offset, shape, ds);
  }

  /** A successful variant `write_array` is the sized-slot write of its four chunks. */
  lemma VariantWriteArrayAsSlotWrite(env: Env, s: Shm, key: string, a: NdArray, now: F64)
    requires WellFormedArray(a) && a.data.Doubles?
    requires WriteArray(env, s, key, a, now).result.Ok?
    ensures |a.data.ds| < TWO_32 && |a.shape| > 0 && a.shape[0] < TWO_32
    ensures WriteArray(env, s, key, a, now)
              == WriteAtSlot(Slot(env, s, key, ArrayVar, VariantSize(a.data.ds), now, true), VariantChunks(a.shape, a.data.ds))
  {
    VariantSlotAgrees(env, s, key, ArrayVar, VariantSize(a.data.ds), now);
  }

  /**
   * The variant's `write_array` then `read_array`: the elements come back as a 1-D
   * array of `shape[0]` elements when that is the element count, and the reshape
   * fails otherwise. So 1-D arrays round-trip, and an array of two or more
   * dimensions never comes back with its shape. Other variables are untouched.
   */
  lemma VariantArrayRoundTrip(env: Env, s: Shm, key: string, a: NdArray, now: F64)
    requires Faithful(env.codec) && Sound(env, s) && WellFormedArray(a) && a.data.Doubles?
    requires WriteArray(env, s, key, a, now).result.Ok?
    requires FitsHeader(env, WriteArray(env, s, key, a, now).post.meta)
    ensures var w := WriteArray(env, s, key, a, now).post;
      && Sound(env, w) && OthersKept(env, s, w, key)
      && ReadArray(env, w, key).result
           == (if a.shape[0] == |a.data.ds| then Ok(NdArray([a.shape[0]], a.data)) else Err(ReshapeFailed))
      && (|a.shape| == 1 ==> ReadArray(env, w, key).result == Ok(a))
      && (|a.shape| >= 2 ==> ReadArray(env, w, key).result != Ok(a))
  {
    VariantWriteArrayAsSlotWrite(env, s, key, a, now);
    var chunks := VariantChunks(a.shape, a.data.ds);
    var blob := VariantBlob(a.shape, a.data.ds);
    WriteAtSlotFacts(env, s, key, ArrayVar, VariantSize(a.data.ds), now, true, chunks);
    var w := WriteArray(env, s, key, a, now).post;
    VariantReadBack(env, w, key, a.shape, a.data.ds);
    if |a.shape| == 1 {
      assert a.shape == [a.shape[0]];
      assert Product(a.shape) == a.shape[0] * Product([]);
    }
  }

  /**
   * A 0-d array is never stored by the variant: `array.shape[0]` raises IndexError
   * once the slot is chosen, and the variable is left registered with a partly
   * written slot.
   */
  lemma VariantZeroDimFails(env: Env, s: Shm, key: string, a: NdArray, now: F64)
    requires WellFormedArray(a) && a.data.Doubles? && |a.shape| == 0
    ensures WriteArray(env, s, key, a, now).result.Err?
    ensures var slot := VariantSlot(env, s, key, ArrayVar, VariantSize(a.data.ds), now);
      slot.result.Ok? && |a.data.ds| < TWO_32 && slot.result.value + 8 <= |slot.post.seg| ==>
        WriteArray(env, s, key, a, now).result == Err(IndexFailed)
  {
    var slot := VariantSlot(env, s, key, ArrayVar, VariantSize(a.data.ds), now);
    if slot.result.Ok? && |a.data.ds| < TWO_32 && slot.result.value + 8 <= |slot.post.seg| {
      var c := [PackU32(|a.data.ds|), PackU32(0)];
      ConcatCons(c[0], c[1..]);
      ConcatCons(c[1], []);
      assert c[1..][1..] == [];
      assert |Concat(c)| == 8;
    }
  }

  /**
   * A first extent of 2**32 or more is never stored by the variant. Either the count
   * is 2**32 or more too and `struct.pack('I', array.size)` refuses it, or the array
   * is empty, such as one of shape (2**32, 0), and `struct.pack('I', array.shape[0])`
   * refuses it once the count and ndim are written, leaving the variable registered.
   */
  lemma VariantExtentOverflow(env: Env, s: Shm, key: string, a: NdArray, now: F64)
    requires WellFormedArray(a) && a.data.Doubles? && |a.shape| > 0 && a.shape[0] >= TWO_32
    ensures |a.data.ds| == 0 || |a.data.ds| >= TWO_32
    ensures WriteArray(env, s, key, a, now).result.Err?
    ensures var slot := VariantSlot(env, s, key, ArrayVar, VariantSize(a.data.ds), now);
      slot.result.Ok? && slot.result.value + 8 <= |slot.post.seg| ==>
        WriteArray(env, s, key, a, now).result == Err(PackOverflow)
  {
    ProductOfLarge(a.shape);
    var slot := VariantSlot(env, s, key, ArrayVar, VariantSize(a.data.ds), now);
    if slot.result.Ok? && slot.result.value + 8 <= |slot.post.seg| && |a.data.ds| < TWO_32 {
      var c := [PackU32(|a.data.ds|), PackU32(|a.shape|)];
      ConcatCons(c[0], c[1..]);
      ConcatCons(c[1], []);
      assert c[1..][1..] == [];
      assert |Concat(c)| == 8;
    }
  }

  /** Non-negative extents whose first is 2**32 or more multiply to 0 or to 2**32 or more. */
  lemma ProductOfLarge(shape: seq<int>)
    requires |shape| > 0 && shape[0] >= TWO_32
    requires forall i :: 0 <= i < |shape| ==> 0 <= shape[i]
    ensures Product(shape) == 0 || Product(shape) >= TWO_32
  {
    ProductNonNegative(shape[1..]);
  }

  // ---------------------------------------------------------------------
  // The variant's operations on the manager object

  /** The variant's slot choice on a manager: the type check comes before the size check. */
  method ChooseVariantSlot(mgr: SharedMemoryManager, key: string, t: VarType, n: nat, now: F64) returns (r: Result<nat, Error>)
    modifies mgr, mgr.memory
    ensures Step(r, mgr.State()) == VariantSlot(mgr.Config(), old(mgr.State()), key, t, n, now)
  {
    var info := mgr.GetVarInfo(key);
    if info.Err? {
      return Err(info.error);
    }
    if info.value.Some? && info.value.value.vtype != t {
      return Err(TypeMismatch);
    }
    if info.value.None? || info.value.value.size < n {
      r := mgr.AllocAndRegister(key, t, n, now);
    } else {
      r := Ok(info.value.value.offset);
    }
  }

  /** The variant's `write_string` on a manager. */
  method VariantWriteString(mgr: SharedMemoryManager, key: string, value: string, now: F64) returns (r: Result<(), Error>)
    modifies mgr, mgr.memory
    ensures Step(r, mgr.State()) == WriteString(mgr.Config(), old(mgr.State()), key, value, now)
  {
    var byteData := Utf8.Encode(value);
    var dataSize := |byteData| + 4;
    ghost var slot := VariantSlot(mgr.Config(), mgr.State(), key, StringVar, dataSize, now);
    var offset := ChooseVariantSlot(mgr, key, StringVar, dataSize, now);
    assert slot == Step(offset, mgr.State());
    if offset.Err? {
      return Err(offset.error);
    }
    if |byteData| >= TWO_32 {
      return Err(PackOverflow);
    }
    r := mgr.WriteChunks(offset.value, [PackU32(|byteData|), byteData]);
  }

  /** The variant's `write_array` on a manager. */
  method VariantWriteArray(mgr: SharedMemoryManager, key: string, arr: NdArray, now: F64) returns (r: Result<(), Error>)
    requires WellFormedArray(arr) && arr.data.Doubles?
    modifies mgr, mgr.memory
    ensures Step(r, mgr.State()) == WriteArray(mgr.Config(), old(mgr.State()), key, arr, now)
  {
    var ds := arr.data.ds;
    var offset := ChooseVariantSlot(mgr, key, ArrayVar, 8 * |ds| + 12, now);
    if offset.Err? {
      return Err(offset.error);
    }
    if |ds| >= TWO_32 {
      return Err(PackOverflow);
    }
    if |arr.shape| == 0 {
      var w := mgr.WriteChunks(offset.value, [PackU32(|ds|), PackU32(0)]);
      if w.Err? {
        return w;
      }
      return Err(IndexFailed);
    }
    if arr.shape[0] >= TWO_32 {
      var w := mgr.WriteChunks(offset.value, [PackU32(|ds|), PackU32(|arr.shape|)]);
      if w.Err? {
        return w;
      }
      return Err(PackOverflow);
    }
    r := mgr.WriteChunks(offset.value, VariantChunks(arr.shape, ds));
  }

  /** The variant's `read_array` on a manager. */
  method VariantReadArray(mgr: SharedMemoryManager, key: string) returns (r: Result<NdArray, Error>)
    modifies mgr
    ensures Step(r, mgr.State()) == ReadArray(mgr.Config(), old(mgr.State()), key)
  {
    var info := mgr.GetVarInfo(key);
    if info.Err? {
      return Err(info.error);
    }
    if info.value.None? {
      return Err(VariableNotFound);
    }
    var d := info.value.value;
    if d.vtype != ArrayVar {
      return Err(TypeMismatch);
    }
    var sizeData := mgr.ReadBytes(d.offset, 4);
    if sizeData.None? {
      return Err(OutOfSegment);
    }
    var ndimData := mgr.ReadBytes(d.offset + 4, 4);
    if ndimData.None? {
      return Err(OutOfSegment);
    }
    var shapeData := mgr.ReadBytes(d.offset + 8, 4);
    if shapeData.None? {
      return Err(OutOfSegment);
    }
    var count := UnpackU32(sizeData.value);
    var extent := UnpackU32(shapeData.value);
    var data := mgr.ReadBytes(d.offset + 12, count * 8);
    if data.None? {
      return Err(OutOfSegment);
    }
    var ds := UnpackF64s(data.value);
    if ds.None? {
      return Err(Undecodable);
    }
    if extent != count {
      return Err(ReshapeFailed);
    }
    r := Ok(NdArray([extent], Doubles(ds.value)));
  }
}
