/**
 * What each operation of the canonical SharedMemoryManager does to the
 * segment bytes and to the cached `self.metadata`, as functions of the state
 * before the call. Every operation starts from the header: it reloads it from
 * the segment (`_load_header`) before looking anything up, allocating or
 * registering.
 */
module ShmSpec {
  import opened Wrappers
  import opened Bytes
  import Utf8
  import opened Registry
  import Text

  /** The manager's state: the segment's bytes and the metadata it last loaded or built. */
  datatype Shm = Shm(seg: seq<byte>, meta: Metadata)

  /**
   * What a manager fixes at construction: the JSON codec of its header and
   * `self.size`, the bound the allocator checks against. `self.size` need not
   * be the segment's length: a manager attached with `create=False` keeps the
   * default size whatever the segment's.
   */
  datatype Env = Env(codec: JsonCodec, size: nat)

  /** The outcome of an operation and the state it leaves behind. */
  datatype Step<T> = Step(result: Result<T, Error>, post: Shm)

  /** The element type a numpy array is stored as: dtype 'double' (code 1) or 'int' (code 0). */
  datatype ArrayData = Doubles(ds: seq<F64>) | Ints(ns: seq<int>)

  /** An N-D array: its shape and its elements in row-major order. */
  datatype NdArray = NdArray(shape: seq<int>, data: ArrayData)

  function Count(data: ArrayData): nat
  {
    match data
    case Doubles(ds) => |ds|
    case Ints(ns) => |ns|
  }

  /** `np.prod(shape)`; 1 for the empty shape. */
  function Product(shape: seq<int>): int
  {
    if shape == [] then 1 else shape[0] * Product(shape[1..])
  }

  lemma {:induction false} ProductNonNegative(shape: seq<int>)
    requires forall i :: 0 <= i < |shape| ==> shape[i] >= 0
    ensures Product(shape) >= 0
  {
    if shape != [] {
      ProductNonNegative(shape[1..]);
    }
  }

  /** A numpy array as the managers receive it: non-negative extents and as many elements as they multiply to. */
  predicate WellFormedArray(a: NdArray)
  {
    && |a.shape| < TWO_32
    && (forall i :: 0 <= i < |a.shape| ==> 0 <= a.shape[i])
    && Product(a.shape) == Count(a.data)
  }

  /** Every extent fits an int32, as `np.array(array.shape, dtype=np.int32)` needs. */
  predicate ExtentsFit(shape: seq<int>)
  {
    forall i :: 0 <= i < |shape| ==> shape[i] < TWO_31
  }

  /** Integer elements are int32 values, as `astype(np.int32)` leaves them. */
  predicate ElementsFit(data: ArrayData)
  {
    data.Ints? ==> forall i :: 0 <= i < |data.ns| ==> IsInt32(data.ns[i])
  }

  /** A numpy array the canonical manager can store: int32 extents and int32 or float64 elements. */
  predicate StorableArray(a: NdArray)
  {
    WellFormedArray(a) && ExtentsFit(a.shape) && ElementsFit(a.data)
  }

  // ---------------------------------------------------------------------
  // Helpers shared by the operations

  /** `_load_header`: on success the loaded metadata replaces the cached one. */
  function LoadStep(env: Env, s: Shm): Step<Metadata>
  {
    match LoadHeader(env.codec, s.seg)
    case None => Step(Err(CorruptHeader), s)
    case Some(m) => Step(Ok(m), Shm(s.seg, m))
  }

  /** `_save_header` of the cached metadata. */
  function SaveStep(env: Env, s: Shm): Step<()>
  {
    var w := SaveHeader(env.codec, s.seg, s.meta);
    Step(w.result, Shm(w.seg, s.meta))
  }

  /** `_init_header`: fresh metadata, then save. */
  function InitHeaderStep(env: Env, s: Shm, name: string, now: F64): Step<()>
  {
    SaveStep(env, Shm(s.seg, InitialMetadata(name, now)))
  }

  /** `_get_var_info(key)`. */
  function GetVarInfo(env: Env, s: Shm, key: string): Step<Option<Descriptor>>
  {
    var l := LoadStep(env, s);
    match l.result
    case Err(e) => Step(Err(e), l.post)
    case Ok(m) => Step(Ok(if key in m.variables then Some(m.variables[key]) else None), l.post)
  }

  /** `_register_var(key, t, off, size)`: reload, insert or overwrite the entry, save. */
  function RegisterVar(env: Env, s: Shm, key: string, t: VarType, off: nat, size: nat, now: F64): Step<()>
  {
    var l := LoadStep(env, s);
    match l.result
    case Err(e) => Step(Err(e), l.post)
    case Ok(m) => SaveStep(env, Shm(s.seg, Registered(m, key, Descriptor(t, off, size, now))))
  }

  /** `_allocate_memory(n)`, bounded by `self.size`. */
  ghost function AllocateStep(env: Env, s: Shm, n: nat): Step<nat>
  {
    var l := LoadStep(env, s);
    match l.result
    case Err(e) => Step(Err(e), l.post)
    case Ok(m) => Step(Allocate(m.variables, env.size, n), l.post)
  }

  /** The new-slot path of every write: allocate `n` bytes, then register them for `key` as type `t`. */
  ghost function AllocAndRegister(env: Env, s: Shm, key: string, t: VarType, n: nat, now: F64): Step<nat>
  {
    var a := AllocateStep(env, s, n);
    match a.result
    case Err(e) => a
    case Ok(off) =>
      var r := RegisterVar(env, a.post, key, t, off, n, now);
      match r.result
      case Err(e) => Step(Err(e), r.post)
      case Ok(_) => Step(Ok(off), r.post)
  }

  /** Sequential `memory.write` calls at `off`. */
  function StoreStep(s: Shm, off: nat, chunks: seq<seq<byte>>): Step<()>
    requires chunks != []
  {
    var w := StoreChunks(s.seg, off, chunks);
    Step(w.result, Shm(w.seg, s.meta))
  }

  /** A descriptor lookup for a read: KeyError when absent, TypeError when of another type. */
  function Lookup(env: Env, s: Shm, key: string, t: VarType): Step<Descriptor>
  {
    var g := GetVarInfo(env, s, key);
    match g.result
    case Err(e) => Step(Err(e), g.post)
    case Ok(None) => Step(Err(VariableNotFound), g.post)
    case Ok(Some(d)) => if d.vtype != t then Step(Err(TypeMismatch), g.post) else Step(Ok(d), g.post)
  }

  /** The slot a fixed-size write goes to: the registered one (of type `t`), or a new one when the name is absent. */
  ghost function FixedSlot(env: Env, s: Shm, key: string, t: VarType, n: nat, now: F64): Step<nat>
  {
    var g := GetVarInfo(env, s, key);
    match g.result
    case Err(e) => Step(Err(e), g.post)
    case Ok(None) => AllocAndRegister(env, g.post, key, t, n, now)
    case Ok(Some(d)) => if d.vtype != t then Step(Err(TypeMismatch), g.post) else Step(Ok(d.offset), g.post)
  }

  /**
   * The slot a variable-size write goes to in the canonical manager: a new one when the
   * name is absent or its slot is smaller than `n` (whatever its type), otherwise the
   * registered one, which must be of type `t`.
   */
  ghost function SizedSlot(env: Env, s: Shm, key: string, t: VarType, n: nat, now: F64): Step<nat>
  {
    var g := GetVarInfo(env, s, key);
    match g.result
    case Err(e) => Step(Err(e), g.post)
    case Ok(info) =>
      if info.None? || info.value.size < n then AllocAndRegister(env, g.post, key, t, n, now)
      else if info.value.vtype != t then Step(Err(TypeMismatch), g.post)
      else Step(Ok(info.value.offset), g.post)
  }

  /** Write the chunks at the slot chosen by `slot`, or pass on its failure. */
  function WriteAtSlot(slot: Step<nat>, chunks: seq<seq<byte>>): Step<()>
    requires chunks != []
  {
    match slot.result
    case Err(e) => Step(Err(e), slot.post)
    case Ok(off) => StoreStep(slot.post, off, chunks)
  }

  // ---------------------------------------------------------------------
  // Typed writes and reads

  /** `write_int(key, value)`. */
  ghost function WriteInt(env: Env, s: Shm, key: string, value: int, now: F64): Step<()>
    requires IsInt32(value)
  {
    WriteAtSlot(FixedSlot(env, s, key, IntVar, 4, now), [PackI32(value)])
  }

  /** `read_int(key)`. */
  function ReadInt(env: Env, s: Shm, key: string): Step<int>
  {
    var l := Lookup(env, s, key, IntVar);
    match l.result
    case Err(e) => Step(Err(e), l.post)
    case Ok(d) =>
      match Read(s.seg, d.offset, 4)
      case None => Step(Err(OutOfSegment), l.post)
      case Some(b) => Step(Ok(UnpackI32(b)), l.post)
  }

  /** `write_double(key, value)`. */
  ghost function WriteDouble(env: Env, s: Shm, key: string, value: F64, now: F64): Step<()>
  {
    WriteAtSlot(FixedSlot(env, s, key, DoubleVar, 8, now), [value])
  }

  /** `read_double(key)`. */
  function ReadDouble(env: Env, s: Shm, key: string): Step<F64>
  {
    var l := Lookup(env, s, key, DoubleVar);
    match l.result
    case Err(e) => Step(Err(e), l.post)
    case Ok(d) =>
      match Read(s.seg, d.offset, 8)
      case None => Step(Err(OutOfSegment), l.post)
      case Some(b) => var f: F64 := b; Step(Ok(f), l.post)
  }

  /** Store a string payload at the chosen slot; `struct.pack('I', ...)` refuses 2**32 bytes or more. */
  function WriteStringAt(slot: Step<nat>, bytes: seq<byte>): Step<()>
  {
    match slot.result
    case Err(e) => Step(Err(e), slot.post)
    case Ok(off) =>
      if |bytes| >= TWO_32 then Step(Err(PackOverflow), slot.post)
      else StoreStep(slot.post, off, [PackU32(|bytes|), bytes])
  }

  /** `write_string(key, value)` in the canonical manager. */
  ghost function WriteString(env: Env, s: Shm, key: string, value: string, now: F64): Step<()>
  {
    var bytes := Utf8.Encode(value);
    WriteStringAt(SizedSlot(env, s, key, StringVar, |bytes| + 4, now), bytes)
  }

  /** `read_string(key)`. */
  function ReadString(env: Env, s: Shm, key: string): Step<string>
  {
    var l := Lookup(env, s, key, StringVar);
    match l.result
    case Err(e) => Step(Err(e), l.post)
    case Ok(d) => Step(DecodeStringAt(s.seg, d.offset), l.post)
  }

  /** Decode a string slot at `off`: a u32 byte length, then that many UTF-8 bytes. */
  function DecodeStringAt(seg: seq<byte>, off: nat): Result<string, Error>
  {
    match Read(seg, off, 4)
    case None => Err(OutOfSegment)
    case Some(lb) =>
      match Read(seg, off + 4, UnpackU32(lb))
      case None => Err(OutOfSegment)
      case Some(b) =>
        match Utf8.Decode(b)
        case None => Err(Undecodable)
        case Some(str) => Ok(str)
  }

  /** The element bytes of an array. */
  function DataBytes(data: ArrayData): seq<byte>
    requires data.Ints? ==> forall i :: 0 <= i < |data.ns| ==> IsInt32(data.ns[i])
  {
    match data
    case Doubles(ds) => PackF64s(ds)
    case Ints(ns) => PackI32s(ns)
  }

  function DtypeCode(data: ArrayData): nat { if data.Doubles? then 1 else 0 }

  /** The layout of a canonical array slot: u32 ndim, ndim x i32 extents, u32 dtype code, elements. */
  function ArrayChunks(a: NdArray): (chunks: seq<seq<byte>>)
    requires StorableArray(a)
  {
    [PackU32(|a.shape|), PackI32s(a.shape), PackU32(DtypeCode(a.data)), DataBytes(a.data)]
  }

  /** The slot size `write_array` asks for: 4 + 4 * ndim + 4 + count * element size. */
  function ArraySize(a: NdArray): nat
  {
    8 + 4 * |a.shape| + Count(a.data) * (if a.data.Doubles? then 8 else 4)
  }

  /**
   * `write_array(key, array, dtype)`; the elements are already of the dtype's kind.
   * An unsupported dtype, then an extent that does not fit an int32 (numpy 2 raises
   * OverflowError), are refused before the registry is read.
   */
  ghost function WriteArray(env: Env, s: Shm, key: string, a: NdArray, dtype: string, now: F64): Step<()>
    requires WellFormedArray(a) && ElementsFit(a.data)
    requires dtype == "double" ==> a.data.Doubles?
    requires dtype == "int" ==> a.data.Ints?
  {
    if dtype != "double" && dtype != "int" then Step(Err(UnsupportedDtype), s)
    else if !ExtentsFit(a.shape) then Step(Err(ExtentOverflow), s)
    else WriteAtSlot(SizedSlot(env, s, key, ArrayVar, ArraySize(a), now), ArrayChunks(a))
  }

  /** Decode the elements of an array slot: code 1 is float64, any other code int32. */
  function DecodeData(code: nat, b: seq<byte>): Option<ArrayData>
  {
    if code == 1 then
      match UnpackF64s(b)
      case None => None
      case Some(ds) => Some(Doubles(ds))
    else
      match UnpackI32s(b)
      case None => None
      case Some(ns) => Some(Ints(ns))
  }

  /** Decode a canonical array slot starting at `off`. */
  function DecodeArrayAt(seg: seq<byte>, off: nat): Result<NdArray, Error>
  {
    match Read(seg, off, 4)
    case None => Err(OutOfSegment)
    case Some(nb) =>
      var ndim := UnpackU32(nb);
      match Read(seg, off + 4, 4 * ndim)
      case None => Err(OutOfSegment)
      case Some(sb) =>
        match UnpackI32s(sb)
        case None => Err(Undecodable)
        case Some(shape) =>
          match Read(seg, off + 4 + 4 * ndim, 4)
          case None => Err(OutOfSegment)
          case Some(cb) => DecodeElements(seg, off + 8 + 4 * ndim, shape, UnpackU32(cb))
  }

  /**
   * The elements of an array slot at `at`, once its extents and dtype code are
   * read: a negative extent makes the reshape fail, otherwise the product of the
   * extents is read with the element size of the code.
   */
  function DecodeElements(seg: seq<byte>, at: nat, shape: seq<int>, code: nat): Result<NdArray, Error>
  {
    if exists i :: 0 <= i < |shape| && shape[i] < 0 then Err(ReshapeFailed)
    else
      ProductNonNegative(shape);
      var total: nat := Product(shape);
      match Read(seg, at, total * (if code == 1 then 8 else 4))
      case None => Err(OutOfSegment)
      case Some(db) =>
        match DecodeData(code, db)
        case None => Err(Undecodable)
        case Some(data) => Ok(NdArray(shape, data))
  }

  /** `read_array(key)`. */
  function ReadArray(env: Env, s: Shm, key: string): Step<NdArray>
  {
    var l := Lookup(env, s, key, ArrayVar);
    match l.result
    case Err(e) => Step(Err(e), l.post)
    case Ok(d) => Step(DecodeArrayAt(s.seg, d.offset), l.post)
  }

  // ---------------------------------------------------------------------
  // Queries

  /** `list_variables()`. */
  function ListVariables(env: Env, s: Shm): Step<map<string, Descriptor>>
  {
    var l := LoadStep(env, s);
    match l.result
    case Err(e) => Step(Err(e), l.post)
    case Ok(m) => Step(Ok(m.variables), l.post)
  }

  /** `check_variable_exists(key)`. */
  function CheckVariableExists(env: Env, s: Shm, key: string): Step<bool>
  {
    var g := GetVarInfo(env, s, key);
    match g.result
    case Err(e) => Step(Err(e), g.post)
    case Ok(info) => Step(Ok(info.Some?), g.post)
  }

  // ---------------------------------------------------------------------
  // Batches and polling

  /** The first loop of `write_double_array` from index `i`: register every absent key `str(start + i)` as an 8-byte 'double'. */
  ghost function RegisterMissing(env: Env, s: Shm, start: int, n: nat, i: nat, now: F64): Step<()>
    requires i <= n
    decreases n - i
  {
    if i == n then Step(Ok(()), s)
    else
      var key := Text.IntToDecimal(start + i);
      var g := GetVarInfo(env, s, key);
      match g.result
      case Err(e) => Step(Err(e), g.post)
      case Ok(Some(_)) => RegisterMissing(env, g.post, start, n, i + 1, now)
      case Ok(None) =>
        var a := AllocAndRegister(env, g.post, key, DoubleVar, 8, now);
        match a.result
        case Err(e) => Step(Err(e), a.post)
        case Ok(_) => RegisterMissing(env, a.post, start, n, i + 1, now)
  }

  /**
   * One turn of the second loop of `write_double_array`: look `key` up again,
   * check it is a 'double' and write `v` into its slot. A key that is not
   * registered makes `var_info['offset']` raise TypeError on None.
   */
  function StoreDouble(env: Env, s: Shm, key: string, v: F64): Step<()>
  {
    var g := GetVarInfo(env, s, key);
    match g.result
    case Err(e) => Step(Err(e), g.post)
    case Ok(None) => Step(Err(TypeMismatch), g.post)
    case Ok(Some(d)) =>
      if d.vtype != DoubleVar then Step(Err(TypeMismatch), g.post)
      else StoreStep(g.post, d.offset, [v])
  }

  /** The second loop of `write_double_array` from index `i`, stopping at the first failing turn. */
  function StoreDoubles(env: Env, s: Shm, start: int, values: seq<F64>, i: nat): Step<()>
    requires i <= |values|
    decreases |values| - i
  {
    if i == |values| then Step(Ok(()), s)
    else
      var w := StoreDouble(env, s, Text.IntToDecimal(start + i), values[i]);
      match w.result
      case Err(e) => w
      case Ok(_) => StoreDoubles(env, w.post, start, values, i + 1)
  }

  /** `write_double_array(start_index, values)`: both loops in turn. */
  ghost function WriteDoubleArray(env: Env, s: Shm, start: int, values: seq<F64>, now: F64): Step<()>
  {
    var r := RegisterMissing(env, s, start, |values|, 0, now);
    match r.result
    case Err(e) => r
    case Ok(_) => StoreDoubles(env, r.post, start, values, 0)
  }

  /**
   * `wait_for_variable(key, timeout)` from the clock reading `clock[i]` on:
   * `clock[0]` is `start_time` and each later entry is the reading taken by one
   * evaluation of the loop condition.
   */
  function WaitFrom(env: Env, s: Shm, key: string, timeout: real, clock: seq<real>, i: nat): Step<bool>
    requires 1 <= i <= |clock|
    decreases |clock| - i
  {
    if i == |clock| || clock[i] - clock[0] >= timeout then Step(Ok(false), s)
    else
      var c := CheckVariableExists(env, s, key);
      match c.result
      case Err(e) => c
      case Ok(true) => c
      case Ok(false) => WaitFrom(env, c.post, key, timeout, clock, i + 1)
  }

  function WaitForVariable(env: Env, s: Shm, key: string, timeout: real, clock: seq<real>): Step<bool>
    requires |clock| >= 1
  {
    WaitFrom(env, s, key, timeout, clock, 1)
  }

  // ---------------------------------------------------------------------
  // Construction

  /** The empty dict `self.metadata = {}` that `__init__` starts from; loading or initialising the header replaces it. */
  function EmptyMetadata(): Metadata { Metadata("", [0, 0, 0, 0, 0, 0, 0, 0], "", map[]) }

  /** `__init__`: initialise the header of the segment when `create`, otherwise load it. */
  function Open(env: Env, seg: seq<byte>, name: string, create: bool, now: F64): Step<()>
  {
    if create then InitHeaderStep(env, Shm(seg, EmptyMetadata()), name, now)
    else
      var l := LoadStep(env, Shm(seg, EmptyMetadata()));
      match l.result
      case Err(e) => Step(Err(e), l.post)
      case Ok(_) => Step(Ok(()), l.post)
  }
}
