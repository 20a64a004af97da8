/**
 * The canonical `SharedMemoryManager` as a class over the attached segment.
 * Each method does to `memory` and to `metadata` exactly what the ShmSpec
 * function of the same name says, stated as `Step(r, State()) == ...` of the
 * state before the call.
 */
module ShmManager {
  import opened Wrappers
  import opened Bytes
  import Utf8
  import Text
  import opened Registry
  import opened ShmSpec

  /** `_generate_key_from_name`: the 31-bit fold of the name, 0 replaced by 1. */
  method GenerateKey(name: string) returns (key: int)
    ensures key == KeyOf(name)
  {
    var hash: nat := 0;
    var i := 0;
    while i < |name|
      invariant 0 <= i <= |name|
      invariant hash == HashFold(name[..i])
    {
      assert name[..i + 1][..i] == name[..i];
      hash := (hash * 31 + name[i] as int) % TWO_31;
      i := i + 1;
    }
    assert name[..|name|] == name;
    if hash == 0 {
      hash := 1;
    }
    key := hash;
  }

  /** The registry restricted to the names the allocator's loop has visited. */
  ghost function Restrict(vars: map<string, Descriptor>, seen: set<string>): map<string, Descriptor>
    requires seen <= vars.Keys
  {
    map k | k in seen :: vars[k]
  }

  class SharedMemoryManager {
    const name: string
    const size: nat
    const key: int
    const codec: JsonCodec
    /** The attached System V segment; `memory.write` and `memory.read` act on it. */
    const memory: array<byte>
    var metadata: Metadata

    function Config(): Env { Env(codec, size) }

    function State(): Shm
      reads this, memory
    {
      Shm(memory[..], metadata)
    }

    /** The fields `__init__` sets before it touches the segment. */
    constructor Init(name: string, size: nat, codec: JsonCodec, memory: array<byte>)
      ensures this.name == name && this.size == size && this.codec == codec && this.memory == memory
      ensures key == KeyOf(name) && metadata == EmptyMetadata()
    {
      this.name := name;
      this.size := size;
      this.codec := codec;
      this.memory := memory;
      var k := GenerateKey(name);
      this.key := k;
      this.metadata := EmptyMetadata();
    }

    /**
     * `SharedMemoryManager(name, size, create)` on the segment the system attached
     * for its key: initialise the header when `create`, otherwise load it. A failure
     * is the RuntimeError `__init__` raises, carrying the underlying error.
     */
    static method Open(name: string, size: nat, create: bool, codec: JsonCodec, memory: array<byte>, now: F64)
      returns (r: Result<SharedMemoryManager, Error>)
      modifies memory
      ensures var o := ShmSpec.Open(Env(codec, size), old(memory[..]), name, create, now);
        && (r.Ok? <==> o.result.Ok?)
        && (r.Err? ==> r.error == o.result.error)
        && (r.Ok? ==> fresh(r.value) && r.value.memory == memory && r.value.name == name
                      && r.value.size == size && r.value.codec == codec && r.value.key == KeyOf(name)
                      && r.value.State() == o.post)
    {
      var m := new SharedMemoryManager.Init(name, size, codec, memory);
      if create {
        var res := m.InitHeader(now);
        if res.Err? {
          return Err(res.error);
        }
      } else {
        var res := m.LoadHeader();
        if res.Err? {
          return Err(res.error);
        }
      }
      r := Ok(m);
    }

    // -------------------------------------------------------------------
    // Segment access

    /** `memory.write(data, off)`. */
    method WriteBytes(off: nat, data: seq<byte>) returns (r: Result<(), Error>)
      modifies memory
      ensures Written(r, memory[..]) == Store(old(memory[..]), off, data)
    {
      if off + |data| > memory.Length {
        return Err(OutOfSegment);
      }
      var i := 0;
      while i < |data|
        invariant 0 <= i <= |data|
        invariant forall j :: 0 <= j < memory.Length && !(off <= j < off + i) ==> memory[j] == old(memory[j])
        invariant forall j :: 0 <= j < i ==> memory[off + j] == data[j]
      {
        memory[off + i] := data[i];
        i := i + 1;
      }
      assert memory[..] == Overwrite(old(memory[..]), off, data);
      r := Ok(());
    }

    /** Consecutive `memory.write` calls, one chunk after the other from `off`. */
    method WriteChunks(off: nat, chunks: seq<seq<byte>>) returns (r: Result<(), Error>)
      requires chunks != []
      modifies memory
      ensures Written(r, memory[..]) == StoreChunks(old(memory[..]), off, chunks)
      decreases |chunks|
    {
      ghost var before := memory[..];
      r := WriteBytes(off, chunks[0]);
      if r.Ok? && |chunks| > 1 {
        StoreChunksRest(before, memory[..], off, chunks);
        r := WriteChunks(off + |chunks[0]|, chunks[1..]);
      } else {
        StoreChunksStop(before, off, chunks);
      }
    }

    /** `memory.read(n, off)`. */
    method ReadBytes(off: nat, n: nat) returns (r: Option<seq<byte>>)
      ensures r == Read(memory[..], off, n)
    {
      if off + n <= memory.Length {
        r := Some(memory[off..off + n]);
      } else {
        r := None;
      }
    }

    // -------------------------------------------------------------------
    // Header, registry and allocator

    /** `_load_header`. */
    method LoadHeader() returns (r: Result<Metadata, Error>)
      modifies this
      ensures Step(r, State()) == LoadStep(Config(), old(State()))
    {
      var lenBytes := ReadBytes(0, 4);
      if lenBytes.None? {
        return Err(CorruptHeader);
      }
      var headerLen := UnpackU32(lenBytes.value);
      var blob := ReadBytes(4, headerLen);
      if blob.None? {
        return Err(CorruptHeader);
      }
      var loaded := codec.loads(blob.value);
      if loaded.None? {
        return Err(CorruptHeader);
      }
      metadata := loaded.value;
      r := Ok(loaded.value);
    }

    /** `_save_header`. */
    method SaveHeader() returns (r: Result<(), Error>)
      modifies memory
      ensures Step(r, State()) == SaveStep(Config(), old(State()))
    {
      var blob := codec.dumps(metadata);
      if |blob| >= HEADER_SIZE {
        return Err(HeaderOverflow);
      }
      r := WriteChunks(0, [PackU32(|blob|), blob]);
    }

    /** `_init_header`. */
    method InitHeader(now: F64) returns (r: Result<(), Error>)
      modifies this, memory
      ensures Step(r, State()) == InitHeaderStep(Config(), old(State()), name, now)
    {
      metadata := InitialMetadata(name, now);
      r := SaveHeader();
    }

    /** `_get_var_info(key)`. */
    method GetVarInfo(key: string) returns (r: Result<Option<Descriptor>, Error>)
      modifies this
      ensures Step(r, State()) == ShmSpec.GetVarInfo(Config(), old(State()), key)
    {
      var l := LoadHeader();
      if l.Err? {
        return Err(l.error);
      }
      r := Ok(if key in metadata.variables then Some(metadata.variables[key]) else None);
    }

    /** `_register_var(key, vtype, offset, size)`. */
    method RegisterVar(key: string, vtype: VarType, offset: nat, size: nat, now: F64) returns (r: Result<(), Error>)
      modifies this, memory
      ensures Step(r, State()) == ShmSpec.RegisterVar(Config(), old(State()), key, vtype, offset, size, now)
    {
      var l := LoadHeader();
      if l.Err? {
        return Err(l.error);
      }
      metadata := metadata.(variables := metadata.variables[key := Descriptor(vtype, offset, size, now)]);
      r := SaveHeader();
    }

    /** `_allocate_memory(n)`: the aligned high-water mark, if `n` bytes fit below `self.size`. */
    method AllocateMemory(n: nat) returns (r: Result<nat, Error>)
      modifies this
      ensures Step(r, State()) == AllocateStep(Config(), old(State()), n)
    {
      var l := LoadHeader();
      if l.Err? {
        return Err(l.error);
      }
      var vars := metadata.variables;
      var maxOffset: nat := HEADER_SIZE;
      var todo := vars.Keys;
      ghost var seen: set<string> := {};
      while todo != {}
        invariant todo + seen == vars.Keys && todo !! seen
        invariant IsHighWater(Restrict(vars, seen), maxOffset)
        decreases |todo|
      {
        var k :| k in todo;
        ghost var next := Restrict(vars, seen + {k});
        var varEnd := vars[k].offset + vars[k].size;
        if varEnd > maxOffset {
          maxOffset := varEnd;
          assert End(next[k]) == maxOffset;
        } else if maxOffset != HEADER_SIZE {
          ghost var w :| w in Restrict(vars, seen) && End(vars[w]) == maxOffset;
          assert w in next;
        }
        todo := todo - {k};
        seen := seen + {k};
      }
      assert Restrict(vars, seen) == vars;
      HighWaterUnique(vars, maxOffset, HighWater(vars));
      var newOffset := maxOffset;
      if newOffset % 8 != 0 {
        newOffset := newOffset + (8 - newOffset % 8);
      }
      if newOffset + n > size {
        return Err(SegmentFull);
      }
      r := Ok(newOffset);
    }

    /** The new-slot path of every write: `_allocate_memory(n)`, then `_register_var(key, t, offset, n)`. */
    method AllocAndRegister(key: string, t: VarType, n: nat, now: F64) returns (r: Result<nat, Error>)
      modifies this, memory
      ensures Step(r, State()) == ShmSpec.AllocAndRegister(Config(), old(State()), key, t, n, now)
    {
      var a := AllocateMemory(n);
      if a.Err? {
        return a;
      }
      var reg := RegisterVar(key, t, a.value, n, now);
      if reg.Err? {
        return Err(reg.error);
      }
      r := a;
    }

    /**
     * The slot `write_int` and `write_double` write to: a new one for an absent name,
     * otherwise the registered one, which must be of type `t`.
     */
    method FixedSlot(key: string, t: VarType, n: nat, now: F64) returns (r: Result<nat, Error>)
      modifies this, memory
      ensures Step(r, State()) == ShmSpec.FixedSlot(Config(), old(State()), key, t, n, now)
    {
      var info := GetVarInfo(key);
      if info.Err? {
        return Err(info.error);
      }
      if info.value.None? {
        r := AllocAndRegister(key, t, n, now);
      } else if info.value.value.vtype != t {
        r := Err(TypeMismatch);
      } else {
        r := Ok(info.value.value.offset);
      }
    }

    /**
     * The slot `write_string` and `write_array` write to: a new one when the name is
     * absent or its slot holds fewer than `n` bytes, otherwise the registered one,
     * which must be of type `t`.
     */
    method SizedSlot(key: string, t: VarType, n: nat, now: F64) returns (r: Result<nat, Error>)
      modifies this, memory
      ensures Step(r, State()) == ShmSpec.SizedSlot(Config(), old(State()), key, t, n, now)
    {
      var info := GetVarInfo(key);
      if info.Err? {
        return Err(info.error);
      }
      if info.value.None? || info.value.value.size < n {
        r := AllocAndRegister(key, t, n, now);
      } else if info.value.value.vtype != t {
        r := Err(TypeMismatch);
      } else {
        r := Ok(info.value.value.offset);
      }
    }

    // -------------------------------------------------------------------
    // Typed writes and reads

    /** `write_int(key, value)`. */
    method WriteInt(key: string, value: int, now: F64) returns (r: Result<(), Error>)
      requires IsInt32(value)
      modifies this, memory
      ensures Step(r, State()) == ShmSpec.WriteInt(Config(), old(State()), key, value, now)
    {
      var offset := FixedSlot(key, IntVar, 4, now);
      if offset.Err? {
        return Err(offset.error);
      }
      r := WriteChunks(offset.value, [PackI32(value)]);
    }

    /** `read_int(key)`. */
    method ReadInt(key: string) returns (r: Result<int, Error>)
      modifies this
      ensures Step(r, State()) == ShmSpec.ReadInt(Config(), old(State()), key)
    {
      var info := GetVarInfo(key);
      if info.Err? {
        return Err(info.error);
      }
      if info.value.None? {
        return Err(VariableNotFound);
      }
      var d := info.value.value;
      if d.vtype != IntVar {
        return Err(TypeMismatch);
      }
      var data := ReadBytes(d.offset, 4);
      if data.None? {
        return Err(OutOfSegment);
      }
      r := Ok(UnpackI32(data.value));
    }

    /** `write_double(key, value)`. */
    method WriteDouble(key: string, value: F64, now: F64) returns (r: Result<(), Error>)
      modifies this, memory
      ensures Step(r, State()) == ShmSpec.WriteDouble(Config(), old(State()), key, value, now)
    {
      var offset := FixedSlot(key, DoubleVar, 8, now);
      if offset.Err? {
        return Err(offset.error);
      }
      r := WriteChunks(offset.value, [value]);
    }

    /** `read_double(key)`. */
    method ReadDouble(key: string) returns (r: Result<F64, Error>)
      modifies this
      ensures Step(r, State()) == ShmSpec.ReadDouble(Config(), old(State()), key)
    {
      var info := GetVarInfo(key);
      if info.Err? {
        return Err(info.error);
      }
      if info.value.None? {
        return Err(VariableNotFound);
      }
      var d := info.value.value;
      if d.vtype != DoubleVar {
        return Err(TypeMismatch);
      }
      var data := ReadBytes(d.offset, 8);
      if data.None? {
        return Err(OutOfSegment);
      }
      var f: F64 := data.value;
      r := Ok(f);
    }

    /** `write_string(key, value)`: reallocate when absent or too small, otherwise check the type. */
    method WriteString(key: string, value: string, now: F64) returns (r: Result<(), Error>)
      modifies this, memory
      ensures Step(r, State()) == ShmSpec.WriteString(Config(), old(State()), key, value, now)
    {
      var byteData := Utf8.Encode(value);
      var dataSize := |byteData| + 4;
      var offset := SizedSlot(key, StringVar, dataSize, now);
      if offset.Err? {
        return Err(offset.error);
      }
      if |byteData| >= TWO_32 {
        return Err(PackOverflow);
      }
      r := WriteChunks(offset.value, [PackU32(|byteData|), byteData]);
    }

    /** `read_string(key)`. */
    method ReadString(key: string) returns (r: Result<string, Error>)
      modifies this
      ensures Step(r, State()) == ShmSpec.ReadString(Config(), old(State()), key)
    {
      var info := GetVarInfo(key);
      if info.Err? {
        return Err(info.error);
      }
      if info.value.None? {
        return Err(VariableNotFound);
      }
      var d := info.value.value;
      if d.vtype != StringVar {
        return Err(TypeMismatch);
      }
      r := DecodeString(d.offset);
    }

    /** The body of `read_string` after the type check: the length prefix, then the UTF-8 bytes. */
    method DecodeString(offset: nat) returns (r: Result<string, Error>)
      ensures r == DecodeStringAt(memory[..], offset)
    {
      var lenBytes := ReadBytes(offset, 4);
      if lenBytes.None? {
        return Err(OutOfSegment);
      }
      var data := ReadBytes(offset + 4, UnpackU32(lenBytes.value));
      if data.None? {
        return Err(OutOfSegment);
      }
      var text := Utf8.Decode(data.value);
      if text.None? {
        return Err(Undecodable);
      }
      r := Ok(text.value);
    }

    /** `write_array(key, array, dtype)`: the same slot rule as strings, then ndim, shape, dtype code and elements. */
    method WriteArray(key: string, arr: NdArray, dtype: string, now: F64) returns (r: Result<(), Error>)
      requires WellFormedArray(arr) && ElementsFit(arr.data)
      requires dtype == "double" ==> arr.data.Doubles?
      requires dtype == "int" ==> arr.data.Ints?
      modifies this, memory
      ensures Step(r, State()) == ShmSpec.WriteArray(Config(), old(State()), key, arr, dtype, now)
    {
      var byteData: seq<byte>;
      if dtype == "double" {
        byteData := PackF64s(arr.data.ds);
      } else if dtype == "int" {
        byteData := PackI32s(arr.data.ns);
      } else {
        return Err(UnsupportedDtype);
      }
      if exists i :: 0 <= i < |arr.shape| && arr.shape[i] >= TWO_31 {
        return Err(ExtentOverflow);
      }
      var shapeBytes := PackI32s(arr.shape);
      var metadataSize := 4 + |shapeBytes| + 4;
      var totalSize := metadataSize + |byteData|;
      var offset := SizedSlot(key, ArrayVar, totalSize, now);
      if offset.Err? {
        return Err(offset.error);
      }
      var dtypeCode := if dtype == "double" then 1 else 0;
      r := WriteChunks(offset.value, [PackU32(|arr.shape|), shapeBytes, PackU32(dtypeCode), byteData]);
    }

    /** `read_array(key)`. */
    method ReadArray(key: string) returns (r: Result<NdArray, Error>)
      modifies this
      ensures Step(r, State()) == ShmSpec.ReadArray(Config(), old(State()), key)
    {
      var info := GetVarInfo(key);
      if info.Err? {
        return Err(info.error);
      }
      if info.value.None? {
        return Err(VariableNotFound);
      }
      var d := info.value.value;
      if d.vtype != ArrayVar {
        return Err(TypeMismatch);
      }
      r := DecodeArray(d.offset);
    }

    /** The body of `read_array` after the type check: ndim, extents, dtype code, then the elements. */
    method DecodeArray(offset: nat) returns (r: Result<NdArray, Error>)
      ensures r == DecodeArrayAt(memory[..], offset)
    {
      var ndimData := ReadBytes(offset, 4);
      if ndimData.None? {
        return Err(OutOfSegment);
      }
      var ndim := UnpackU32(ndimData.value);
      var current := offset + 4;
      var shapeBytes := ReadBytes(current, ndim * 4);
      if shapeBytes.None? {
        return Err(OutOfSegment);
      }
      var shape := UnpackI32s(shapeBytes.value);
      if shape.None? {
        return Err(Undecodable);
      }
      current := current + ndim * 4;
      var dtypeData := ReadBytes(current, 4);
      if dtypeData.None? {
        return Err(OutOfSegment);
      }
      assert DecodeArrayAt(memory[..], offset) == ShmSpec.DecodeElements(memory[..], current + 4, shape.value, UnpackU32(dtypeData.value));
      r := DecodeElements(current + 4, shape.value, UnpackU32(dtypeData.value));
    }

    /** The rest of `read_array`: reshape check, then the elements in the dtype's width. */
    method DecodeElements(at: nat, shape: seq<int>, dtypeCode: nat) returns (r: Result<NdArray, Error>)
      ensures r == ShmSpec.DecodeElements(memory[..], at, shape, dtypeCode)
    {
      var elementSize := if dtypeCode == 1 then 8 else 4;
      if exists i :: 0 <= i < |shape| && shape[i] < 0 {
        return Err(ReshapeFailed);
      }
      ProductNonNegative(shape);
      var totalElements: nat := Product(shape);
      var arrayBytes := ReadBytes(at, totalElements * elementSize);
      if arrayBytes.None? {
        return Err(OutOfSegment);
      }
      var data := DecodeData(dtypeCode, arrayBytes.value);
      if data.None? {
        return Err(Undecodable);
      }
      r := Ok(NdArray(shape, data.value));
    }

    // -------------------------------------------------------------------
    // Queries, polling and batches

    /** `list_variables()`. */
    method ListVariables() returns (r: Result<map<string, Descriptor>, Error>)
      modifies this
      ensures Step(r, State()) == ShmSpec.ListVariables(Config(), old(State()))
    {
      var l := LoadHeader();
      if l.Err? {
        return Err(l.error);
      }
      r := Ok(metadata.variables);
    }

    /** `check_variable_exists(key)`. */
    method CheckVariableExists(key: string) returns (r: Result<bool, Error>)
      modifies this
      ensures Step(r, State()) == ShmSpec.CheckVariableExists(Config(), old(State()), key)
    {
      var info := GetVarInfo(key);
      if info.Err? {
        return Err(info.error);
      }
      r := Ok(info.value.Some?);
    }

    /**
     * `wait_for_variable(key, timeout)`, polling until the clock shows `timeout`
     * seconds since the first reading. `clock` holds the successive `time.time()`
     * readings; the 0.1 s sleeps between polls only move the clock on.
     */
    method WaitForVariable(key: string, timeout: real, clock: seq<real>) returns (r: Result<bool, Error>)
      requires |clock| >= 1
      modifies this
      ensures Step(r, State()) == ShmSpec.WaitForVariable(Config(), old(State()), key, timeout, clock)
    {
      var startTime := clock[0];
      var i := 1;
      while i < |clock| && clock[i] - startTime < timeout
        invariant 1 <= i <= |clock|
        invariant ShmSpec.WaitForVariable(Config(), old(State()), key, timeout, clock) == WaitFrom(Config(), State(), key, timeout, clock, i)
        decreases |clock| - i
      {
        var found := CheckVariableExists(key);
        if found.Err? || found.value {
          return found;
        }
        i := i + 1;
      }
      r := Ok(false);
    }

    /** `write_double_array(start_index, values)`. */
    method WriteDoubleArray(startIndex: int, values: seq<F64>, now: F64) returns (r: Result<(), Error>)
      modifies this, memory
      ensures Step(r, State()) == ShmSpec.WriteDoubleArray(Config(), old(State()), startIndex, values, now)
    {
      r := RegisterDoubles(startIndex, |values|, now);
      if r.Ok? {
        r := StoreDoubleValues(startIndex, values);
      }
    }

    /** The first loop of `write_double_array`: register every missing key as a 'double'. */
    method RegisterDoubles(startIndex: int, n: nat, now: F64) returns (r: Result<(), Error>)
      modifies this, memory
      ensures Step(r, State()) == RegisterMissing(Config(), old(State()), startIndex, n, 0, now)
    {
      ghost var registered := RegisterMissing(Config(), State(), startIndex, n, 0, now);
      var i := 0;
      while i < n
        invariant 0 <= i <= n
        invariant registered == RegisterMissing(Config(), State(), startIndex, n, i, now)
        decreases n - i
      {
        var key := Text.IntToDecimal(startIndex + i);
        ghost var before := State();
        var info := GetVarInfo(key);
        assert Step(info, State()) == ShmSpec.GetVarInfo(Config(), before, key);
        if info.Err? {
          return Err(info.error);
        }
        if info.value.None? {
          var a := AllocAndRegister(key, DoubleVar, 8, now);
          if a.Err? {
            return Err(a.error);
          }
        }
        i := i + 1;
      }
      r := Ok(());
    }

    /** The second loop of `write_double_array`: write each value into its 'double' slot. */
    method StoreDoubleValues(startIndex: int, values: seq<F64>) returns (r: Result<(), Error>)
      modifies this, memory
      ensures Step(r, State()) == StoreDoubles(Config(), old(State()), startIndex, values, 0)
    {
      ghost var stored := StoreDoubles(Config(), State(), startIndex, values, 0);
      var i := 0;
      while i < |values|
        invariant 0 <= i <= |values|
        invariant stored == StoreDoubles(Config(), State(), startIndex, values, i)
        decreases |values| - i
      {
        var w := StoreDouble(Text.IntToDecimal(startIndex + i), values[i]);
        if w.Err? {
          return w;
        }
        i := i + 1;
      }
      r := Ok(());
    }

    /** One turn of the second loop of `write_double_array`. */
    method StoreDouble(key: string, v: F64) returns (r: Result<(), Error>)
      modifies this, memory
      ensures Step(r, State()) == ShmSpec.StoreDouble(Config(), old(State()), key, v)
    {
      var info := GetVarInfo(key);
      if info.Err? {
        return Err(info.error);
      }
      if info.value.None? {
        return Err(TypeMismatch);
      }
      var offset := info.value.value.offset;
      if info.value.value.vtype != DoubleVar {
        return Err(TypeMismatch);
      }
      r := WriteChunks(offset, [v]);
    }
  }
}
