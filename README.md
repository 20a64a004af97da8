# pyFreeFEM shared-memory store, text converter and path helpers in Dafny

This project models the core of pyFreeFEM, the bridge that hands data between Python and FreeFEM scripts.

**The shared-memory variable store (`SharedMemoryManager`).** One fixed-size byte segment serves as a typed key/value store:
- The first 1024 bytes are a header: a u32 length at offset 0, then a JSON registry at offset 4. The registry maps each variable name to `{type, offset, size, update_time}`.
- A bump allocator places new slots at the highest registered end, never below 1024, rounded up to a multiple of 8.
- Codecs exist for int32, float64, length-prefixed UTF-8 strings, and N-D arrays. An array is stored as ndim, the extents, a dtype code, then the elements.
- Every `write_X`/`read_X` looks the name up, allocates or reuses a slot, checks the type, and copies bytes.

The repository has three copies of the manager:
- `pyfreefem/shm_manager.py` is the canonical one.
- `pyfreefem_ml/pyfreefem_ml/shm_manager.py` is the same file line for line, so the model of the canonical file covers it too.
- `pyfreefem_ml/shm_manager.py` is a variant. It checks types before sizes, lays arrays out as (count, ndim, shape[0]) and has no list/exists/wait methods.

**The text converter (`convert_to_freefem`, `convert_from_freefem`)** renders Python values as `[n](a, b, ...)` text. It parses such text back by scanning characters and tracking bracket depth. `pyfreefem_ml/pyfreefem_ml/data_converter.py` is a verbatim copy of `pyfreefem/data_converter.py`.

**The path helpers (`convert_to_wsl_path`, `convert_to_windows_path`, `normalize_path`)** translate between `C:\...` and `/mnt/c/...` paths.

## Layout

| file | module | contents |
|---|---|---|
| wrappers.dfy | Wrappers | `Option`, `Result` |
| bytes.dfy | Bytes | bytes, little-endian `struct` 'I'/'i' packing, int32/float64 runs, segment reads and overwrites |
| utf8.dfy | Utf8 | UTF-8 encoding and decoding of strings |
| text.dfy | Text | `str(int)`, `int(str)`, `strip`, ASCII `lower`/`upper`, `index` |
| registry.dfy | Registry | descriptors, metadata, the JSON codec as a parameter, the key fold, header save/load, the allocator |
| shm_spec.dfy | ShmSpec | every manager operation as a function from the segment and cached metadata to a result and the new state |
| shm_manager.dfy | ShmManager | class `SharedMemoryManager`: the segment as an `array<byte>`, the cached `metadata` field, and one method per operation, each proved equal to its `ShmSpec` function |
| shm_properties.dfy | ShmProperties | round trips, type rules, reuse and frame properties of the single-variable operations |
| shm_batch.dfy | ShmBatch | `write_double_array` and `wait_for_variable` |
| shm_variant.dfy | ShmVariant | the variant manager's `write_string`, `write_array`, `read_array`, and how they differ from the canonical ones |
| converter.dfy | Converter | `convert_to_freefem` and `convert_from_freefem`, with the source's loops as methods |
| converter_properties.dfy | ConverterProperties | the round trip for ints, bools, strings and nested lists, and what the text form loses |
| paths.dfy | Paths | the three path converters and their round trips |

The manager's methods reload the header before each query, as the source does. Their contracts say that the result and the new state (segment bytes and cached metadata) are those of the matching `ShmSpec` function applied to the old state. The properties are then proved about those functions.

`json.dumps`/`json.loads` are a pair of functions passed in as a parameter. The round-trip lemmas take their faithfulness as a hypothesis (`Faithful`). The `created_at`/`update_time` floats are kept as their eight IEEE-754 bytes (`F64`), so a header is a finite, countable value, and a codec can be faithful on every header.

## Model

| member | source | states |
|---|---|---|
| Bytes.PackU32 | pyfreefem/shm_manager.py:102 | `struct.pack('I', n)` of a length below 2^32 is four bytes |
| Bytes.UnpackU32 | pyfreefem/shm_manager.py:112 | `struct.unpack('I', b)` of four bytes is below 2^32 |
| Bytes.U32RoundTrip | pyfreefem/shm_manager.py:102-112 | unpacking the four little-endian bytes of a packed length gives the length back |
| Bytes.PackI32 | pyfreefem/shm_manager.py:202 | `struct.pack('i', v)` of an int32 is four bytes |
| Bytes.UnpackI32 | pyfreefem/shm_manager.py:224 | `struct.unpack('i', b)` is always in the int32 range |
| Bytes.I32RoundTrip | pyfreefem/shm_manager.py:202-224 | the two's-complement unpack inverts the pack for every int32 |
| Bytes.PackI32s | pyfreefem/shm_manager.py:348-349 | the extents as int32 bytes take 4 bytes each |
| Bytes.UnpackI32s | pyfreefem/shm_manager.py:410 | `np.frombuffer(..., int32)` yields one value per 4 bytes and refuses other lengths |
| Bytes.I32sRoundTrip | pyfreefem/shm_manager.py:409-410 | decoding packed extents gives the same extents |
| Bytes.PackF64s | pyfreefem/shm_manager.py:339 | `tobytes()` of doubles is 8 bytes per element |
| Bytes.UnpackF64s | pyfreefem/shm_manager.py:425 | `np.frombuffer(..., float64)` yields one double per 8 bytes |
| Bytes.F64sRoundTrip | pyfreefem/shm_manager.py:424-425 | decoding the bytes of doubles gives the same doubles |
| Bytes.Read | pyfreefem/shm_manager.py:111 | `memory.read(n, off)` succeeds exactly when `off + n` is within the segment, and then returns the segment's bytes at `off` |
| Bytes.Overwrite | pyfreefem/shm_manager.py:105 | `memory.write(data, off)` puts `data` at `off`, keeps every other byte and keeps the segment size |
| Bytes.ReadOverwritten | pyfreefem/shm_manager.py:105 | reading the written range back returns the written bytes |
| Bytes.ReadAround | pyfreefem/shm_manager.py:105 | a read disjoint from the written range sees the old bytes |
| Utf8.EncodeChar | pyfreefem/shm_manager.py:280 | one character encodes to 1 to 4 bytes |
| Utf8.Encode | pyfreefem/shm_manager.py:280 | `value.encode('utf-8')` has at least as many bytes as characters |
| Utf8.DecodeFirst | pyfreefem/shm_manager.py:327 | decoding consumes 1 to 4 bytes per character, never more than are present |
| Utf8.DecodeFirstOfEncoded | pyfreefem/shm_manager.py:327 | the first character of an encoding followed by anything decodes back, consuming exactly its width |
| Utf8.DecodeEncode | pyfreefem/shm_manager.py:280-327 | `decode('utf-8')` of `encode('utf-8')` gives back every string |
| Text.NatToDecimal | pyfreefem/data_converter.py:40 | `str(n)` is non-empty digits with no leading zero |
| Text.NatToDecimalRoundTrip | pyfreefem/data_converter.py:40 | the digits of `str(n)` denote n |
| Text.IntToDecimalInjective | pyfreefem/shm_manager.py:484-485 | distinct integers have distinct `str`, so the keys `str(start_index + i)` are distinct |
| Text.IndexOf | pyfreefem/utils.py:53 | the position of the first `c`, or the length when there is none |
| Text.IndexOfFacts | pyfreefem/utils.py:53 | the index found holds `c`, no earlier position does, and it equals the length exactly when `c` is absent |
| Text.StripRight | pyfreefem/data_converter.py:123 | `rstrip()` is a prefix ending in a non-space, and what it drops is blank |
| Text.Strip | pyfreefem/data_converter.py:123 | `strip()` has no space at either end, and is empty exactly when the text is blank |
| Text.StripBlankPrefix | pyfreefem/data_converter.py:152 | stripping blank text before a trimmed text gives the trimmed text |
| Text.Lower | pyfreefem/utils.py:54 | `lower()` maps each character by ASCII case, keeping the length |
| Text.Upper | pyfreefem/utils.py:77 | `upper()` maps each character by ASCII case, keeping the length |
| Text.ParseInt | pyfreefem/data_converter.py:226 | `int(s)` succeeds exactly when the stripped, unsigned text is digit groups joined by single underscores |
| Text.ParseIntOfDecimal | pyfreefem/data_converter.py:226 | `int(str(n)) == n` for every integer |
| Registry.InitialMetadata | pyfreefem/shm_manager.py:83-90 | `_init_header` starts with the given name and no variables |
| Registry.HashFold | pyfreefem/shm_manager.py:73-75 | the masked fold `(h * 31 + ord(c)) & 0x7fffffff` stays below 2^31 |
| Registry.KeyOf | pyfreefem/shm_manager.py:63-81 | the IPC key is in [1, 2^31 - 1], and the empty name gives 1 |
| Registry.Store | pyfreefem/shm_manager.py:105 | a write succeeds exactly when it fits the segment and then overwrites just its range; otherwise it is `OutOfSegment` and changes nothing |
| Registry.StoreChunks | pyfreefem/shm_manager.py:369-383 | consecutive writes succeed exactly when their concatenation fits, and then overwrite the range with it |
| Registry.StoreChunksKeeps | pyfreefem/shm_manager.py:369-383 | consecutive writes, even ones that fail part way, change no byte outside their combined range |
| Registry.OverwriteTwice | pyfreefem/shm_manager.py:298-301 | writing the length and then the bytes right after it equals one write of both |
| Registry.StoredLength | pyfreefem/shm_manager.py:111-112 | the stored header length can be read exactly when the segment has 4 bytes |
| Registry.SaveHeader | pyfreefem/shm_manager.py:93-105 | a blob of 1024 bytes or more raises `HeaderOverflow` before writing; saving succeeds exactly when the blob is shorter and fits; bytes past the blob are untouched |
| Registry.SaveThenLoad | pyfreefem/shm_manager.py:93-115 | with a faithful JSON codec, `_load_header` after a successful `_save_header` yields the same metadata |
| Registry.StorePastHeader | pyfreefem/shm_manager.py:107-115 | a write past the stored header leaves what `_load_header` reads unchanged |
| Registry.StoreChunksPastHeader | pyfreefem/shm_manager.py:107-115 | consecutive writes past the stored header leave what `_load_header` reads unchanged |
| Registry.HeaderKept | pyfreefem/shm_manager.py:107-115 | a segment that keeps the length prefix and the bytes it counts loads the same header and the same stored length |
| Registry.Registered | pyfreefem/shm_manager.py:140-145 | `_register_var` inserts or replaces exactly the one entry and keeps every other entry and field |
| Registry.HighWater | pyfreefem/shm_manager.py:161-165 | the loop's `max_offset` is 1024 or the largest registered end, whatever the dictionary's order |
| Registry.HighWaterUnique | pyfreefem/shm_manager.py:161-165 | that maximum is unique, so the visiting order cannot change it |
| Registry.AlignUp | pyfreefem/shm_manager.py:171-172 | rounding up gives a multiple of 8 within 7 of the input |
| Registry.AlignUpLeast | pyfreefem/shm_manager.py:171-172 | it is the least multiple of 8 at or above the input |
| Registry.Allocate | pyfreefem/shm_manager.py:149-178 | an allocated offset is at least 1024, a multiple of 8, at or past every registered end, and fits the segment; failure is `SegmentFull` |
| Registry.AllocateIsLeastFree | pyfreefem/shm_manager.py:149-178 | the offset is the least free aligned offset, and `MemoryError` is raised exactly when no free aligned offset fits, so an exact fit succeeds |
| ShmManager.GenerateKey | pyfreefem/shm_manager.py:63-81 | the hashing loop computes the key fold `KeyOf` |
| ShmManager.SharedMemoryManager.Init | pyfreefem/shm_manager.py:21-42 | the manager keeps name, size and segment, derives its key from the name, and starts from an empty metadata dict |
| ShmManager.SharedMemoryManager.Open | pyfreefem/shm_manager.py:21-61 | `__init__` initialises the header when creating and loads it otherwise; it fails exactly when that step fails, and the new manager's state is that step's |
| ShmManager.SharedMemoryManager.WriteBytes | pyfreefem/shm_manager.py:105 | `memory.write` changes the segment as `Store` says |
| ShmManager.SharedMemoryManager.WriteChunks | pyfreefem/shm_manager.py:369-383 | consecutive `memory.write` calls change the segment as `StoreChunks` says |
| ShmManager.SharedMemoryManager.ReadBytes | pyfreefem/shm_manager.py:111 | `memory.read` returns what `Read` says and changes nothing |
| ShmManager.SharedMemoryManager.LoadHeader | pyfreefem/shm_manager.py:107-115 | a header that does not decode is `CorruptHeader`; otherwise the cached metadata becomes the decoded header |
| ShmManager.SharedMemoryManager.SaveHeader | pyfreefem/shm_manager.py:93-105 | the segment changes as `Registry.SaveHeader` says, and the cache is kept |
| ShmManager.SharedMemoryManager.InitHeader | pyfreefem/shm_manager.py:83-91 | fresh metadata is cached and saved |
| ShmManager.SharedMemoryManager.GetVarInfo | pyfreefem/shm_manager.py:117-127 | after a reload, the descriptor of the key or None (see `ShmProperties.QueryFacts`) |
| ShmManager.SharedMemoryManager.RegisterVar | pyfreefem/shm_manager.py:129-147 | reload, insert the entry, save (see `ShmProperties.RegisterVarFacts`) |
| ShmManager.SharedMemoryManager.AllocateMemory | pyfreefem/shm_manager.py:149-178 | the loop over descriptors yields the allocator's offset (see `Registry.AllocateIsLeastFree`) and leaves the segment alone |
| ShmManager.SharedMemoryManager.AllocAndRegister | pyfreefem/shm_manager.py:191-192 | a new slot is allocated, then registered for the key |
| ShmManager.SharedMemoryManager.FixedSlot | pyfreefem/shm_manager.py:187-199 | `write_int`/`write_double` reuse a same-typed slot, raise `TypeError` on another type, and allocate for a new name |
| ShmManager.SharedMemoryManager.SizedSlot | pyfreefem/shm_manager.py:283-295 | `write_string`/`write_array` reallocate when the name is new or its slot is too small, and type-check only a large-enough slot |
| ShmManager.SharedMemoryManager.WriteInt | pyfreefem/shm_manager.py:180-202 | equals `ShmSpec.WriteInt` (round trip in `ShmProperties.WriteIntRoundTrip`) |
| ShmManager.SharedMemoryManager.ReadInt | pyfreefem/shm_manager.py:204-224 | equals `ShmSpec.ReadInt` (errors in `ShmProperties.ReadErrors`) |
| ShmManager.SharedMemoryManager.WriteDouble | pyfreefem/shm_manager.py:226-248 | equals `ShmSpec.WriteDouble` |
| ShmManager.SharedMemoryManager.ReadDouble | pyfreefem/shm_manager.py:250-270 | equals `ShmSpec.ReadDouble` |
| ShmManager.SharedMemoryManager.WriteString | pyfreefem/shm_manager.py:272-301 | equals `ShmSpec.WriteString` |
| ShmManager.SharedMemoryManager.ReadString | pyfreefem/shm_manager.py:303-327 | equals `ShmSpec.ReadString` |
| ShmManager.SharedMemoryManager.DecodeString | pyfreefem/shm_manager.py:321-327 | a u32 length at the slot, that many bytes after it, decoded as UTF-8 |
| ShmManager.SharedMemoryManager.WriteArray | pyfreefem/shm_manager.py:329-383 | equals `ShmSpec.WriteArray`, which refuses an unsupported dtype and then an extent of 2^31 or more before reading the registry |
| ShmManager.SharedMemoryManager.ReadArray | pyfreefem/shm_manager.py:385-428 | equals `ShmSpec.ReadArray` |
| ShmManager.SharedMemoryManager.DecodeArray | pyfreefem/shm_manager.py:403-428 | ndim, extents and dtype code are read in turn; a read past the segment is `OutOfSegment` and extents that do not decode are `Undecodable` |
| ShmManager.SharedMemoryManager.DecodeElements | pyfreefem/shm_manager.py:416-428 | a negative extent fails the reshape; otherwise product-of-extents elements are read in the width of the code, 8 for code 1 and 4 for any other |
| ShmManager.SharedMemoryManager.ListVariables | pyfreefem/shm_manager.py:430-437 | equals `ShmSpec.ListVariables` |
| ShmManager.SharedMemoryManager.CheckVariableExists | pyfreefem/shm_manager.py:439-448 | equals `ShmSpec.CheckVariableExists` |
| ShmManager.SharedMemoryManager.WaitForVariable | pyfreefem/shm_manager.py:450-467 | the polling loop over the clock readings equals `ShmSpec.WaitForVariable` |
| ShmManager.SharedMemoryManager.WriteDoubleArray | pyfreefem/shm_manager.py:469-503 | both loops in turn equal `ShmSpec.WriteDoubleArray` |
| ShmManager.SharedMemoryManager.RegisterDoubles | pyfreefem/shm_manager.py:483-490 | the first loop registers every absent key as an 8-byte double, stopping at the first error |
| ShmManager.SharedMemoryManager.StoreDoubleValues | pyfreefem/shm_manager.py:492-503 | the second loop writes each value in turn, stopping at the first failure |
| ShmManager.SharedMemoryManager.StoreDouble | pyfreefem/shm_manager.py:494-503 | one turn: an unregistered key is a `TypeError` on None, another type is `TypeError`, otherwise the 8 bytes go to the slot |
| ShmSpec.ProductNonNegative | pyfreefem/shm_manager.py:421 | `np.prod` of non-negative extents is non-negative |
| ShmProperties.AllocateStepFacts | pyfreefem/shm_manager.py:149-178 | the segment is unchanged; on success the offset is free, least and fits; failure is `CorruptHeader` or `SegmentFull`, the latter exactly when no free offset fits |
| ShmProperties.PlacedAfterNewSlot | pyfreefem/shm_manager.py:191-192 | a new slot at a free offset, large enough for its type, keeps every slot past the header, large enough for its type and disjoint from the others |
| ShmProperties.AllocAndRegisterFacts | pyfreefem/shm_manager.py:191-192 | the new descriptor sits at a free offset inside the segment, the header reloads to the new registry, and no data byte past 1024 changes |
| ShmProperties.AllocAndRegisterErrors | pyfreefem/shm_manager.py:191-192 | the new-slot path fails only with `MemoryError`, the header-size `ValueError` or a write past the segment |
| ShmProperties.SlotFacts | pyfreefem/shm_manager.py:283-295 | a chosen slot is registered under the key with the requested type, large enough when sized; other entries are kept and no data byte changes |
| ShmProperties.StoreInSlot | pyfreefem/shm_manager.py:298-301 | writing inside a variable's own slot returns those bytes on reading and leaves the registry and every other variable's bytes unchanged |
| ShmProperties.WriteAtSlotFacts | pyfreefem/shm_manager.py:298-301 | a successful write leaves a registered slot of the right type holding the written bytes, with every other variable kept |
| ShmProperties.WriteIntRoundTrip | pyfreefem/shm_manager.py:180-224 | `read_int` after a successful `write_int` returns the value and other variables keep their bytes |
| ShmProperties.WriteDoubleRoundTrip | pyfreefem/shm_manager.py:226-270 | `read_double` after `write_double` returns the same 8 bytes, other variables kept |
| ShmProperties.WriteStringAsSlotWrite | pyfreefem/shm_manager.py:272-301 | `write_string` writes the u32 byte length and the UTF-8 bytes into a sized slot of length + 4 bytes |
| ShmProperties.ReadPrefixed | pyfreefem/shm_manager.py:322-326 | a length-prefixed blob reads back as its length, then its bytes |
| ShmProperties.ReadStringSlot | pyfreefem/shm_manager.py:303-327 | a string slot holding a length prefix and decodable bytes reads back as their decoding |
| ShmProperties.DecodeStringParts | pyfreefem/shm_manager.py:321-327 | a length prefix and the bytes it counts, read one after the other, decode to their string |
| ShmProperties.DecodeStringPrefixed | pyfreefem/shm_manager.py:321-327 | a length prefix followed by decodable bytes decodes to their string |
| ShmProperties.LookupFound | pyfreefem/shm_manager.py:312-319 | a read of a registered name of the right type gets its descriptor after the reload |
| ShmProperties.PrefixedSlotFacts | pyfreefem/shm_manager.py:283-300 | a length prefix and its bytes written into a sized 'string' slot read back at the slot's offset, with the header sound and other variables kept |
| ShmProperties.ReadEncodedSlot | pyfreefem/shm_manager.py:321-327 | a string slot holding the length-prefixed UTF-8 encoding of a string reads back as that string |
| ShmProperties.StringSlotRoundTrip | pyfreefem/shm_manager.py:298-327 | the slot write of a string reads back as the same string |
| ShmProperties.WriteStringRoundTrip | pyfreefem/shm_manager.py:272-327 | `read_string` after a successful `write_string` returns the value, other variables kept |
| ShmProperties.ArrayBlob | pyfreefem/shm_manager.py:347-383 | the array slot is ndim, extents, dtype code, elements: 8 + 4·ndim + count·element bytes |
| ShmProperties.DecodeDataBytes | pyfreefem/shm_manager.py:416-425 | element bytes decode back under the code they were written with (1 double, 0 int) |
| ShmProperties.ReadArrayParts | pyfreefem/shm_manager.py:403-418 | the blob's four fields read back at their offsets |
| ShmProperties.DecodeArrayBlob | pyfreefem/shm_manager.py:403-428 | an array's blob decodes to the same array |
| ShmProperties.DecodeArrayParts | pyfreefem/shm_manager.py:403-428 | an array decodes to itself once its ndim, extents, dtype code and elements each read back |
| ShmProperties.DecodeArrayHeader | pyfreefem/shm_manager.py:403-418 | once ndim, extents and code are read, decoding continues with the elements right after them |
| ShmProperties.DecodeElementsOf | pyfreefem/shm_manager.py:420-428 | the element bytes of an array decode and reshape to the array |
| ShmProperties.WriteArrayAsSlotWrite | pyfreefem/shm_manager.py:329-383 | `write_array` writes the four fields into a sized slot of the array's size |
| ShmProperties.WriteArrayRoundTrip | pyfreefem/shm_manager.py:329-428 | `read_array` after a successful `write_array` rebuilds the same shape and elements, other variables kept |
| ShmProperties.QueryFacts | pyfreefem/shm_manager.py:430-448 | `_get_var_info` is None and `check_variable_exists` False exactly for unregistered names; `list_variables` is the loaded registry; none touches the segment |
| ShmProperties.RegisterVarFacts | pyfreefem/shm_manager.py:129-147 | `_register_var` succeeds exactly when the new blob is under 1024 bytes and fits; the header then reloads to the registry with the one entry changed; bytes past the blob are kept |
| ShmProperties.WriteIntTypeRule | pyfreefem/shm_manager.py:187-199 | `write_int` raises `TypeError` exactly when the name is registered with another type, and then changes no byte |
| ShmProperties.WriteDoubleTypeRule | pyfreefem/shm_manager.py:233-245 | `write_double` raises `TypeError` exactly when the name is registered with another type |
| ShmProperties.WriteStringTypeRule | pyfreefem/shm_manager.py:283-295 | `write_string` raises `TypeError` exactly when the name has another type and a slot large enough; a too-small slot is silently re-registered |
| ShmProperties.WriteArrayTypeRule | pyfreefem/shm_manager.py:338-367 | an unsupported dtype is a `ValueError` before any change; with a supported dtype, an extent that does not fit an int32 is an `OverflowError` before any change; `TypeError` exactly when the extents fit and the name has another type and a large-enough slot |
| ShmProperties.ReusedSlot | pyfreefem/shm_manager.py:289-291 | a same-typed, large-enough slot is reused at its offset without touching the registry |
| ShmProperties.StoreInOwnSlot | pyfreefem/shm_manager.py:298-301 | a write within a registered slot succeeds and changes no byte outside it |
| ShmProperties.WriteAtReusedSlot | pyfreefem/shm_manager.py:289-301 | rewriting a same-typed slot keeps the registry and changes only bytes inside the slot |
| ShmProperties.WriteIntInPlace | pyfreefem/shm_manager.py:193-202 | rewriting an int succeeds, keeps the registry and touches only its slot |
| ShmProperties.WriteDoubleInPlace | pyfreefem/shm_manager.py:240-248 | rewriting a double succeeds, keeps the registry and touches only its slot |
| ShmProperties.WriteStringInPlace | pyfreefem/shm_manager.py:289-301 | rewriting a string that fits its slot succeeds, keeps the registry and touches only its slot |
| ShmProperties.WriteArrayInPlace | pyfreefem/shm_manager.py:361-383 | rewriting an array that fits its slot succeeds, keeps the registry and touches only its slot |
| ShmProperties.ReadErrors | pyfreefem/shm_manager.py:204-224 | each read raises `KeyError` exactly for an absent name and `TypeError` exactly for another type (likewise lines 250-270, 303-319, 385-401), and no read changes the segment |
| ShmBatch.WaitFromOutcome | pyfreefem/shm_manager.py:462-467 | from any clock reading on: True exactly when that reading is within the timeout and the name is registered; False exactly when time is up or the name is absent (no later poll sees another registry); `CorruptHeader` exactly when a due poll finds an unreadable header; the segment never changes |
| ShmBatch.WaitForVariableOutcome | pyfreefem/shm_manager.py:450-467 | `wait_for_variable` returns True exactly when the first reading is within the timeout and the name is registered, False exactly when time is up or the name is absent, and never changes the segment |
| ShmBatch.KeysDistinct | pyfreefem/shm_manager.py:484 | distinct indices name distinct keys |
| ShmBatch.FirstNonDouble | pyfreefem/shm_manager.py:493-500 | the first index whose key is not a registered double, with all earlier ones doubles |
| ShmBatch.StoreOneFacts | pyfreefem/shm_manager.py:494-503 | one turn writes the value to its slot, keeps the registry, and keeps every other variable's bytes |
| ShmBatch.StoreDoublesStops | pyfreefem/shm_manager.py:499-500 | a key that is not a registered double stops the loop with `TypeError` |
| ShmBatch.StoreDoublesFacts | pyfreefem/shm_manager.py:493-503 | the second loop succeeds exactly when every key is a double; before the first one that is not, every key reads back its value and other variables are kept |
| ShmBatch.AllocAndRegisterLoads | pyfreefem/shm_manager.py:489-490 | after a new 8-byte slot is registered, the header reloads to the registry with that entry |
| ShmBatch.RegisterMissingGrows | pyfreefem/shm_manager.py:483-490 | the first loop only adds registry entries and never alters one |
| ShmBatch.RegisterMissingFacts | pyfreefem/shm_manager.py:483-490 | after the first loop every key is registered; every new entry is an 8-byte double for one of the keys; the state stays sound, so slots stay disjoint; old entries and every data byte are kept |
| ShmBatch.WriteDoubleArrayRoundTrip | pyfreefem/shm_manager.py:469-503 | after a successful `write_double_array` each key `str(start + i)` reads back `values[i]`; new entries are 8-byte doubles; unrelated variables keep entry and bytes |
| ShmBatch.WriteDoubleArrayPartial | pyfreefem/shm_manager.py:493-503 | a non-double key at index `stop` raises `TypeError` after every lower index was already written |
| ShmVariant.VariantSlotAgrees | pyfreefem_ml/shm_manager.py:291-308 | the variant's slot choice equals the canonical sized one unless the name has another type, where it raises `TypeError` |
| ShmVariant.VariantWriteStringTypeRule | pyfreefem_ml/shm_manager.py:291-303 | the variant `write_string` raises `TypeError` exactly when the name has another type, whatever its size |
| ShmVariant.WriteStringRulesDiffer | pyfreefem_ml/shm_manager.py:297-308 | on a too-small slot of another type the canonical `write_string` re-registers while the variant raises `TypeError` |
| ShmVariant.VariantWriteStringAgrees | pyfreefem_ml/shm_manager.py:280-314 | when the variant `write_string` succeeds it does exactly what the canonical one does |
| ShmVariant.VariantWriteStringRoundTrip | pyfreefem_ml/shm_manager.py:280-340 | `read_string` after the variant `write_string` returns the value, other variables kept |
| ShmVariant.VariantWriteStringInPlace | pyfreefem_ml/shm_manager.py:297-314 | rewriting a string that fits keeps the registry and touches only its slot |
| ShmVariant.VariantWriteArrayTypeRule | pyfreefem_ml/shm_manager.py:358-375 | the variant `write_array` raises `TypeError` exactly when the name has another type |
| ShmVariant.VariantBlob | pyfreefem_ml/shm_manager.py:377-383 | the variant slot is count, ndim, shape[0], then the doubles: 12 + 8·count bytes |
| ShmVariant.DecodeVariantBlob | pyfreefem_ml/shm_manager.py:403-416 | the blob decodes to the one-dimensional array of its doubles when count equals shape[0], and fails to reshape otherwise |
| ShmVariant.VariantReadBack | pyfreefem_ml/shm_manager.py:385-416 | `read_array` of a slot holding the blob gives that decoding |
| ShmVariant.VariantWriteArrayAsSlotWrite | pyfreefem_ml/shm_manager.py:342-383 | a successful variant `write_array` writes the variant blob into a sized slot of 12 + 8·count bytes |
| ShmVariant.VariantArrayRoundTrip | pyfreefem_ml/shm_manager.py:342-416 | under exact reads, one-dimensional arrays round-trip; arrays of two or more dimensions never come back equal, and fail to reshape when count differs from shape[0] |
| ShmVariant.VariantZeroDimFails | pyfreefem_ml/shm_manager.py:380 | a zero-dimensional array never writes successfully; with its slot in place it fails on `shape[0]` |
| ShmVariant.VariantExtentOverflow | pyfreefem_ml/shm_manager.py:378-380 | a first extent of 2^32 or more never writes successfully: the count is 0 or too large itself, and with its slot in place `struct.pack` refuses `shape[0]` |
| ShmVariant.ProductOfLarge | pyfreefem_ml/shm_manager.py:356 | non-negative extents whose first is 2^32 or more give `array.size` 0 or at least 2^32 |
| ShmVariant.ChooseVariantSlot | pyfreefem_ml/shm_manager.py:358-375 | the method's slot choice equals `VariantSlot` |
| ShmVariant.VariantWriteString | pyfreefem_ml/shm_manager.py:280-314 | the method equals the variant `WriteString` |
| ShmVariant.VariantWriteArray | pyfreefem_ml/shm_manager.py:342-383 | the method equals the variant `WriteArray`, for any float64 array with non-negative extents |
| ShmVariant.VariantReadArray | pyfreefem_ml/shm_manager.py:385-416 | the method equals the variant `ReadArray` |
| Converter.ToFreeFem | pyfreefem/data_converter.py:37-84 | conversion succeeds exactly when every array inside has one or two dimensions |
| Converter.RenderAll | pyfreefem/data_converter.py:54 | a list's elements convert exactly when each does, giving one text per element |
| Converter.ElemTexts | pyfreefem/data_converter.py:61 | one `str` per array element |
| Converter.RenderMatrix | pyfreefem/data_converter.py:63-73 | the row loop builds `[[c](row 0), [c](row 1), ...]` |
| Converter.ConvertToFreeFem | pyfreefem/data_converter.py:37-84 | the element loop equals `ToFreeFem` |
| Converter.ArrayMatch | pyfreefem/data_converter.py:133-134 | the `[n](...)` pattern captures a group shorter than the text |
| Converter.MatrixMatch | pyfreefem/data_converter.py:177-178 | the `[...]` pattern captures a group shorter than the text |
| Converter.SplitPieces | pyfreefem/data_converter.py:140-159 | no piece of the depth-0 comma split is longer than the content |
| Converter.RowPieces | pyfreefem/data_converter.py:184-211 | no row piece is longer than the content |
| Converter.ParseAll | pyfreefem/data_converter.py:152-159 | one parsed value per piece |
| Converter.ConvertFromFreeFem | pyfreefem/data_converter.py:121-234 | the method with both scanning loops equals `FromFreeFem` |
| Converter.ConvertElements | pyfreefem/data_converter.py:140-159 | the list scan yields the pieces parsed in turn |
| Converter.ConvertRows | pyfreefem/data_converter.py:184-211 | the row scan yields the row pieces parsed in turn |
| ConverterProperties.PlainRenders | pyfreefem/data_converter.py:39-55 | ints, bools, strings and nested lists of them always convert |
| ConverterProperties.TextOfList | pyfreefem/data_converter.py:52-55 | a list renders as `[n](e1, e2, ...)` of its elements' texts |
| ConverterProperties.TextShape | pyfreefem/data_converter.py:39-55 | such a text is non-empty, on one line, with no space at either end |
| ConverterProperties.ScanText | pyfreefem/data_converter.py:144-155 | the depth scan passes over a whole element's text without cutting it |
| ConverterProperties.SplitTop | pyfreefem/data_converter.py:140-159 | splitting the joined element texts at depth-0 commas gives back exactly the element texts |
| ConverterProperties.ArrayMatchList | pyfreefem/data_converter.py:133-137 | the pattern on `[n](j)` captures `j` |
| ConverterProperties.IntRoundTrip | pyfreefem/data_converter.py:223-226 | `str(n)` parses back as the int `n` |
| ConverterProperties.QuotedRoundTrip | pyfreefem/data_converter.py:229-233 | a single-quoted string parses back as the string inside |
| ConverterProperties.BoolToken | pyfreefem/data_converter.py:127-130 | text parses as a bool exactly when it is "true"/"false" in any case |
| ConverterProperties.BoolRoundTrip | pyfreefem/data_converter.py:40-130 | True/False render as "True"/"False" and parse back as the same bools |
| ConverterProperties.NoneToken | pyfreefem/data_converter.py:123-124 | the result is None exactly for blank text |
| ConverterProperties.NotBlankOther | pyfreefem/data_converter.py:123-130 | other text never parses to None or a bool |
| ConverterProperties.TokenKinds | pyfreefem/data_converter.py:223-234 | a token is an int, a float or a string |
| ConverterProperties.TokenBranch | pyfreefem/data_converter.py:222-234 | text matching neither pattern is parsed as a token |
| ConverterProperties.ListBranch | pyfreefem/data_converter.py:133-174 | text matching `[n](...)` parses as the list of its pieces, whatever `n` says |
| ConverterProperties.MatrixBranch | pyfreefem/data_converter.py:177-220 | bracketed text with inner brackets parses as its row pieces, made an array when all are lists |
| ConverterProperties.PlainToken | pyfreefem/data_converter.py:222-234 | trimmed text not starting with '[' and not a bool is parsed as a token |
| ConverterProperties.RoundTrip | pyfreefem/data_converter.py:52-226 | `convert_from_freefem(convert_to_freefem(v)) == v` for ints, bools, strings without separator characters, and nested lists of them |
| ConverterProperties.RoundTripAll | pyfreefem/data_converter.py:152-159 | parsing the element texts of such a list gives back its elements |
| ConverterProperties.NoneComesBackAsText | pyfreefem/data_converter.py:84 | None renders as "None", which parses back as the string "None", not None |
| ConverterProperties.ArrayWrittenAsList | pyfreefem/data_converter.py:58-62 | a one-dimensional array renders exactly like the list of its elements |
| ConverterProperties.ScalarTextsRender | pyfreefem/data_converter.py:61 | non-string scalars convert to their `str` |
| ConverterProperties.IntArrayComesBackAsList | pyfreefem/data_converter.py:58-174 | a one-dimensional int array comes back as a list of the same ints |
| ConverterProperties.MatrixTextIsJoin | pyfreefem/data_converter.py:63-73 | the two-dimensional text is the row texts joined by ", " inside brackets |
| ConverterProperties.MatrixPrefixJoin | pyfreefem/data_converter.py:66-72 | after `i` turns the loop has written the first `i` rows joined by ", " |
| ConverterProperties.MatrixComesBackAsList | pyfreefem/data_converter.py:177-211 | as written, two-dimensional text parses to a list whose first item is the string "[c]", not to rows |
| Paths.Replace | pyfreefem/utils.py:54 | `replace` keeps the length |
| Paths.ReplaceAt | pyfreefem/utils.py:54 | each character is replaced exactly when it is the old one |
| Paths.ReplaceRemoves | pyfreefem/utils.py:54 | after replacing '\\' by '/' no '\\' is left |
| Paths.ReplaceBack | pyfreefem/utils.py:54-78 | replacing back restores a text that did not contain the new character |
| Paths.Split | pyfreefem/utils.py:75 | `split("/")` yields at least one part |
| Paths.SplitFree | pyfreefem/utils.py:75 | no part contains the separator |
| Paths.JoinSplit | pyfreefem/utils.py:75-78 | joining the parts with '\\' equals replacing every '/' by '\\' |
| Paths.ToWsl | pyfreefem/utils.py:52-56 | a path without ':' is returned unchanged; otherwise the result starts with "/mnt/" and is 4 characters longer |
| Paths.ToWindows | pyfreefem/utils.py:74-81 | a path that does not start with "/mnt/" or has at most 3 '/'-separated parts is returned unchanged; otherwise the result has no '/' |
| Paths.WslBackslashes | pyfreefem/utils.py:52-55 | the WSL path holds a '\\' exactly when the drive part did |
| Paths.ToWslShape | pyfreefem/utils.py:51-55 | `C:\rest` becomes "/mnt/" + lower(drive) + "/" + rest with '\\' as '/' |
| Paths.ToWindowsShape | pyfreefem/utils.py:74-80 | `/mnt/d/rest` becomes upper(d) + ":\\" + rest with '/' as '\\' |
| Paths.SplitMounted | pyfreefem/utils.py:75-78 | `/mnt/d/rest` has more than 3 parts, part 2 is `d`, and the rest are `rest`'s parts |
| Paths.UpperLower | pyfreefem/utils.py:77 | upper-casing undoes lower-casing of a drive with no lower-case letter |
| Paths.LowerUpper | pyfreefem/utils.py:54 | lower-casing undoes upper-casing of a drive with no upper-case letter |
| Paths.NormalizeTargets | pyfreefem/utils.py:112-126 | "windows"/"win" in any case converts WSL paths, "linux"/"wsl" converts paths holding '\\' (a path without ':' is unchanged), any other target returns the path |
| Paths.WindowsRoundTrip | pyfreefem/utils.py:36-81 | `convert_to_windows_path(convert_to_wsl_path(p)) == p` for `p` = drive + ":\\" + tail, where the drive has no lower-case letter, ':' or '/', and the tail has no '/' |
| Paths.WslRoundTrip | pyfreefem/utils.py:36-81 | `convert_to_wsl_path(convert_to_windows_path(p)) == p` for `p` = "/mnt/" + d + "/" + rest, where `d` has no upper-case letter, ':', '\\' or '/', and `rest` has no '\\' |

## Left out

- Segment handling through `sysv_ipc` (attach, detach, remove: pyfreefem/shm_manager.py:44-61, 505-520) is not modelled. The segment is a byte array owned by the manager, and `cleanup`/`destroy` are left out.
- Exact reads: `memory.read(0, off)` in `sysv_ipc` reads to the end of the segment, and reads past the end are clipped. The model reads exactly `n` bytes or fails with `OutOfSegment`.
- ShmProperties.WriteStringRoundTrip: holds for the empty string only under the exact-read model. With `sysv_ipc`, a length of 0 makes `read_string` decode the rest of the segment.
- ShmProperties.WriteArrayRoundTrip: likewise holds for zero-dimensional and empty arrays only under the exact-read model. A read of 0 bytes returns the rest of the segment.
- ShmVariant.VariantWriteStringRoundTrip: holds for the empty string only under the exact-read model. The variant's `read(0, offset + 4)` (pyfreefem_ml/shm_manager.py:339) returns the rest of the segment.
- ShmVariant.VariantArrayRoundTrip: holds for an empty one-dimensional array only under the exact-read model. With `sysv_ipc`, `read(0, offset + 12)` (pyfreefem_ml/shm_manager.py:413) returns the rest of the segment, and `frombuffer`/`reshape((0,))` then fail.
- Utf8.Encode: a Dafny `char` is a Unicode scalar value, so a string with a lone surrogate cannot be written. The `UnicodeEncodeError` that `encode('utf-8')` raises for one (pyfreefem/shm_manager.py:280) is not modelled.
- JSON is the `JsonCodec` parameter. Its round trip is the hypothesis `Faithful` rather than a proof about `json.dumps`/`json.loads`. `json` writes a float as its shortest repr, which reads back as the same double, so the hypothesis holds for every header whose timestamps are finite. `time.time()` never returns NaN or an infinity, and `json` would not keep a NaN's payload bits.
- Timestamps from `time.time()` are parameters (`now`), given as the eight bytes of the double. The polling clock of `wait_for_variable` is a finite sequence of readings, and `time.sleep` is left out.
- ShmBatch.WaitForVariableOutcome: when the clock readings run out, the loop ends with False. A real clock is unbounded.
- Doubles are opaque 8-byte patterns, so `write_double`/`read_double` round-trip byte for byte. Float arithmetic and the float64 conversion of Python floats are not modelled.
- ShmManager.SharedMemoryManager.WriteInt: requires an int32 value. The source registers the slot first and only then fails in `struct.pack` (pyfreefem/shm_manager.py:192, 202), leaving a half-done write. This is not modelled.
- ShmManager.SharedMemoryManager.WriteArray: requires the elements to already be doubles for "double" and int32 values for "int". numpy's `astype` conversion is not modelled.
- ShmManager.SharedMemoryManager.WriteArray: an extent of 2^31 or more is refused with `ExtentOverflow`, as numpy 2 does in `np.array(array.shape, dtype=np.int32)` (pyfreefem/shm_manager.py:348). numpy before version 2 instead wraps the extent to a negative int32, which makes a later `read_array` fail to reshape; that older behaviour is not modelled.
- ShmVariant.VariantWriteArray: requires double elements. The `np.array`/`astype(np.float64)` conversion is not modelled.
- ShmManager.SharedMemoryManager.WriteDoubleArray: takes the values as doubles. The numpy conversion at pyfreefem/shm_manager.py:476-480 is not modelled.
- ShmProperties.WriteIntRoundTrip: requires that the header after the write ends before byte 1024 (`FitsHeader`), and likewise every round-trip and batch lemma. `_save_header` accepts blobs up to 1023 bytes, so the header can reach byte 1027, and `_load_header` never bounds the stored length. Header and data are therefore not proved disjoint.
- Concurrency: another process changing the registry between reloads is not modelled.
- `print` messages are not modelled: the connection message, the array-size warning (pyfreefem/data_converter.py:163) and the row-length warning (line 217).
- The variant's Linux-only check (pyfreefem_ml/shm_manager.py:34-35) is not modelled.
- Converter.ConvertFromFreeFem: covers `dtype=None` only. The `dtype` conversions (pyfreefem/data_converter.py:166-172) and `data_name` are not modelled.
- Converter.ConvertFromFreeFem: represents `np.array(rows)` by its rows (`PyArrayOf`). numpy's own shape inference, and its error on ragged rows, are not modelled.
- Text.ParseInt: CPython 3.11 and later refuse to convert an int of more than 4300 decimal digits in either direction (`sys.get_int_max_str_digits`). That limit is not modelled; integers of any length convert.
- Text.ParseIntOfDecimal: likewise holds for every integer only without the 4300-digit limit.
- Converter.ToFreeFem: `str(n)` of an int with more than 4300 digits raises in CPython 3.11 and later. The model renders it.
- ConverterProperties.IntRoundTrip: holds only without the 4300-digit limit on `str`/`int`.
- ConverterProperties.PlainRenders: holds only without the 4300-digit limit; a longer int makes `str` raise.
- ConverterProperties.ScalarTextsRender: holds only without the 4300-digit limit.
- ConverterProperties.RoundTrip: holds only without the 4300-digit limit, for the ints the value holds.
- ConverterProperties.RoundTripAll: holds only without the 4300-digit limit, for the ints the list holds.
- Converter.ArrayMatch: `\d` is matched against ASCII digits only. Python's `\d` also matches other Unicode decimal digits, so text such as "[٢](1, 2)" matches in Python but not in the model.
- Text.ParseInt accepts ASCII digits only. Python's `int` also accepts other Unicode decimal digits. The float literal test stands in for Python's `float` on ASCII text.
- Text.Lower and Text.Upper map ASCII letters only. Python's `lower`/`upper` also map other letters. The comparisons with "true", "false" and the target names are unaffected.
- Paths.UpperLower: holds under ASCII case mapping only. With Python's full mapping, `"ẞ".lower().upper()` is "SS".
- Paths.LowerUpper: holds under ASCII case mapping only. With Python's full mapping, `"ß".upper().lower()` is "ss".
- Paths.WindowsRoundTrip: holds under ASCII case mapping only. A drive such as "ẞ" comes back as "SS".
- Paths.WslRoundTrip: holds under ASCII case mapping only. A drive directory such as "ß" comes back as "ss".
- Converter.ToFreeFem: the exception wrapper that turns other errors into `DataTransferError` (pyfreefem/data_converter.py:86-95, 236-244) has no counterpart. Only the dimension error can occur in the model.
- Converter.ToFreeFem: floats are carried by their decimal text rather than by value.
- A two-dimensional array's text does not parse back into rows, because the row scan tracks only '[' ']' depth. No matrix round trip is claimed. `ConverterProperties.MatrixComesBackAsList` states what comes back instead.
- `normalize_path` without a target needs platform detection (`platform.system`, `/proc/version`); only the explicit-target form is modelled.
- pyfreefem/utils.py:54 puts a backslash inside an f-string expression, which Python accepts only from version 3.12. The model follows the evident meaning.
- The C++ plugins, the FreeFEM runners and interfaces, the error classes and the file I/O helpers are not part of this model.
