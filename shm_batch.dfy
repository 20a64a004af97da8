/**
 * The two composite operations of the canonical manager: `wait_for_variable`,
 * which polls the header, and `write_double_array`, which registers a run of
 * numbered 'double' variables and then fills them.
 */
module ShmBatch {
  import opened Wrappers
  import opened Bytes
  import Text
  import opened Registry
  import opened ShmSpec
  import opened ShmProperties

  // ---------------------------------------------------------------------
  // Polling

  /**
   * `wait_for_variable` from the reading `clock[i]` on. Nothing else writes to the
   * segment between polls, so every poll gives the same answer: True exactly when a
   * poll happens and the name is registered, an error exactly when a poll happens and
   * the header does not load, and False otherwise. The segment is never changed.
   */
  lemma {:induction false} WaitFromOutcome(env: Env, s: Shm, key: string, timeout: real, clock: seq<real>, i: nat)
    requires 1 <= i <= |clock|
    ensures var w := WaitFrom(env, s, key, timeout, clock, i);
      var polls := i < |clock| && clock[i] - clock[0] < timeout;
      && w.post.seg == s.seg
      && (w.result == Ok(true) <==> polls && Loaded(env, s).Some? && key in Loaded(env, s).value.variables)
      && (w.result == Ok(false) <==> !polls || (Loaded(env, s).Some? && key !in Loaded(env, s).value.variables))
      && (w.result.Err? <==> polls && Loaded(env, s).None?)
      && (w.result.Err? ==> w.result.error == CorruptHeader)
    decreases |clock| - i
  {
    if i < |clock| && clock[i] - clock[0] < timeout {
      var c := CheckVariableExists(env, s, key);
      QueryFacts(env, s, key);
      if c.result == Ok(false) {
        WaitFromOutcome(env, c.post, key, timeout, clock, i + 1);
      }
    }
  }

  /**
   * `wait_for_variable(key, timeout)`: True when the first poll, taken before the
   * timeout, finds the name; False when the name is absent or no poll happens in time.
   */
  lemma WaitForVariableOutcome(env: Env, s: Shm, key: string, timeout: real, clock: seq<real>)
    requires |clock| >= 1
    ensures var w := ShmSpec.WaitForVariable(env, s, key, timeout, clock);
      var polls := 1 < |clock| && clock[1] - clock[0] < timeout;
      && w.post.seg == s.seg
      && (w.result == Ok(true) <==> polls && Loaded(env, s).Some? && key in Loaded(env, s).value.variables)
      && (w.result == Ok(false) <==> !polls || (Loaded(env, s).Some? && key !in Loaded(env, s).value.variables))
  {
    WaitFromOutcome(env, s, key, timeout, clock, 1);
  }

  // ---------------------------------------------------------------------
  // write_double_array

  /** The name `str(start_index + i)` of the `i`-th value. */
  function KeyAt(start: int, i: nat): string
  {
    Text.IntToDecimal(start + i)
  }

  /** Different indices name different variables. */
  lemma KeysDistinct(start: int, i: nat, j: nat)
    requires i != j
    ensures KeyAt(start, i) != KeyAt(start, j)
  {
    if KeyAt(start, i) == KeyAt(start, j) {
      Text.IntToDecimalInjective(start + i, start + j);
    }
  }

  /** `key` is registered as a 'double'. */
  predicate IsDouble(vars: map<string, Descriptor>, key: string)
  {
    key in vars && vars[key].vtype == DoubleVar
  }

  /** The first index from `i` on whose name is not a registered 'double', or `n`. */
  function FirstNonDouble(vars: map<string, Descriptor>, start: int, i: nat, n: nat): (r: nat)
    requires i <= n
    ensures i <= r <= n
    ensures forall j :: i <= j < r ==> IsDouble(vars, KeyAt(start, j))
    ensures r < n ==> !IsDouble(vars, KeyAt(start, r))
    decreases n - i
  {
    if i == n || !IsDouble(vars, KeyAt(start, i)) then i else FirstNonDouble(vars, start, i + 1, n)
  }

  /** A registry that differs from `top` only by leaving entries out. */
  ghost predicate Below(m: Metadata, top: Metadata)
  {
    && m.version == top.version && m.createTime == top.createTime && m.name == top.name
    && forall k :: k in m.variables ==> k in top.variables && top.variables[k] == m.variables[k]
  }

  /** Every registry below `top` saves within the header region. */
  ghost predicate FitsBelow(env: Env, top: Metadata)
  {
    forall m :: Below(m, top) ==> FitsHeader(env, m)
  }

  /** The state after the second loop writes the `i`-th value into the slot of its name. */
  ghost function StoreOne(env: Env, s: Shm, start: int, values: seq<F64>, i: nat): Shm
    requires i < |values| && Loaded(env, s).Some? && IsDouble(Loaded(env, s).value.variables, KeyAt(start, i))
  {
    var m := Loaded(env, s).value;
    StoreStep(Shm(s.seg, m), m.variables[KeyAt(start, i)].offset, [values[i]]).post
  }

  /**
   * One turn of the second loop on a registered 'double': the value lands in its
   * slot, the header is untouched, every other slot keeps its bytes, and the loop
   * goes on from the next index.
   */
  lemma StoreOneFacts(env: Env, s: Shm, start: int, values: seq<F64>, i: nat)
    requires Sound(env, s) && i < |values| && IsDouble(Loaded(env, s).value.variables, KeyAt(start, i))
    ensures var t := StoreOne(env, s, start, values, i);
      var vars := Loaded(env, s).value.variables;
      && StoreDoubles(env, s, start, values, i) == StoreDoubles(env, t, start, values, i + 1)
      && Loaded(env, t) == Loaded(env, s) && Sound(env, t) && |t.seg| == |s.seg|
      && Read(t.seg, vars[KeyAt(start, i)].offset, 8) == Some(values[i])
      && forall k :: k in vars && k != KeyAt(start, i) ==>
           Read(t.seg, vars[k].offset, vars[k].size) == Read(s.seg, vars[k].offset, vars[k].size)
  {
    var m := Loaded(env, s).value;
    var key := KeyAt(start, i);
    var d := m.variables[key];
    assert Concat([values[i]]) == values[i] + Concat([]);
    assert d.offset + 8 <= End(d) <= |s.seg|;
    StoreInSlot(env, Shm(s.seg, m), key, [values[i]]);
  }

  /** One turn of the second loop keeps the header, so the segment stays sound. */
  lemma StoreOneKeeps(env: Env, s: Shm, start: int, values: seq<F64>, i: nat)
    requires Sound(env, s) && i < |values| && IsDouble(Loaded(env, s).value.variables, KeyAt(start, i))
    ensures var t := StoreOne(env, s, start, values, i);
      Loaded(env, t) == Loaded(env, s) && Sound(env, t)
  {
    StoreOneFacts(env, s, start, values, i);
  }

  /** The second loop stops with TypeError, writing nothing, at a name that is not a registered 'double'. */
  lemma StoreDoublesStops(env: Env, s: Shm, start: int, values: seq<F64>, i: nat)
    requires i < |values| && Loaded(env, s).Some? && !IsDouble(Loaded(env, s).value.variables, KeyAt(start, i))
    ensures StoreDoubles(env, s, start, values, i) == Step(Err(TypeMismatch), Shm(s.seg, Loaded(env, s).value))
  {
  }

  /** Two segments that read the same over a range read the same over its first `n` bytes. */
  lemma ReadKeptPrefix(a: seq<byte>, b: seq<byte>, off: nat, size: nat, n: nat)
    requires Read(a, off, size).Some? && Read(b, off, size) == Read(a, off, size) && n <= size
    ensures Read(b, off, n) == Read(a, off, n)
  {
    var slot := Read(a, off, size).value;
    ReadPart(a, off, slot, 0, n);
    ReadPart(b, off, slot, 0, n);
  }

  /**
   * What the second loop leaves in `w` having run over the indices from `i` up to
   * `stop` from `s`: the same header and registry, the values before `stop` in their
   * slots, and every other variable's bytes as they were.
   */
  ghost predicate Filled(env: Env, s: Shm, w: Shm, start: int, values: seq<F64>, i: nat, stop: nat)
    requires i <= stop <= |values|
  {
    && Loaded(env, s).Some?
    && Loaded(env, w) == Loaded(env, s) && Sound(env, w) && |w.seg| == |s.seg|
    && var vars := Loaded(env, s).value.variables;
       && (forall j :: i <= j < stop ==>
             IsDouble(vars, KeyAt(start, j)) && Read(w.seg, vars[KeyAt(start, j)].offset, 8) == Some(values[j]))
       && forall k :: k in vars && (forall j :: i <= j < stop ==> k != KeyAt(start, j)) ==>
            Read(w.seg, vars[k].offset, vars[k].size) == Read(s.seg, vars[k].offset, vars[k].size)
  }

  /** One turn of the second loop followed by the rest of it fills from the turn's index. */
  lemma FilledStep(env: Env, s: Shm, start: int, values: seq<F64>, i: nat, stop: nat, w: Shm)
    requires Sound(env, s) && i < stop <= |values|
    requires IsDouble(Loaded(env, s).value.variables, KeyAt(start, i))
    requires Filled(env, StoreOne(env, s, start, values, i), w, start, values, i + 1, stop)
    ensures Filled(env, s, w, start, values, i, stop)
  {
    var vars := Loaded(env, s).value.variables;
    var key := KeyAt(start, i);
    var d := vars[key];
    var t := StoreOne(env, s, start, values, i);
    StoreOneFacts(env, s, start, values, i);
    assert Loaded(env, t) == Loaded(env, s);
    forall j | i < j < stop
      ensures key != KeyAt(start, j)
    {
      KeysDistinct(start, i, j);
    }
    forall j | i <= j < stop
      ensures IsDouble(vars, KeyAt(start, j)) && Read(w.seg, vars[KeyAt(start, j)].offset, 8) == Some(values[j])
    {
      if j == i {
        ReadKeptPrefix(t.seg, w.seg, d.offset, d.size, 8);
      }
    }
    forall k | k in vars && (forall j :: i <= j < stop ==> k != KeyAt(start, j))
      ensures Read(w.seg, vars[k].offset, vars[k].size) == Read(s.seg, vars[k].offset, vars[k].size)
    {
      assert k != KeyAt(start, i);
    }
  }

  /**
   * The second loop from index `i`, when the names from `i` up to `stop` are
   * registered 'double's and the one at `stop` (if any) is not: it fails with
   * TypeError exactly when it reaches `stop` before the end, and by then has
   * filled the slots before `stop`.
   */
  lemma {:induction false} StoreDoublesFacts(env: Env, s: Shm, start: int, values: seq<F64>, i: nat, stop: nat)
    requires StoreReady(env, s, start, values, i, stop)
    ensures StoreOutcome(env, s, StoreDoubles(env, s, start, values, i), start, values, i, stop)
    decreases |values| - i
  {
    if i == stop {
      StoreDoublesAtStop(env, s, start, values, i);
    } else {
      StoreOneReady(env, s, start, values, i, stop);
      StoreDoublesFacts(env, StoreOne(env, s, start, values, i), start, values, i + 1, stop);
      StoreDoublesNext(env, s, start, values, i, stop);
    }
  }

  /**
   * The second loop from index `i` meets registered 'double's up to `stop` and,
   * when `stop` is not the end, a name that is not one there.
   */
  ghost predicate StoreReady(env: Env, s: Shm, start: int, values: seq<F64>, i: nat, stop: nat)
  {
    && Sound(env, s) && i <= stop <= |values|
    && (forall j :: i <= j < stop ==> IsDouble(Loaded(env, s).value.variables, KeyAt(start, j)))
    && (stop < |values| ==> !IsDouble(Loaded(env, s).value.variables, KeyAt(start, stop)))
  }

  /** After one turn on a registered 'double' the loop is ready from the next index. */
  lemma StoreOneReady(env: Env, s: Shm, start: int, values: seq<F64>, i: nat, stop: nat)
    requires StoreReady(env, s, start, values, i, stop) && i < stop
    ensures StoreReady(env, StoreOne(env, s, start, values, i), start, values, i + 1, stop)
  {
    StoreOneKeeps(env, s, start, values, i);
  }

  /** What the second loop from index `i` ends with, when it stops at `stop`. */
  ghost predicate StoreOutcome(env: Env, s: Shm, w: Step<()>, start: int, values: seq<F64>, i: nat, stop: nat)
    requires i <= stop <= |values|
  {
    && (w.result.Ok? <==> stop == |values|)
    && (w.result.Err? ==> w.result.error == TypeMismatch)
    && Filled(env, s, w.post, start, values, i, stop)
  }

  /** The second loop started at its stopping index writes nothing. */
  lemma StoreDoublesAtStop(env: Env, s: Shm, start: int, values: seq<F64>, stop: nat)
    requires StoreReady(env, s, start, values, stop, stop)
    ensures StoreOutcome(env, s, StoreDoubles(env, s, start, values, stop), start, values, stop, stop)
  {
    if stop < |values| {
      StoreDoublesStops(env, s, start, values, stop);
      FilledNothing(env, s, Shm(s.seg, Loaded(env, s).value), start, values, stop);
    } else {
      FilledNothing(env, s, s, start, values, stop);
    }
  }

  /** One turn on a registered 'double' followed by the rest of the loop ends as the loop from that turn. */
  lemma StoreDoublesNext(env: Env, s: Shm, start: int, values: seq<F64>, i: nat, stop: nat)
    requires StoreReady(env, s, start, values, i, stop) && i < stop
    requires var t := StoreOne(env, s, start, values, i);
      StoreOutcome(env, t, StoreDoubles(env, t, start, values, i + 1), start, values, i + 1, stop)
    ensures StoreOutcome(env, s, StoreDoubles(env, s, start, values, i), start, values, i, stop)
  {
    StoreOneFacts(env, s, start, values, i);
    var t := StoreOne(env, s, start, values, i);
    var w := StoreDoubles(env, t, start, values, i + 1);
    FilledStep(env, s, start, values, i, stop, w.post);
  }

  /** Running the second loop over no indices leaves every slot as it was. */
  lemma FilledNothing(env: Env, s: Shm, w: Shm, start: int, values: seq<F64>, i: nat)
    requires Sound(env, s) && i <= |values| && w.seg == s.seg
    ensures Filled(env, s, w, start, values, i, i)
  {
    assert Loaded(env, w) == Loaded(env, s);
  }

  // ---------------------------------------------------------------------
  // The first loop of write_double_array

  /** A successful new-slot path leaves a header that loads as the old registry plus the new slot. */
  lemma AllocAndRegisterLoads(env: Env, s: Shm, key: string, t: VarType, n: nat, now: F64)
    requires Faithful(env.codec) && Loaded(env, s).Some?
    requires AllocAndRegister(env, s, key, t, n, now).result.Ok?
    ensures var a := AllocAndRegister(env, s, key, t, n, now);
      && a.post.meta == Registered(Loaded(env, s).value, key, Descriptor(t, a.result.value, n, now))
      && Loaded(env, a.post) == Some(a.post.meta)
  {
    var al := AllocateStep(env, s, n);
    AllocateStepFacts(env, s, n);
    RegisterVarFacts(env, al.post, key, t, al.result.value, n, now);
  }

  /**
   * The first loop only ever adds entries: when it succeeds, the header it leaves
   * loads, and the registry it started from is part of the one it leaves.
   */
  lemma {:induction false} RegisterMissingGrows(env: Env, s: Shm, start: int, n: nat, i: nat, now: F64)
    requires Faithful(env.codec) && i <= n && Loaded(env, s).Some?
    requires RegisterMissing(env, s, start, n, i, now).result.Ok?
    ensures var r := RegisterMissing(env, s, start, n, i, now);
      Loaded(env, r.post).Some? && Below(Loaded(env, s).value, Loaded(env, r.post).value)
    decreases n - i
  {
    if i < n {
      var m := Loaded(env, s).value;
      var key := KeyAt(start, i);
      var g := Shm(s.seg, m);
      if key in m.variables {
        RegisterMissingGrows(env, g, start, n, i + 1, now);
      } else {
        AllocAndRegisterLoads(env, g, key, DoubleVar, 8, now);
        var a := AllocAndRegister(env, g, key, DoubleVar, 8, now);
        RegisterMissingGrows(env, a.post, start, n, i + 1, now);
      }
    }
  }

  /**
   * What the first loop leaves in `w` having run over the indices from `i` up to `n`
   * from `s`: the old registry with every name from `i` on registered, each name it
   * added an 8-byte 'double' named by one of those indices, a sound state, and no
   * byte past the header region changed.
   */
  ghost predicate Registers(env: Env, s: Shm, w: Shm, start: int, n: nat, i: nat)
  {
    && Loaded(env, s).Some? && Loaded(env, w).Some?
    && Below(Loaded(env, s).value, Loaded(env, w).value)
    && Sound(env, w)
    && var before := Loaded(env, s).value.variables;
       var after := Loaded(env, w).value.variables;
       && (forall j :: i <= j < n ==> KeyAt(start, j) in after)
       && (forall k :: k in after && k !in before ==>
             && after[k].vtype == DoubleVar && after[k].size == 8
             && exists j :: i <= j < n && k == KeyAt(start, j))
       && |w.seg| == |s.seg|
       && forall p :: HEADER_SIZE <= p < |s.seg| ==> w.seg[p] == s.seg[p]
  }

  /** A turn of the first loop on a registered name, followed by the rest of it. */
  lemma RegistersKept(env: Env, s: Shm, start: int, n: nat, i: nat, w: Shm)
    requires Sound(env, s) && i < n && KeyAt(start, i) in Loaded(env, s).value.variables
    requires Registers(env, Shm(s.seg, Loaded(env, s).value), w, start, n, i + 1)
    ensures Registers(env, s, w, start, n, i)
  {
  }

  /** A state that adds one new 8-byte 'double' for the `i`-th name, followed by the rest of the first loop. */
  lemma RegistersAfterNew(env: Env, s: Shm, a: Shm, start: int, n: nat, i: nat, d: Descriptor, w: Shm)
    requires Sound(env, s) && i < n && KeyAt(start, i) !in Loaded(env, s).value.variables
    requires d.vtype == DoubleVar && d.size == 8
    requires Loaded(env, a) == Some(Registered(Loaded(env, s).value, KeyAt(start, i), d))
    requires |a.seg| == |s.seg| && forall p :: HEADER_SIZE <= p < |s.seg| ==> a.seg[p] == s.seg[p]
    requires Registers(env, a, w, start, n, i + 1)
    ensures Registers(env, s, w, start, n, i)
  {
    var m := Loaded(env, s).value;
    var key := KeyAt(start, i);
    var top := Loaded(env, w).value.variables;
    assert Below(m, Loaded(env, a).value);
    forall k | k in top && k !in m.variables
      ensures top[k].vtype == DoubleVar && top[k].size == 8 && exists j :: i <= j < n && k == KeyAt(start, j)
    {
      if k == key {
        assert i <= i < n && k == KeyAt(start, i);
      }
    }
  }

  /** A turn of the first loop that registers a new slot, followed by the rest of it. */
  lemma RegistersAdded(env: Env, s: Shm, start: int, n: nat, i: nat, now: F64, w: Shm)
    requires Faithful(env.codec) && Sound(env, s) && i < n
    requires KeyAt(start, i) !in Loaded(env, s).value.variables
    requires var g := Shm(s.seg, Loaded(env, s).value);
      && AllocAndRegister(env, g, KeyAt(start, i), DoubleVar, 8, now).result.Ok?
      && FitsHeader(env, AllocAndRegister(env, g, KeyAt(start, i), DoubleVar, 8, now).post.meta)
      && Registers(env, AllocAndRegister(env, g, KeyAt(start, i), DoubleVar, 8, now).post, w, start, n, i + 1)
    ensures Registers(env, s, w, start, n, i)
  {
    var m := Loaded(env, s).value;
    var g := Shm(s.seg, m);
    var key := KeyAt(start, i);
    AllocAndRegisterFacts(env, g, key, DoubleVar, 8, now);
    var a := AllocAndRegister(env, g, key, DoubleVar, 8, now);
    RegistersAfterNew(env, s, a.post, start, n, i, Descriptor(DoubleVar, a.result.value, 8, now), w);
  }

  /**
   * The first loop of `write_double_array` from index `i`: when it succeeds and
   * every registry up to the one it leaves fits the header region, it registers
   * every absent name as a new 8-byte 'double' and keeps every other entry.
   */
  lemma {:induction false} RegisterMissingFacts(env: Env, s: Shm, start: int, n: nat, i: nat, now: F64)
    requires Faithful(env.codec) && Sound(env, s) && i <= n
    requires RegisterMissing(env, s, start, n, i, now).result.Ok?
    requires Loaded(env, RegisterMissing(env, s, start, n, i, now).post).Some?
    requires FitsBelow(env, Loaded(env, RegisterMissing(env, s, start, n, i, now).post).value)
    ensures Registers(env, s, RegisterMissing(env, s, start, n, i, now).post, start, n, i)
    decreases n - i
  {
    if i < n {
      var m := Loaded(env, s).value;
      var key := KeyAt(start, i);
      var g := Shm(s.seg, m);
      var top := Loaded(env, RegisterMissing(env, s, start, n, i, now).post).value;
      if key in m.variables {
        RegisterMissingFacts(env, g, start, n, i + 1, now);
        RegistersKept(env, s, start, n, i, RegisterMissing(env, g, start, n, i + 1, now).post);
      } else {
        var a := AllocAndRegister(env, g, key, DoubleVar, 8, now);
        AllocAndRegisterLoads(env, g, key, DoubleVar, 8, now);
        RegisterMissingGrows(env, a.post, start, n, i + 1, now);
        assert Below(a.post.meta, top);
        AllocAndRegisterFacts(env, g, key, DoubleVar, 8, now);
        RegisterMissingFacts(env, a.post, start, n, i + 1, now);
        RegistersAdded(env, s, start, n, i, now, RegisterMissing(env, a.post, start, n, i + 1, now).post);
      }
    }
  }

  // ---------------------------------------------------------------------
  // write_double_array as a whole

  /**
   * After a successful `write_double_array(start_index, values)` each name
   * `str(start_index + j)` reads back `values[j]`, every name it added is an 8-byte
   * 'double', and every other variable keeps its descriptor and its bytes. The
   * hypothesis: every registry up to the one the first loop leaves fits the header region.
   */
  lemma WriteDoubleArrayRoundTrip(env: Env, s: Shm, start: int, values: seq<F64>, now: F64)
    requires Faithful(env.codec) && Sound(env, s)
    requires ShmSpec.WriteDoubleArray(env, s, start, values, now).result.Ok?
    requires Loaded(env, RegisterMissing(env, s, start, |values|, 0, now).post).Some?
    requires FitsBelow(env, Loaded(env, RegisterMissing(env, s, start, |values|, 0, now).post).value)
    ensures var w := ShmSpec.WriteDoubleArray(env, s, start, values, now).post;
      var before := Loaded(env, s).value.variables;
      && Sound(env, w)
      && (forall j :: 0 <= j < |values| ==> ReadDouble(env, w, KeyAt(start, j)).result == Ok(values[j]))
      && (forall k :: k in Loaded(env, w).value.variables && k !in before ==>
            Loaded(env, w).value.variables[k].vtype == DoubleVar && Loaded(env, w).value.variables[k].size == 8)
      && forall k :: k in before && (forall j :: 0 <= j < |values| ==> k != KeyAt(start, j)) ==>
           && k in Loaded(env, w).value.variables && Loaded(env, w).value.variables[k] == before[k]
           && Read(w.seg, before[k].offset, before[k].size) == Read(s.seg, before[k].offset, before[k].size)
  {
    var r := RegisterMissing(env, s, start, |values|, 0, now);
    RegisterMissingFacts(env, s, start, |values|, 0, now);
    var vars := Loaded(env, r.post).value.variables;
    var stop := FirstNonDouble(vars, start, 0, |values|);
    StoreDoublesFacts(env, r.post, start, values, 0, stop);
    var w := StoreDoubles(env, r.post, start, values, 0).post;
    var before := Loaded(env, s).value.variables;
    forall k | k in before && (forall j :: 0 <= j < |values| ==> k != KeyAt(start, j))
      ensures Read(w.seg, before[k].offset, before[k].size) == Read(s.seg, before[k].offset, before[k].size)
    {
      ReadPastHeader(s.seg, r.post.seg, before[k].offset, before[k].size);
    }
  }

  /**
   * When the first loop succeeds and the name at `stop` already holds another type
   * (every earlier name being absent or a 'double'), `write_double_array` raises
   * TypeError having already written every value before `stop`.
   */
  lemma WriteDoubleArrayPartial(env: Env, s: Shm, start: int, values: seq<F64>, now: F64, stop: nat)
    requires Faithful(env.codec) && Sound(env, s) && stop < |values|
    requires RegisterMissing(env, s, start, |values|, 0, now).result.Ok?
    requires Loaded(env, RegisterMissing(env, s, start, |values|, 0, now).post).Some?
    requires FitsBelow(env, Loaded(env, RegisterMissing(env, s, start, |values|, 0, now).post).value)
    requires forall j :: 0 <= j < stop ==>
               KeyAt(start, j) !in Loaded(env, s).value.variables || IsDouble(Loaded(env, s).value.variables, KeyAt(start, j))
    requires KeyAt(start, stop) in Loaded(env, s).value.variables
    requires !IsDouble(Loaded(env, s).value.variables, KeyAt(start, stop))
    ensures var w := ShmSpec.WriteDoubleArray(env, s, start, values, now);
      && w.result == Err(TypeMismatch)
      && forall j :: 0 <= j < stop ==> ReadDouble(env, w.post, KeyAt(start, j)).result == Ok(values[j])
  {
    var r := RegisterMissing(env, s, start, |values|, 0, now);
    RegisterMissingFacts(env, s, start, |values|, 0, now);
    var before := Loaded(env, s).value.variables;
    var vars := Loaded(env, r.post).value.variables;
    forall j | 0 <= j < stop
      ensures IsDouble(vars, KeyAt(start, j))
    {
      if KeyAt(start, j) in before {
        assert vars[KeyAt(start, j)] == before[KeyAt(start, j)];
      }
    }
    assert vars[KeyAt(start, stop)] == before[KeyAt(start, stop)];
    StoreDoublesFacts(env, r.post, start, values, 0, stop);
  }
}
