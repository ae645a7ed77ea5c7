/** A number entity bound to the remote-control manager. Its upper bound is
    itself a register, read whenever that register changes; its value is
    re-clamped whenever the bound moves, restored on attach, and every
    committed value is handed to the manager as a truncated raw integer.

    The entity's mutable attributes are a `NumberState`; each operation is a
    pure transition returning the new state and the events it issued in
    order: calls of the description's value setter (with the raw integer)
    and state-refresh requests to the host. */
module RemoteControlNumber {
  import opened Wrappers
  import opened Numeric
  import EntityDescriptions

  type Address = EntityDescriptions.Address

  /** `ModbusRemoteControlNumberDescription`. `nativeMinValue` and
      `nativeMaxValue` are the host number entity's configured bounds (the
      host supplies 0 and 100 when a description declares none); the value
      setter is fixed per description, so only its argument is recorded. */
  datatype Description = Description(
    key: string,
    mode: EntityDescriptions.NumberMode,
    scale: real,
    nativeMinValue: real,
    nativeMaxValue: real)

  /** `ModbusRemoteControlNumber`: a description bound to the address of the
      register that carries its maximum. */
  datatype Entity = Entity(description: Description, maxValueAddress: Address)

  /** The entity's mutable attributes: the native value (absent until set)
      and the native maximum. */
  datatype NumberState = NumberState(value: Option<real>, maxValue: real)

  datatype Event =
    | SetterCalled(raw: int)
    | StateRefreshScheduled

  /** A transition's outcome: the new state and the events issued, in order. */
  datatype Step = Step(state: NumberState, events: seq<Event>)

  /** The data the host restores from the previous session. */
  datatype StoredNumberData = StoredNumberData(nativeValue: real, nativeMaxValue: real)

  /** The entity controller's register cache, read unsigned. */
  type RegisterCache = map<Address, nat>

  /** What the controller reads for an address: nothing until it has data. */
  function ReadUnsigned(cache: RegisterCache, address: Address): Option<nat>
  {
    if address in cache then Some(cache[address]) else None
  }

  /** The raw values passed to the value setter, in order. */
  function Writes(events: seq<Event>): (raws: seq<int>)
    ensures |raws| <= |events|
    ensures forall k :: 0 <= k < |raws| ==> SetterCalled(raws[k]) in events
    ensures forall k :: 0 <= k < |events| && events[k].SetterCalled? ==> events[k].raw in raws
  {
    if |events| == 0 then []
    else
      var rest := Writes(events[1..]);
      assert forall k :: 0 <= k < |rest| ==> SetterCalled(rest[k]) in events;
      assert forall k :: 1 <= k < |events| && events[k].SetterCalled? ==> events[1..][k - 1] == events[k];
      if events[0].SetterCalled? then [events[0].raw] + rest else rest
  }

  lemma {:induction false} WritesAppend(a: seq<Event>, b: seq<Event>)
    ensures Writes(a + b) == Writes(a) + Writes(b)
    decreases |a|
  {
    if |a| == 0 {
      assert a + b == b;
    } else {
      assert (a + b)[1..] == a[1..] + b;
      WritesAppend(a[1..], b);
    }
  }

  /** The scale is a divisor of every value written. */
  predicate Valid(e: Entity)
  {
    e.description.scale != 0.0
  }

  /** The state of a freshly created entity: no value, and the maximum the
      description configures. */
  function Initial(e: Entity): (s: NumberState)
    ensures s.value.None? && s.maxValue == e.description.nativeMaxValue
    ensures Consistent(e, s)
  {
    NumberState(None, e.description.nativeMaxValue)
  }

  /** `create_entity_if_supported`: the entity exists exactly when the
      description's max-value address resolves for this inverter model and
      register type. `addressFor` stands for that resolution. */
  function CreateEntityIfSupported<M, R>(d: Description, addressFor: (M, R) -> Option<Address>,
                                          inverterModel: M, registerType: R): (e: Option<Entity>)
    ensures e.Some? <==> addressFor(inverterModel, registerType).Some?
    ensures e.Some? ==> e.value.description == d
    ensures e.Some? ==> Addresses(e.value) == [addressFor(inverterModel, registerType).value]
  {
    match addressFor(inverterModel, registerType)
    case Some(address) => Some(Entity(d, address))
    case None => None
  }

  /** `addresses`: the registers the entity listens to. */
  function Addresses(e: Entity): (a: seq<Address>)
    ensures forall x :: x in a <==> x == e.maxValueAddress
  {
    [e.maxValueAddress]
  }

  /** The entity reacts to no register other than the one it lists: two
      caches that agree on that register lead to the same bound update. */
  lemma AddressUpdatedReadsOnlyAddresses(e: Entity, s: NumberState, c1: RegisterCache, c2: RegisterCache)
    requires Valid(e)
    requires forall a :: a in Addresses(e) ==> ReadUnsigned(c1, a) == ReadUnsigned(c2, a)
    ensures AddressUpdated(e, s, c1) == AddressUpdated(e, s, c2)
  {
    assert e.maxValueAddress in Addresses(e);
  }

  /** The value is where the clamp would put it: at least the minimum, at
      most the maximum when the interval is non-empty, and the minimum when
      it is empty. */
  predicate Consistent(e: Entity, s: NumberState)
  {
    s.value.Some? ==>
      var min, v := e.description.nativeMinValue, s.value.value;
      && min <= v
      && (min <= s.maxValue ==> v <= s.maxValue)
      && (s.maxValue < min ==> v == min)
  }

  /** `_update_native_value`: clamp the requested value into
      `[min, max]`, store it, and hand `int(value / scale)` of the stored
      value to the setter, then ask the host to refresh. */
  function UpdateNativeValue(e: Entity, s: NumberState, requested: real): (r: Step)
    requires Valid(e)
    ensures r.state.maxValue == s.maxValue
    ensures r.state.value.Some? && Consistent(e, r.state)
    ensures var min, max, v := e.description.nativeMinValue, s.maxValue, r.state.value.value;
      && (min <= requested <= max ==> v == requested)
      && (min <= max < requested ==> v == max)
      && (requested < min || max < min ==> v == min)
    ensures r.events == [SetterCalled(Trunc(r.state.value.value / e.description.scale)), StateRefreshScheduled]
    ensures Writes(r.events) == [Trunc(r.state.value.value / e.description.scale)]
  {
    var stored := Clamp(e.description.nativeMinValue, s.maxValue, requested);
    var events := [SetterCalled(Trunc(stored / e.description.scale)), StateRefreshScheduled];
    assert Writes(events) == [Trunc(stored / e.description.scale)] by {
      assert events[1..] == [StateRefreshScheduled];
      assert events[1..][1..] == [];
    }
    Step(NumberState(Some(stored), s.maxValue), events)
  }

  /** `async_set_native_value`: a user request. */
  function SetNativeValue(e: Entity, s: NumberState, requested: real): (r: Step)
    requires Valid(e)
    ensures r.state.maxValue == s.maxValue && Consistent(e, r.state)
    ensures r.state.value.Some? && Writes(r.events) == [Trunc(r.state.value.value / e.description.scale)]
    ensures e.description.nativeMinValue <= requested <= s.maxValue ==> r.state.value == Some(requested)
  {
    UpdateNativeValue(e, s, requested)
  }

  /** `_address_updated`: read the bound register. Without data nothing
      happens. Otherwise the maximum becomes the scaled reading, and the value
      is reseeded from it exactly when it is absent or above it. */
  function AddressUpdated(e: Entity, s: NumberState, cache: RegisterCache): (r: Step)
    requires Valid(e)
    ensures ReadUnsigned(cache, e.maxValueAddress).None? ==> r == Step(s, [])
    ensures ReadUnsigned(cache, e.maxValueAddress).Some? ==>
      var max := ReadUnsigned(cache, e.maxValueAddress).value as real * e.description.scale;
      var min := e.description.nativeMinValue;
      var reseed := s.value.None? || s.value.value > max;
      && r.state.maxValue == max
      && r.state.value.Some?
      && (min <= max ==> r.state.value.value <= max)
      && (reseed ==> r.state.value.value == (if min <= max then max else min))
      && (reseed ==> Writes(r.events) == [Trunc(r.state.value.value / e.description.scale)])
      && (!reseed ==> r.state.value == s.value && r.events == [])
    ensures Consistent(e, s) ==> Consistent(e, r.state)
  {
    match ReadUnsigned(cache, e.maxValueAddress)
    case None => Step(s, [])
    case Some(raw) =>
      var max := raw as real * e.description.scale;
      var bounded := s.(maxValue := max);
      if s.value.None? || s.value.value > max then UpdateNativeValue(e, bounded, max)
      else Step(bounded, [])
  }

  /** Applying the same bound twice: the second application changes nothing,
      and writes nothing unless the bound lies below the minimum (then it
      repeats the write of the minimum). */
  lemma AddressUpdatedIdempotent(e: Entity, s: NumberState, cache: RegisterCache)
    requires Valid(e)
    ensures var first := AddressUpdated(e, s, cache);
      var second := AddressUpdated(e, first.state, cache);
      && second.state == first.state
      && (first.state.value.Some? && first.state.value.value <= first.state.maxValue ==> second.events == [])
      && (Consistent(e, s) && ReadUnsigned(cache, e.maxValueAddress).Some? &&
          first.state.maxValue < e.description.nativeMinValue ==>
            Writes(second.events) == [Trunc(e.description.nativeMinValue / e.description.scale)])
  {
  }

  /** `async_added_to_hass`. `s` is the state when the restore data
      arrives. With restore data the stored maximum is adopted and the stored
      value is committed through the clamp, replacing whatever `s` held;
      without it the value is cleared. The bound update then runs, and the
      host is asked to refresh. */
  function AddedToHass(e: Entity, s: NumberState, restored: Option<StoredNumberData>, cache: RegisterCache): (r: Step)
    requires Valid(e)
    ensures Consistent(e, r.state)
    ensures |r.events| > 0 && r.events[|r.events| - 1] == StateRefreshScheduled
  {
    var first := Restore(e, s, restored);
    var second := AddressUpdated(e, first.state, cache);
    Step(second.state, first.events + second.events + [StateRefreshScheduled])
  }

  /** The restore half of attaching: adopt the stored maximum and commit the
      stored value, or clear the value when nothing was stored. */
  function Restore(e: Entity, s: NumberState, restored: Option<StoredNumberData>): (r: Step)
    requires Valid(e)
    ensures Consistent(e, r.state)
    ensures r.state.value.None? <==> restored.None?
    ensures restored.None? ==> r.state.maxValue == s.maxValue && r.events == []
    ensures restored.Some? ==>
      var data := restored.value;
      && r.state.maxValue == data.nativeMaxValue
      && r.state.value == Some(Clamp(e.description.nativeMinValue, data.nativeMaxValue, data.nativeValue))
      && Writes(r.events) == [Trunc(r.state.value.value / e.description.scale)]
  {
    match restored
    case Some(data) => UpdateNativeValue(e, s.(maxValue := data.nativeMaxValue), data.nativeValue)
    case None => Step(s.(value := None), [])
  }

  /** Attaching ends in the state the bound update leaves after the restore. */
  lemma AttachIsBoundUpdateAfterRestore(e: Entity, s: NumberState, restored: Option<StoredNumberData>, cache: RegisterCache)
    requires Valid(e)
    ensures AddedToHass(e, s, restored, cache).state == AddressUpdated(e, Restore(e, s, restored).state, cache).state
  {
  }

  /** A reading below the value, or any reading when there is no value,
      reseeds the value from the scaled reading. */
  lemma AddressUpdatedReseeds(e: Entity, s: NumberState, cache: RegisterCache)
    requires Valid(e)
    requires e.maxValueAddress in cache
    requires s.value.None? || s.value.value > cache[e.maxValueAddress] as real * e.description.scale
    ensures var max := cache[e.maxValueAddress] as real * e.description.scale;
      AddressUpdated(e, s, cache).state.value ==
        Some(if e.description.nativeMinValue <= max then max else e.description.nativeMinValue)
  {
    var max := cache[e.maxValueAddress] as real * e.description.scale;
    assert ReadUnsigned(cache, e.maxValueAddress) == Some(cache[e.maxValueAddress]);
    var reseeded := UpdateNativeValue(e, s.(maxValue := max), max);
    assert AddressUpdated(e, s, cache) == reseeded;
    assert reseeded.state.value == Some(Clamp(e.description.nativeMinValue, max, max));
  }

  /** A reading becomes the maximum, and leaves a value within it. */
  lemma AddressUpdatedAdoptsReading(e: Entity, s: NumberState, cache: RegisterCache)
    requires Valid(e)
    requires e.maxValueAddress in cache
    ensures var r := AddressUpdated(e, s, cache);
      var max := cache[e.maxValueAddress] as real * e.description.scale;
      && r.state.maxValue == max
      && r.state.value.Some?
      && (e.description.nativeMinValue <= max ==> r.state.value.value <= max)
  {
    AddressUpdatedSetsMax(e, s, cache);
    if s.value.None? || s.value.value > cache[e.maxValueAddress] as real * e.description.scale {
      AddressUpdatedReseeds(e, s, cache);
    } else {
      AddressUpdatedKeepsAdmitted(e, s, cache);
    }
  }

  /** A reading becomes the maximum. */
  lemma AddressUpdatedSetsMax(e: Entity, s: NumberState, cache: RegisterCache)
    requires Valid(e)
    requires e.maxValueAddress in cache
    ensures AddressUpdated(e, s, cache).state.maxValue == cache[e.maxValueAddress] as real * e.description.scale
  {
    assert ReadUnsigned(cache, e.maxValueAddress) == Some(cache[e.maxValueAddress]);
  }

  /** A reading at or above the value leaves the value as it is. */
  lemma AddressUpdatedKeepsAdmitted(e: Entity, s: NumberState, cache: RegisterCache)
    requires Valid(e)
    requires e.maxValueAddress in cache
    requires s.value.Some? && s.value.value <= cache[e.maxValueAddress] as real * e.description.scale
    ensures AddressUpdated(e, s, cache).state.value == s.value
  {
    assert ReadUnsigned(cache, e.maxValueAddress) == Some(cache[e.maxValueAddress]);
  }

  /** Once the bound register has data, attaching ends with the live bound,
      overriding the restored one, and a value within it. */
  lemma AddedToHassAdoptsLiveBound(e: Entity, s: NumberState, restored: Option<StoredNumberData>, cache: RegisterCache)
    requires Valid(e)
    requires e.maxValueAddress in cache
    ensures var r := AddedToHass(e, s, restored, cache);
      var max := cache[e.maxValueAddress] as real * e.description.scale;
      && r.state.maxValue == max
      && r.state.value.Some?
      && (e.description.nativeMinValue <= max ==> r.state.value.value <= max)
  {
    AttachIsBoundUpdateAfterRestore(e, s, restored, cache);
    AddressUpdatedAdoptsReading(e, Restore(e, s, restored).state, cache);
  }

  /** Without data for the bound register, attaching leaves the restored
      maximum (or the previous one) and has a value exactly when one was
      restored. */
  lemma AddedToHassWithoutBound(e: Entity, s: NumberState, restored: Option<StoredNumberData>, cache: RegisterCache)
    requires Valid(e)
    requires e.maxValueAddress !in cache
    ensures var r := AddedToHass(e, s, restored, cache);
      && r.state.maxValue == (if restored.Some? then restored.value.nativeMaxValue else s.maxValue)
      && (r.state.value.None? <==> restored.None?)
      && (restored.Some? ==> r.state.value == Some(Clamp(e.description.nativeMinValue,
                                                        restored.value.nativeMaxValue, restored.value.nativeValue)))
  {
  }

  /** A fresh install opens fully: with nothing restored, the value becomes
      the live maximum (or the minimum above it). */
  lemma AddedToHassFreshOpensFully(e: Entity, s: NumberState, cache: RegisterCache)
    requires Valid(e)
    requires e.maxValueAddress in cache
    ensures var max := cache[e.maxValueAddress] as real * e.description.scale;
      AddedToHass(e, s, None, cache).state.value ==
        Some(if e.description.nativeMinValue <= max then max else e.description.nativeMinValue)
  {
    AttachIsBoundUpdateAfterRestore(e, s, None, cache);
    AddressUpdatedReseeds(e, Restore(e, s, None).state, cache);
  }

  /** With restore data the first write is the restored value clamped to the
      restored bounds. */
  lemma AddedToHassReplaysRestoredValue(e: Entity, s: NumberState, data: StoredNumberData, cache: RegisterCache)
    requires Valid(e)
    ensures var r := AddedToHass(e, s, Some(data), cache);
      var kept := Clamp(e.description.nativeMinValue, data.nativeMaxValue, data.nativeValue);
      && |Writes(r.events)| > 0
      && Writes(r.events)[0] == Trunc(kept / e.description.scale)
  {
    var first := Restore(e, s, Some(data));
    var second := AddressUpdated(e, first.state, cache);
    var kept := Clamp(e.description.nativeMinValue, data.nativeMaxValue, data.nativeValue);
    assert first.state.value == Some(kept);
    assert Writes(first.events) == [Trunc(kept / e.description.scale)];
    WritesAppend(first.events, second.events);
    WritesAppend(first.events + second.events, [StateRefreshScheduled]);
    assert Writes(AddedToHass(e, s, Some(data), cache).events)
        == [Trunc(kept / e.description.scale)] + Writes(second.events) + Writes([StateRefreshScheduled]);
  }

  /** The restored value survives attaching when the live bound admits it. */
  lemma AddedToHassKeepsAdmittedValue(e: Entity, s: NumberState, data: StoredNumberData, cache: RegisterCache)
    requires Valid(e)
    requires e.maxValueAddress in cache
    requires Clamp(e.description.nativeMinValue, data.nativeMaxValue, data.nativeValue)
             <= cache[e.maxValueAddress] as real * e.description.scale
    ensures AddedToHass(e, s, Some(data), cache).state.value ==
              Some(Clamp(e.description.nativeMinValue, data.nativeMaxValue, data.nativeValue))
  {
    AttachIsBoundUpdateAfterRestore(e, s, Some(data), cache);
    AddressUpdatedKeepsAdmitted(e, Restore(e, s, Some(data)).state, cache);
  }

  /** A live bound below the restored value clamps it down: the value ends
      at the live maximum (or the minimum, when the maximum lies below it). */
  lemma AddedToHassClampsRestoredValue(e: Entity, s: NumberState, data: StoredNumberData, cache: RegisterCache)
    requires Valid(e)
    requires e.maxValueAddress in cache
    requires cache[e.maxValueAddress] as real * e.description.scale
             < Clamp(e.description.nativeMinValue, data.nativeMaxValue, data.nativeValue)
    ensures var max := cache[e.maxValueAddress] as real * e.description.scale;
      AddedToHass(e, s, Some(data), cache).state.value ==
        Some(if e.description.nativeMinValue <= max then max else e.description.nativeMinValue)
  {
    AttachIsBoundUpdateAfterRestore(e, s, Some(data), cache);
    AddressUpdatedReseeds(e, Restore(e, s, Some(data)).state, cache);
  }

  /** What can happen to a live entity, in arrival order. */
  datatype Input =
    | BoundRegisterChanged(cache: RegisterCache)
    | UserSetValue(requested: real)

  function Apply(e: Entity, s: NumberState, input: Input): (r: Step)
    requires Valid(e)
    ensures Consistent(e, s) ==> Consistent(e, r.state)
    ensures input.UserSetValue? ==> |Writes(r.events)| == 1 && r.state.maxValue == s.maxValue
  {
    match input
    case BoundRegisterChanged(cache) => AddressUpdated(e, s, cache)
    case UserSetValue(requested) => SetNativeValue(e, s, requested)
  }

  /** Applies the inputs in order, collecting every event. */
  function Run(e: Entity, s: NumberState, inputs: seq<Input>): (r: Step)
    requires Valid(e)
    ensures Consistent(e, s) ==> Consistent(e, r.state)
    decreases |inputs|
  {
    if |inputs| == 0 then Step(s, [])
    else
      var before := Run(e, s, inputs[..|inputs| - 1]);
      var last := Apply(e, before.state, inputs[|inputs| - 1]);
      Step(last.state, before.events + last.events)
  }

  /** The maximum after a run of inputs, defined independently: the scaled
      reading of the last bound change that found data, or the starting
      maximum when there was none. */
  function LastObservedMax(e: Entity, start: real, inputs: seq<Input>): real
    decreases |inputs|
  {
    if |inputs| == 0 then start
    else
      var earlier := LastObservedMax(e, start, inputs[..|inputs| - 1]);
      match inputs[|inputs| - 1]
      case UserSetValue(_) => earlier
      case BoundRegisterChanged(cache) =>
        match ReadUnsigned(cache, e.maxValueAddress)
        case Some(raw) => raw as real * e.description.scale
        case None => earlier
  }

  /** The last bound that was read wins; user requests never move it. */
  lemma {:induction false} RunMaxIsLastObserved(e: Entity, s: NumberState, inputs: seq<Input>)
    requires Valid(e)
    ensures Run(e, s, inputs).state.maxValue == LastObservedMax(e, s.maxValue, inputs)
    decreases |inputs|
  {
    if |inputs| > 0 {
      RunMaxIsLastObserved(e, s, inputs[..|inputs| - 1]);
    }
  }

  function CountUserSets(inputs: seq<Input>): nat
    decreases |inputs|
  {
    if |inputs| == 0 then 0
    else CountUserSets(inputs[..|inputs| - 1]) + (if inputs[|inputs| - 1].UserSetValue? then 1 else 0)
  }

  /** Every user request reaches the setter: a run writes at least once per
      request. */
  lemma {:induction false} RunWritesEveryUserSet(e: Entity, s: NumberState, inputs: seq<Input>)
    requires Valid(e)
    ensures |Writes(Run(e, s, inputs).events)| >= CountUserSets(inputs)
    decreases |inputs|
  {
    if |inputs| > 0 {
      var before := Run(e, s, inputs[..|inputs| - 1]);
      var last := Apply(e, before.state, inputs[|inputs| - 1]);
      RunWritesEveryUserSet(e, s, inputs[..|inputs| - 1]);
      WritesAppend(before.events, last.events);
    }
  }

  /** The raw value written is within one scale step of the committed value,
      rounded toward zero. */
  lemma WriteWithinOneStep(value: real, scale: real)
    requires 0.0 < scale
    ensures var raw := Trunc(value / scale) as real * scale;
      && (0.0 <= value ==> raw <= value < raw + scale)
      && (value < 0.0 ==> raw - scale < value <= raw)
  {
    var q := value / scale;
    QuotientTimesScale(value, scale);
    var n := Trunc(q) as real;
    if 0.0 <= value {
      assert 0.0 <= q by {
        if q < 0.0 {
          ScaleStrictlyMonotone(q, 0.0, scale);
        }
      }
      StepAbove(n, q, scale, value);
    } else {
      assert q < 0.0 by {
        if 0.0 <= q {
          ScaleMonotone(0.0, q, scale);
        }
      }
      StepBelow(n, q, scale, value);
    }
  }

  lemma QuotientTimesScale(value: real, scale: real)
    requires 0.0 < scale
    ensures (value / scale) * scale == value
  {
  }

  /** `n <= q < n + 1` scales to `n * scale <= q * scale < n * scale + scale`. */
  lemma StepAbove(n: real, q: real, scale: real, value: real)
    requires n <= q < n + 1.0 && 0.0 < scale && q * scale == value
    ensures n * scale <= value < n * scale + scale
  {
    var f := q - n;
    FractionOfScale(f, scale);
    assert f * scale < scale;
    assert q * scale == n * scale + f * scale;
    assert value == n * scale + f * scale;
    assert value < n * scale + scale;
  }

  /** `n - 1 < q <= n` scales to `n * scale - scale < q * scale <= n * scale`. */
  lemma StepBelow(n: real, q: real, scale: real, value: real)
    requires n - 1.0 < q <= n && 0.0 < scale && q * scale == value
    ensures n * scale - scale < value <= n * scale
  {
    var f := n - q;
    FractionOfScale(f, scale);
    assert f * scale < scale;
    assert q * scale == n * scale - f * scale;
    assert value == n * scale - f * scale;
    assert n * scale - scale < value;
  }

  /** A fraction of a positive scale is less than the scale itself. */
  lemma FractionOfScale(a: real, scale: real)
    requires 0.0 <= a < 1.0 && 0.0 < scale
    ensures 0.0 <= a * scale < scale
  {
    ScaleMonotone(0.0, a, scale);
    ScaleStrictlyMonotone(a, 1.0, scale);
  }

  lemma ScaleMonotone(a: real, b: real, scale: real)
    requires a <= b && 0.0 < scale
    ensures a * scale <= b * scale
  {
    assert b * scale - a * scale == (b - a) * scale;
  }

  lemma ScaleStrictlyMonotone(a: real, b: real, scale: real)
    requires a < b && 0.0 < scale
    ensures a * scale < b * scale
  {
    assert b * scale - a * scale == (b - a) * scale;
  }

  /** A discharge limit bounded by a register reading 500 at scale 1 with
      minimum 0: the value starts fully open at 500; requests of 700 and -10
      are committed as 500 and 0 and written as such. */
  lemma DischargeLimitScenario(d: Description, address: Address)
    requires d.scale == 1.0 && d.nativeMinValue == 0.0
    ensures var e := Entity(d, address);
      var attached := AddedToHass(e, Initial(e), None, map[address := 500]);
      var high := SetNativeValue(e, attached.state, 700.0);
      var low := SetNativeValue(e, high.state, -10.0);
      && attached.state == NumberState(Some(500.0), 500.0)
      && high.state.value == Some(500.0) && Writes(high.events) == [500]
      && low.state.value == Some(0.0) && Writes(low.events) == [0]
  {
  }
}
