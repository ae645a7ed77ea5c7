# FoxESS Modbus: remote-control numbers and the H1/AC1 register tables

A Dafny model of two parts of the FoxESS Modbus integration for Home Assistant.

**The remote-control-bound number entity.** This is a writable number whose upper bound is itself an inverter register. Every committed value is clamped with `max(native_min_value, min(native_max_value, v))`, which gives `native_min_value` when the maximum lies below the minimum. It is then divided by the description's scale, truncated toward zero, and handed to the remote-control manager's value setter. A new reading of the bound register moves the maximum. The value is reseeded from the new maximum when it is absent or above it. On attach, restore data from the previous session is replayed through the same clamp, and then the bound update runs. The model is in `remote_control_number.dfy`:
- the entity's mutable attributes are a `NumberState`;
- every operation is a pure function returning the new state and the events it issued, which are setter calls with their raw integers and state-refresh requests;
- `Run` chains bound changes and user requests, and preserves the clamp invariant `Consistent`.

**The H1 / AC1 / H1_AC1 description tables.** These declare each register-backed sensor, integration sensor, select and number. `xx1_aux_tables.dfy` transcribes them as immutable records. The `post_process` lambdas become the closed set of tags in `entity_descriptions.dfy`:
- `PositivePart` is `v if v > 0 else 0`;
- `NegativeMagnitude` is `abs(v) if v < 0 else 0`.

The proofs cover several table properties:
- the split of a signed register into two non-negative halves is lossless;
- every declared `Range` is well formed;
- the registers commented as overflowing are exactly the unvalidated sensors;
- integration sensors name sensors defined in the tables;
- keys and registers are shared only by the back-compat sensor/number pairs and by split views of one register.

`numeric.dfy` defines `Trunc`, which is Python's `int()` on a real (truncation toward zero), and `Clamp`, which is `max(lo, min(hi, v))`. `wrappers.dfy` defines `Option`.

Scaled values are exact reals. The scales 1, 0.1, 0.01 and 0.001 are exact, so no float rounding is modelled. A sensor description without an explicit `scale` is given scale 1.

On attach the stored value is not adopted verbatim. It is committed through `_update_native_value`, so it is clamped to the stored maximum and written to the setter.

Attach does not check whether a bound was already observed:
- With restore data it overwrites both the value and the maximum, and then re-reads the bound register.
- Without restore data it only clears the value and keeps the maximum.

`AddedToHass` therefore takes whatever state the entity had when the restore data arrived.

## Model

| member | source | states |
|---|---|---|
| Numeric.Trunc | custom_components/foxess_modbus/entities/modbus_remote_control_number.py:118 | `int()` of a real truncates toward zero: for `x >= 0` the result is the greatest integer not above `x`; for negative `x` it is the least integer not below `x` |
| Numeric.TruncIsOdd | custom_components/foxess_modbus/entities/modbus_remote_control_number.py:118 | truncation is symmetric: `int(-x) == -int(x)` |
| Numeric.TruncTowardZero | custom_components/foxess_modbus/entities/modbus_remote_control_number.py:118 | the truncated value is never farther from zero than `x`, and agrees with floor on integers |
| Numeric.Clamp | custom_components/foxess_modbus/entities/modbus_remote_control_number.py:111-114 | `max(lo, min(hi, v))`: never below `lo`; at most `hi` when `lo <= hi`; `v` itself inside the interval; `hi` above it; `lo` below it or when the interval is empty |
| Numeric.ClampIdempotent | custom_components/foxess_modbus/entities/modbus_remote_control_number.py:111-114 | clamping a clamped value changes nothing |
| RemoteControlNumber.CreateEntityIfSupported | custom_components/foxess_modbus/entities/modbus_remote_control_number.py:41-51 | an entity is created exactly when the model/register-type lookup yields an address; it keeps the description, and its `addresses` is exactly `[that address]` |
| RemoteControlNumber.Initial | custom_components/foxess_modbus/entities/modbus_remote_control_number.py:57-75 | a freshly constructed entity has no value and the maximum its description configures, which satisfies the clamp invariant `Consistent` |
| RemoteControlNumber.Addresses | custom_components/foxess_modbus/entities/modbus_remote_control_number.py:123-125 | the entity lists exactly one register, the one carrying its maximum |
| RemoteControlNumber.AddressUpdatedReadsOnlyAddresses | custom_components/foxess_modbus/entities/modbus_remote_control_number.py:123-125 | the register the entity lists is the only one its bound update reads: caches that agree there give the same outcome |
| RemoteControlNumber.UpdateNativeValue | custom_components/foxess_modbus/entities/modbus_remote_control_number.py:108-121 | stores the clamp of the request: the request inside `[min, max]`, `max` above it, `min` below it or when `max < min`; the maximum is untouched; exactly one setter call, with `int(stored / scale)` of the stored value, then a refresh |
| RemoteControlNumber.SetNativeValue | custom_components/foxess_modbus/entities/modbus_remote_control_number.py:96-97 | a user request leaves the maximum alone, yields a consistent value, writes exactly the truncated stored value once, and keeps an in-range request unchanged |
| RemoteControlNumber.AddressUpdated | custom_components/foxess_modbus/entities/modbus_remote_control_number.py:99-106 | a read with no data changes nothing and issues nothing; a reading `r` sets `max = r * scale`; the value is reseeded from the clamped new max (one write of it) exactly when it was absent or above the new max, otherwise value unchanged and no events; consistency is preserved |
| RemoteControlNumber.AddressUpdatedIdempotent | custom_components/foxess_modbus/entities/modbus_remote_control_number.py:99-106 | a second bound update with the same reading leaves the state unchanged, issues nothing when the value is within the maximum, and, from a consistent start, re-issues the write of `min` when the maximum lies below the minimum |
| RemoteControlNumber.AddedToHass | custom_components/foxess_modbus/entities/modbus_remote_control_number.py:77-90 | after attach the value is consistent with the bounds, and the last event is a state refresh |
| RemoteControlNumber.Restore | custom_components/foxess_modbus/entities/modbus_remote_control_number.py:81-86 | with restore data, the stored maximum is adopted, the value becomes the stored value clamped to it, and exactly that value is written once (truncated by the scale); without restore data, the value is cleared, the maximum is kept and nothing is written |
| RemoteControlNumber.AddressUpdatedReseeds | custom_components/foxess_modbus/entities/modbus_remote_control_number.py:103-106 | proof step for the attach lemmas, one case of `AddressUpdated`: a reading below the value, or any reading when there is no value, sets the value to the scaled reading (or to the minimum when the reading lies below it) |
| RemoteControlNumber.AddressUpdatedSetsMax | custom_components/foxess_modbus/entities/modbus_remote_control_number.py:101-104 | proof step for the attach lemmas, one case of `AddressUpdated`: a reading `r` makes the maximum `r * scale` |
| RemoteControlNumber.AddressUpdatedKeepsAdmitted | custom_components/foxess_modbus/entities/modbus_remote_control_number.py:105-106 | proof step for the attach lemmas, one case of `AddressUpdated`: a reading at or above the value leaves the value as it is |
| RemoteControlNumber.AddressUpdatedAdoptsReading | custom_components/foxess_modbus/entities/modbus_remote_control_number.py:101-106 | proof step for the attach lemmas, combining the cases of `AddressUpdated`: after a reading the maximum is `r * scale`, a value is present, and it lies within the maximum when `min <= max` |
| RemoteControlNumber.AddedToHassAdoptsLiveBound | custom_components/foxess_modbus/entities/modbus_remote_control_number.py:81-89 | with a live bound reading, the final maximum is `r * scale` whatever was restored, a value is present, and it is at most the maximum when `min <= max` |
| RemoteControlNumber.AddedToHassWithoutBound | custom_components/foxess_modbus/entities/modbus_remote_control_number.py:81-89 | without a bound reading, the final maximum is the restored one (or the previous one); a value exists exactly when one was restored, and then it is the restored value clamped to the restored maximum |
| RemoteControlNumber.AddedToHassFreshOpensFully | custom_components/foxess_modbus/entities/modbus_remote_control_number.py:85-89 | with nothing restored and a live reading, the value becomes the clamped live maximum |
| RemoteControlNumber.AddedToHassReplaysRestoredValue | custom_components/foxess_modbus/entities/modbus_remote_control_number.py:82-84 | with restore data, the first setter call carries the restored value clamped to the restored maximum |
| RemoteControlNumber.AddedToHassKeepsAdmittedValue | custom_components/foxess_modbus/entities/modbus_remote_control_number.py:82-89 | a restored value that the live bound admits survives the bound update |
| RemoteControlNumber.AddedToHassClampsRestoredValue | custom_components/foxess_modbus/entities/modbus_remote_control_number.py:82-89 | a live bound below the clamped restored value pulls it down to the live maximum (or to the minimum when the maximum lies below it) |
| RemoteControlNumber.Apply | custom_components/foxess_modbus/entities/modbus_remote_control_number.py:96-106 | each input preserves consistency; a user request writes exactly once and never moves the maximum |
| RemoteControlNumber.Run | custom_components/foxess_modbus/entities/modbus_remote_control_number.py:96-106 | any sequence of bound changes and user requests preserves consistency |
| RemoteControlNumber.RunMaxIsLastObserved | custom_components/foxess_modbus/entities/modbus_remote_control_number.py:101-104 | after a run, the maximum is the scaled reading of the last bound change that found data (or the starting maximum) |
| RemoteControlNumber.RunWritesEveryUserSet | custom_components/foxess_modbus/entities/modbus_remote_control_number.py:96-119 | a run issues at least one setter call per user request |
| RemoteControlNumber.Writes | custom_components/foxess_modbus/entities/modbus_remote_control_number.py:119 | the raw integers handed to the setter: every one comes from a setter call in the event log, and every setter call in the log contributes its raw integer |
| RemoteControlNumber.WritesAppend | custom_components/foxess_modbus/entities/modbus_remote_control_number.py:119 | the writes of concatenated event logs are the concatenation of their writes |
| RemoteControlNumber.WriteWithinOneStep | custom_components/foxess_modbus/entities/modbus_remote_control_number.py:118 | for a positive scale, the raw integer times the scale lies within one scale step of the committed value, toward zero |
| RemoteControlNumber.DischargeLimitScenario | custom_components/foxess_modbus/entities/modbus_remote_control_number.py:77-121 | scale 1, min 0, bound reading 500: a fresh attach opens to 500; requests of 700 and -10 commit and write 500 and 0 |
| EntityDescriptions.RegisterOf | custom_components/foxess_modbus/entities/xx1_aux_entity_descriptions.py:53-63 | a description has no register exactly when it is an integration sensor |
| EntityDescriptions.ApplyPostProcess | custom_components/foxess_modbus/entities/xx1_aux_entity_descriptions.py:300-321 | the discharge transform is `v` for `v > 0` and 0 otherwise; the charge transform is `-v` for `v < 0` and 0 otherwise; both are non-negative and nonzero exactly on their side |
| EntityDescriptions.SplitIsLossless | custom_components/foxess_modbus/entities/xx1_aux_entity_descriptions.py:300-321 | at most one half is nonzero, their difference is the signed value, their sum its magnitude |
| EntityDescriptions.SplitOfDifference | custom_components/foxess_modbus/entities/xx1_aux_entity_descriptions.py:362-393 | two non-negative halves with one zero are the split of their difference |
| EntityDescriptions.PostProcessCommutesWithScale | custom_components/foxess_modbus/entities/xx1_aux_entity_descriptions.py:300-321 | for a positive scale, applying a transform before or after scaling gives the same value |
| EntityDescriptions.Decode | custom_components/foxess_modbus/entities/xx1_aux_entity_descriptions.py:300-321 | an untransformed sensor reads `raw * scale`; a split sensor reads a non-negative value |
| EntityDescriptions.SplitSensorsRecombine | custom_components/foxess_modbus/entities/xx1_aux_entity_descriptions.py:362-393 | two split views of one register recombine into the scaled signed reading, and at most one is nonzero |
| Xx1AuxEntityDescriptions.TablesShareOnlyAsIntended | custom_components/foxess_modbus/entities/xx1_aux_entity_descriptions.py:22-645 | in each table, a key repeats only for a back-compat sensor and its number on one address, and a register is shared only by such a pair or by split views; in `H1_AC1` every repeated key is such a pair |
| Xx1AuxEntityDescriptions.H1RangesWellFormed | custom_components/foxess_modbus/entities/xx1_aux_entity_descriptions.py:22-277 | every `Range(lo, hi)` declared in `H1` has `lo <= hi`; `AC1` declares none |
| Xx1AuxEntityDescriptions.H1Ac1RangesWellFormed | custom_components/foxess_modbus/entities/xx1_aux_entity_descriptions.py:279-645 | every `Range(lo, hi)` declared in `H1_AC1` has `lo <= hi` |
| Xx1AuxEntityDescriptions.H1OverflowingSensorsUnvalidated | custom_components/foxess_modbus/entities/xx1_aux_entity_descriptions.py:186-218 | an `H1` sensor declares no validation exactly when its register is commented as overflowing |
| Xx1AuxEntityDescriptions.H1Ac1OverflowingSensorsUnvalidated | custom_components/foxess_modbus/entities/xx1_aux_entity_descriptions.py:560-569 | an `H1_AC1` sensor declares no validation exactly when its register is commented as overflowing |
| Xx1AuxEntityDescriptions.H1IntegrationSourcesDefined | custom_components/foxess_modbus/entities/xx1_aux_entity_descriptions.py:53-104 | every integration sensor of `H1` integrates a register-backed sensor of `H1` |
| Xx1AuxEntityDescriptions.AC1IntegrationSourcesDefined | custom_components/foxess_modbus/entities/xx1_aux_entity_descriptions.py:232-277 | `AC1` holds only integration sensors, each integrating a sensor of `H1_AC1` |
| Xx1AuxEntityDescriptions.H1Ac1IntegrationSourcesDefined | custom_components/foxess_modbus/entities/xx1_aux_entity_descriptions.py:414-424 | every integration sensor of `H1_AC1` integrates a register-backed sensor of `H1_AC1` |
| Xx1AuxEntityDescriptions.SplitRegisters | custom_components/foxess_modbus/entities/xx1_aux_entity_descriptions.py:300-393 | only registers 11008 and 11021 are post-processed, at scale 0.001; each is read through both halves, and 11021 also unsplit; `H1` transforms nothing |
| Xx1AuxEntityDescriptions.NumberBounds | custom_components/foxess_modbus/entities/xx1_aux_entity_descriptions.py:586-644 | every number is a box from 10 to 100 with step 1 |
| Xx1AuxEntityDescriptions.NumbersFollowTheirSensors | custom_components/foxess_modbus/entities/xx1_aux_entity_descriptions.py:576-644 | every number directly follows the back-compat sensor with its key and address |
| Xx1AuxEntityDescriptions.BatteryPowerSplit | custom_components/foxess_modbus/entities/xx1_aux_entity_descriptions.py:300-321 | a reading of -500 at 11008 is 0 kW discharging and 0.5 kW charging; discharge minus charge is the scaled reading for every raw value |
| Xx1AuxEntityDescriptions.GridPowerSplit | custom_components/foxess_modbus/entities/xx1_aux_entity_descriptions.py:362-393 | feed-in minus grid consumption is the unsplit grid CT reading, and one of them is zero |

## Left out

- Home Assistant lifecycle and UI plumbing are not modelled: the awaits, `entity_id`, names, units, icons and device classes. A state-refresh request is recorded as the `StateRefreshScheduled` event.
- The transport behind the controller's `read` is not modelled. A read is a lookup in a snapshot of the controller's unsigned register cache.
- The remote-control manager's internals are not modelled. A `value_setter` call is recorded as a `SetterCalled(raw)` event.
- CreateEntityIfSupported: assumes the controller has a remote-control manager. The constructor asserts this (`modbus_remote_control_number.py` line 74) and raises when it is missing; the model does not represent the controller, so it never fails there.
- `_address_for_inverter_model` and `InverterModelSpec` are not part of this model. Address resolution is a function parameter of `CreateEntityIfSupported`.
- The validator implementations (`validation.py`) and the sensor decode path (`modbus_sensor.py`) are not part of this model. Only the declared bounds are kept, and `Decode` applies scale and then transform. `PostProcessCommutesWithScale` shows that the order does not matter for positive scales.
- Integration sensors' Riemann-sum accumulation and `round_digits` are float numerics in code not part of this model. The integration descriptions keep only key and source.
- Select writes and invalid options (`modbus_select.py`) are not part of this model. `options_map` is data only.
- IEEE float effects of `raw * scale` and `value / scale` are not modelled: the model uses exact reals.
- The host's default number bounds (0 and 100) are not modelled. `nativeMinValue` and `nativeMaxValue` are whatever the description carries.
- A zero scale makes the source raise `ZeroDivisionError`. The model excludes it with the precondition `Valid`.
- Restore data without a value makes the source raise inside `min`. The model's `StoredNumberData` always carries one.
- The unsigned 16-bit width of the bound register is not modelled: any natural-number reading is allowed, which includes every 16-bit one.
