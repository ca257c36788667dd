# Level-control reverse configuration, modelled in Dafny

This project models `ZclLevelReverseConfig` from the openHAB Zigbee binding.
That class is the per-channel configuration handler that lets an operator
invert the commands exchanged with a level-control channel. A typical use is
a window covering whose motor treats 100 % as closed rather than open.

The handler has four parts, and each one is modelled:

- **Inverters** (`inverter.dfy`, module `Inverter`). There are four functions:
  ON/OFF, UP/DOWN, boolean and percent. ON/OFF and UP/DOWN are closed
  two-value datatypes.
- **Configuration state and construction** (`handler.dfy`, module
  `LevelReverse`). `Handler` holds the two inversion flags and the
  reporting-change threshold. `Load` is the constructor. It reads the two
  namespaced keys from the channel's configuration, and an absent key keeps
  the default `false`. The accessors `shouldInvertOnOff`, `shouldInvertPercent`
  and `getReportingChange` are the plain field reads `ShouldInvertOnOff`,
  `ShouldInvertPercent` and `GetReportingChange`. The lemmas state their
  properties in terms of them.
- **Parameter catalogue** (`parameters.dfy`, module `Parameters`). This module
  holds the namespace `zigbee_levelreverse_`, the two keys and their defaults,
  and `GetConfiguration`, the fixed two-entry list of boolean descriptors.
- **Update protocol** (`handler.dfy`; lemmas in `update_lemmas.dfy`, module
  `UpdateLemmas`):
  - `ApplyEntry` handles one entry of the change map.
  - `ApplyEntries` is the loop over the entries.
  - `UpdateConfiguration` is `updateConfiguration`.
  - `UpdateSpec` is an order-free reference definition of what an update does.
    `UpdateConfiguration` is proved equal to it.

Other modelling choices:

- **Values.** Configuration values are modelled as `Value = Null | BoolValue |
  OtherValue` (`values.dfy`, module `Values`), and Java's `Objects.equals` is
  datatype equality. A key missing from the snapshot reads as `null`, as
  `Configuration.get` returns it.
- **Casts.** The source casts a value to `Boolean` and unboxes it into a
  primitive `boolean`. A non-boolean value makes it throw: `null` gives a
  NullPointerException and any other object a ClassCastException. The model
  treats both as an error result (`Result.Failure` with a `Fault`), not as a
  precondition.
- **Iteration order.** `HashMap` visits its entries in an unspecified order.
  `UpdateConfiguration` therefore takes that order as a parameter (`order`,
  which lists each key of the change map exactly once). `OrderIrrelevant`
  proves that on success the handler and the result do not depend on it.
  When the update throws, which exception comes out can depend on it; see
  `FaultDependsOnOrder`.
- **What "updated" means.** The handler decides whether an entry "changed" by
  comparing it with the snapshot passed in, not with its own flags. The model
  keeps this. The result is easily read as "a flag actually changed", but the
  code does not promise that, and the model follows the code:
  - `ReportsDifferenceFromSnapshot` and `ReportsAbsentKeySetToDefault` show
    updates that report `true` while no flag moves.
  - `UpdatedIffFlagMoved` proves that the two readings agree when the handler
    was loaded from a snapshot that holds both keys.
  - `ChangedFlagIsReported` proves the direction that always holds: no flag
    ever moves without being reported.

## Model

| member | source | states |
|---|---|---|
| `Values.Unbox` | org.openhab.binding.zigbee/src/main/java/org/openhab/binding/zigbee/internal/converter/config/ZclLevelReverseConfig.java:104-112 | the cast-and-unbox succeeds exactly on a Boolean and yields its value; `null` throws NullPointerException, any other object ClassCastException |
| `Inverter.InvertOnOff` | org.openhab.binding.zigbee/src/main/java/org/openhab/binding/zigbee/internal/converter/config/ZclLevelReverseConfig.java:127-135 | the result is never the input, and it is OFF exactly when the input is ON |
| `Inverter.InvertUpDown` | org.openhab.binding.zigbee/src/main/java/org/openhab/binding/zigbee/internal/converter/config/ZclLevelReverseConfig.java:142-150 | the result is never the input, and it is DOWN exactly when the input is UP |
| `Inverter.InvertBool` | org.openhab.binding.zigbee/src/main/java/org/openhab/binding/zigbee/internal/converter/config/ZclLevelReverseConfig.java:157-165 | the result is the logical negation of the input |
| `Inverter.InvertPercent` | org.openhab.binding.zigbee/src/main/java/org/openhab/binding/zigbee/internal/converter/config/ZclLevelReverseConfig.java:172-176 | for a percent in [0, 100] the result stays in [0, 100], and input and result add up to full scale |
| `Inverter.InvertersAreInvolutions` | org.openhab.binding.zigbee/src/main/java/org/openhab/binding/zigbee/internal/converter/config/ZclLevelReverseConfig.java:127-176 | applying any of the four inverters twice gives back the input, for the percent inverter on whole percents |
| `Inverter.InvertPercentReversesScale` | org.openhab.binding.zigbee/src/main/java/org/openhab/binding/zigbee/internal/converter/config/ZclLevelReverseConfig.java:172-176 | 0 and 100 swap, 50 is the only fixed point, and the inverter reverses the order of positions |
| `Parameters.RecognisedKeysInNamespace` | org.openhab.binding.zigbee/src/main/java/org/openhab/binding/zigbee/internal/converter/config/ZclLevelReverseConfig.java:45-47 | both recognised keys start with the namespace `zigbee_levelreverse_` and are longer than it |
| `Parameters.GetConfiguration` | org.openhab.binding.zigbee/src/main/java/org/openhab/binding/zigbee/internal/converter/config/ZclLevelReverseConfig.java:69-86 | exactly two descriptors: the on/off key first, then the percent key, both boolean-typed with default `"false"`; the function takes no handler, so no flag influences it |
| `Parameters.CatalogueCoversRecognisedKeys` | org.openhab.binding.zigbee/src/main/java/org/openhab/binding/zigbee/internal/converter/config/ZclLevelReverseConfig.java:73-112 | the catalogue's two names are distinct, lie in the namespace, and are exactly the keys the update protocol acts on |
| `LevelReverse.ShouldInvertOnOff` | org.openhab.binding.zigbee/src/main/java/org/openhab/binding/zigbee/internal/converter/config/ZclLevelReverseConfig.java:183-185 | the read of the on/off flag; its value after construction is stated by `LevelReverse.Load` and after an update by `LevelReverse.UpdateConfiguration` |
| `LevelReverse.ShouldInvertPercent` | org.openhab.binding.zigbee/src/main/java/org/openhab/binding/zigbee/internal/converter/config/ZclLevelReverseConfig.java:192-194 | the read of the percent flag; its value after construction is stated by `LevelReverse.Load` and after an update by `LevelReverse.UpdateConfiguration` |
| `LevelReverse.GetReportingChange` | org.openhab.binding.zigbee/src/main/java/org/openhab/binding/zigbee/internal/converter/config/ZclLevelReverseConfig.java:201-203 | the read of the reporting-change threshold; `UpdateLemmas.ReportingChangeAlwaysOne` states that it is always 1 |
| `LevelReverse.Initialize` | org.openhab.binding.zigbee/src/main/java/org/openhab/binding/zigbee/internal/converter/config/ZclLevelReverseConfig.java:63-66 | initialisation always succeeds |
| `LevelReverse.Load` | org.openhab.binding.zigbee/src/main/java/org/openhab/binding/zigbee/internal/converter/config/ZclLevelReverseConfig.java:42-61 | construction succeeds exactly when each present recognised key holds a boolean; each flag is its own key's value, or `false` when the key is absent; the threshold is 1; a bad on/off value throws before the percent key is read |
| `LevelReverse.LoadWithoutKeys` | org.openhab.binding.zigbee/src/main/java/org/openhab/binding/zigbee/internal/converter/config/ZclLevelReverseConfig.java:42-60 | a configuration holding neither key gives both flags `false` and threshold 1 |
| `LevelReverse.LoadIgnoresOtherKeys` | org.openhab.binding.zigbee/src/main/java/org/openhab/binding/zigbee/internal/converter/config/ZclLevelReverseConfig.java:53-61 | an entry under any other key does not change what the constructor produces |
| `LevelReverse.CatalogueDefaultsMatchLoad` | org.openhab.binding.zigbee/src/main/java/org/openhab/binding/zigbee/internal/converter/config/ZclLevelReverseConfig.java:42-83 | the catalogue's default texts are the flags a handler built from an empty configuration holds |
| `LevelReverse.ApplyEntryEffect` | org.openhab.binding.zigbee/src/main/java/org/openhab/binding/zigbee/internal/converter/config/ZclLevelReverseConfig.java:94-116 | one entry changes a flag or the result only when it is a recognised key that differs from the snapshot, and then only its own flag; a non-boolean such entry throws |
| `LevelReverse.ApplyEntriesEffect` | org.openhab.binding.zigbee/src/main/java/org/openhab/binding/zigbee/internal/converter/config/ZclLevelReverseConfig.java:92-119 | after the loop over any list of entries, each flag holds the value of its own changed entry among them, the result is the accumulated flag or any such entry, and a failure comes from a changed non-boolean recognised entry |
| `LevelReverse.UpdateConfiguration` | org.openhab.binding.zigbee/src/main/java/org/openhab/binding/zigbee/internal/converter/config/ZclLevelReverseConfig.java:88-120 | for any visiting order, the update succeeds exactly when the order-free reference `UpdateSpec` does, and then yields the same handler and result; a failure is the exception of a changed non-boolean recognised entry |
| `UpdateLemmas.UpdateWithoutEffect` | org.openhab.binding.zigbee/src/main/java/org/openhab/binding/zigbee/internal/converter/config/ZclLevelReverseConfig.java:92-102 | when every entry is outside the namespace or equal to the snapshot (including the empty change set), the result is `false` and both flags stay |
| `UpdateLemmas.OnOffChangeApplied` | org.openhab.binding.zigbee/src/main/java/org/openhab/binding/zigbee/internal/converter/config/ZclLevelReverseConfig.java:97-108 | a boolean on/off entry that differs from the snapshot sets the on/off flag to it and returns `true`; when the percent entry is absent or equal to the snapshot, the percent flag is untouched |
| `UpdateLemmas.PercentChangeApplied` | org.openhab.binding.zigbee/src/main/java/org/openhab/binding/zigbee/internal/converter/config/ZclLevelReverseConfig.java:97-112 | a boolean percent entry that differs from the snapshot sets the percent flag to it and returns `true`; when the on/off entry is absent or equal to the snapshot, the on/off flag is untouched |
| `UpdateLemmas.NonBooleanChangeThrows` | org.openhab.binding.zigbee/src/main/java/org/openhab/binding/zigbee/internal/converter/config/ZclLevelReverseConfig.java:104-112 | a recognised entry that differs from the snapshot and is not a boolean makes the update throw |
| `UpdateLemmas.OtherKeysIrrelevant` | org.openhab.binding.zigbee/src/main/java/org/openhab/binding/zigbee/internal/converter/config/ZclLevelReverseConfig.java:93-116 | adding an entry under any unrecognised key, whether inside the namespace or outside it, changes neither the success, the flags nor the result |
| `UpdateLemmas.OrderIrrelevant` | org.openhab.binding.zigbee/src/main/java/org/openhab/binding/zigbee/internal/converter/config/ZclLevelReverseConfig.java:93-117 | any two visiting orders of the same change map agree on whether the update succeeds, and on success on the flags and the result |
| `UpdateLemmas.ChangedFlagIsReported` | org.openhab.binding.zigbee/src/main/java/org/openhab/binding/zigbee/internal/converter/config/ZclLevelReverseConfig.java:92-119 | a flag that moved is always reported, and a `false` result means the handler is unchanged |
| `UpdateLemmas.ReportsDifferenceFromSnapshot` | org.openhab.binding.zigbee/src/main/java/org/openhab/binding/zigbee/internal/converter/config/ZclLevelReverseConfig.java:97-108 | the comparison is against the snapshot: for any handler and any snapshot without the on/off key, setting that key to the flag's current value reports an update though nothing moves |
| `UpdateLemmas.FaultDependsOnOrder` | org.openhab.binding.zigbee/src/main/java/org/openhab/binding/zigbee/internal/converter/config/ZclLevelReverseConfig.java:93-112 | with two changed, ill-typed recognised entries, one visiting order throws NullPointerException and the other ClassCastException |
| `UpdateLemmas.ReportsAbsentKeySetToDefault` | org.openhab.binding.zigbee/src/main/java/org/openhab/binding/zigbee/internal/converter/config/ZclLevelReverseConfig.java:97-112 | even for a handler loaded from the snapshot, a key absent from the snapshot set to its default is reported as updated with no flag moving |
| `UpdateLemmas.UpdatedIffFlagMoved` | org.openhab.binding.zigbee/src/main/java/org/openhab/binding/zigbee/internal/converter/config/ZclLevelReverseConfig.java:89-119 | for a handler loaded from a snapshot holding both keys, the result is `true` exactly when a flag moved |
| `UpdateLemmas.UpdateAgreesWithReload` | org.openhab.binding.zigbee/src/main/java/org/openhab/binding/zigbee/internal/converter/config/ZclLevelReverseConfig.java:53-120 | updating a handler loaded from the snapshot gives the handler a fresh load of the snapshot overwritten by the changes gives |
| `UpdateLemmas.ReplayKeepsReportingChange` | org.openhab.binding.zigbee/src/main/java/org/openhab/binding/zigbee/internal/converter/config/ZclLevelReverseConfig.java:88-120 | no sequence of updates writes the reporting-change threshold |
| `UpdateLemmas.ReportingChangeAlwaysOne` | org.openhab.binding.zigbee/src/main/java/org/openhab/binding/zigbee/internal/converter/config/ZclLevelReverseConfig.java:201-203 | `getReportingChange` returns 1 after construction and after any sequence of updates |

## Left out

- Logging (`logger.debug`, `logger.warn`) is left out: it has no effect on the state or the result.
- The openHAB and Zigbee library types are not modelled as such. `Channel`, `Configuration` and the change map are a plain `map<string, Value>`. `ZclCluster` is dropped from `Initialize`, because the source ignores it.
- Descriptors keep the key, the type, the label and the default. The long description text is left out because it is UI text only.
- `PercentType` internals are left out: its decimal representation, `intValue()` truncation of fractional percents, and the range check in its constructor. A percent is an `int`, and `InvertPercent` requires it to be in [0, 100].
- Inverter.InvertersAreInvolutions: holds for whole percents only. Because of the truncation, the source's percent inverter is not an involution on fractional percents: 33.5 becomes 67, and 67 becomes 33.
- A `null` command passed to the ON/OFF or UP/DOWN inverter is left out. The source would map it to ON or UP; the datatypes are closed, so the model has no such input.
- A `null` key in the change map is left out. `startsWith` would throw on it; keys are non-null strings here.
- Ill-typed updates: on a failing cast, the source has already applied the entries visited before the exception, so the object is left partly updated. That state depends on the iteration order. A `Failure` carries no handler, and the model does not describe that state.
- UpdateLemmas.OrderIrrelevant: covers successful updates only. When two changed recognised entries are both ill-typed, which exception is thrown depends on the iteration order, like the partial state (`FaultDependsOnOrder`).
- `Configuration`'s own normalisation of stored values (for example, numbers to `BigDecimal`) is not part of this model. Values are compared exactly as given.
