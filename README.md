# MIDI keyboard to key-press translation engine, in Dafny

This project models the core of a program that turns a MIDI keyboard into a
computer keyboard. The program keeps twelve logical key slots. Each incoming
note is mapped to one slot, under one of two layouts:

- a chromatic layout (`layoutMode == 1`), where the slot is `note % 12`;
- a split white/black layout (any other mode), where `(note % 12) / 2` goes to
  slots 0..5 below `keyboardCutPoint` and to slots 6..11 at or above it.

Every slot keeps an overlap counter. A note-on increments it and a note-off
decrements it. The counters are C# `byte`s, so both updates wrap modulo 256.
A sustain-pedal controller is run through a trigger policy (push, release or
both edges) with a 50 ms debounce into a latch. A periodic synchronizer compares
the counters with a shadow copy and emits Hold and Release actions. It also
turns the pedal latch into a Hold-then-Release pulse on the pedal key. After the
input stream stops, a reset zeroes the counters.

Layout of the project:

- `midi_types.dfy` (module `MidiTypes`): bytes, note numbers, key codes, the
  decoded event type `MidiEvent`, the emitted `Action`
  (`Hold(key)` / `Release(key)`) and the configuration record `Config` with
  its default values.
- `layout.dfy` (`Layout`): the note-to-slot mapping `MapNote` and its
  properties.
- `byte_counter.dfy` (`ByteCounter`): unchecked byte `++` and `--`.
- `pedal_trigger.dfy` (`PedalTrigger`): the trigger policy, the debounce and
  the latch step.
- `engine_spec.dfy` (`EngineSpec`): the whole engine as a state machine over
  values. `Ingest` handles one event at time `now` (ms). `Tick` is one
  synchronizer pass that returns the new state and the emitted actions.
  `Reset` is the reconnect reset.
- `interfacer.dfy` (`Interfacer`): class `Engine`, holding the two byte arrays
  `keyCounter` and `oldKeyCounter` and the pedal fields, all updated in place.
  Its methods `MessageReceived`, `SyncTick` and `ResetCounters` are proved to
  produce exactly the state (and actions) that `EngineSpec` prescribes.
- `engine_properties.dfy` (`EngineProperties`): lemmas about the state machine.

Three behaviours of the code are easy to misread, and the model keeps them as written:

- The guard `keyCounter[x] < 0` (Program.cs:274) looks like a clamp. On a
  `byte` it never holds, so a note-off on a zero counter wraps it to 255
  (`ByteCounter.DecWrapsAtZero`). The next tick then holds the slot's key
  (`EngineProperties.StrayNoteOffHoldsKey`). Every tick holds it while the
  counter stays positive (`EngineProperties.TickActionsCharacterized`). Once a
  tick has held the key, one note-on of that slot brings the counter to 0 and
  the next tick releases it (`EngineProperties.StrayNoteOffInvertsKey`). Overlap
  counting fails from 255 too: two notes pressed and one released leave the slot
  idle (`EngineProperties.SharedSlotOverlapFailsAt255`).
- `HoldKey` is called on every tick while the counter is positive
  (Program.cs:562-565). Only Release is gated by the shadow comparison
  (`EngineProperties.SecondTickOnlyHolds`).
- The reconnect reset (Program.cs:239-245) zeroes `keyCounter` only. The
  shadow, the latch, `lastPedal` and both pedal values survive
  (`EngineProperties.ResetThenTick`).

Time is an integer number of milliseconds, passed to `Ingest` and
`MessageReceived` as `now`. Key codes are plain 16-bit numbers. Lemmas that
speak about "the key of slot i" in the emitted actions assume the configured key
codes are pairwise distinct. Only the 13 codes that are read are compared.
`MidiTypes.DefaultConfig` proves that this holds for the default key set.

## Model

| member | source | states |
|---|---|---|
| `MidiTypes.DefaultConfig` | Program.cs:30-55 | the default configuration has 13 pairwise distinct key codes, the split layout and both pedal edges enabled |
| `Layout.MapNote` | Program.cs:268-320 | under either layout, every note number maps to a slot in 0..11 |
| `Layout.ChromaticSlot` | Program.cs:347-349 | in chromatic mode a note's slot is its pitch class `n % 12`, independent of the cut point |
| `Layout.ChromaticSameSlotIff` | Program.cs:268-270 | in chromatic mode two notes share a slot if and only if they share a pitch class |
| `Layout.ChromaticOnto` | Program.cs:268-270 | in chromatic mode every slot 0..11 is reached by a note of every complete octave |
| `Layout.SplitLowerSlot` | Program.cs:294-296 | in split mode a note below the cut point maps to `(n % 12) / 2`, a slot in 0..5 |
| `Layout.SplitUpperSlot` | Program.cs:318-320 | in split mode a note at or above the cut point maps to `6 + (n % 12) / 2`, a slot in 6..11 |
| `Layout.SplitSidesDisjoint` | Program.cs:294-320 | in split mode a note below the cut point never shares a slot with a note at or above it |
| `Layout.SplitPairShares` | Program.cs:377-407 | in split mode an even pitch class and the next one share a slot when both notes lie on the same side of the cut |
| `Layout.SplitExamples` | Program.cs:377-407 | with cut point 64, notes 60 and 61 map to slot 0 and note 65 to slot 8 |
| `ByteCounter.Inc` | Program.cs:350-354 | a note-on adds one to a byte counter, and 255 wraps to 0 |
| `ByteCounter.Dec` | Program.cs:271-275 | a note-off subtracts one from a byte counter, and 0 wraps to 255 |
| `ByteCounter.DecWrapsAtZero` | Program.cs:273-274 | the clamp guard cannot fire on a byte: a note-off on an idle counter yields 255 |
| `ByteCounter.IncDecInverse` | Program.cs:297-300 | increment and decrement undo each other, wrap-around included |
| `PedalTrigger.OnPedalValue` | Program.cs:440-542 | after a pedal-controller event, both `pedalValue` and `oldPedalValue` hold the new value, whether or not it triggered |
| `PedalTrigger.Triggers` | Program.cs:443-511 | the trigger-policy table (both flags: any change; push only: a rise; release only: a fall; neither: never); the contract states that it fires only on a change and never with both flags off |
| `PedalTrigger.Accepts` | Program.cs:447-451 | an accepted trigger needs a clear latch, more than 50 ms since the last trigger, and a changed value |
| `PedalTrigger.TriggerNeedsChange` | Program.cs:443-511 | every trigger policy fires only when the controller value actually changed |
| `PedalTrigger.BothEdgesIsUnion` | Program.cs:443-511 | with both flags the policy is the union of push-only (old < new) and release-only (old > new); those two are mirror images; with neither flag the pedal never triggers |
| `PedalTrigger.LatchSetIff` | Program.cs:449-455 | the latch goes from clear to set iff the policy fires, the latch was clear and more than 50 ms passed since the last trigger; it then records `now`, and otherwise the latch and its timestamp are unchanged |
| `PedalTrigger.WithinDebounceNoTrigger` | Program.cs:451 | no event within 50 ms of the last accepted trigger changes the latch or its timestamp |
| `EngineSpec.Initial` | Program.cs:11-24 | the start-up state is a well-formed state of twelve counters and twelve shadows |
| `EngineSpec.Ingest` | Program.cs:250-552 | ingesting any event yields a well-formed state |
| `EngineSpec.Tick` | Program.cs:558-581 | a synchronizer tick yields a well-formed state |
| `EngineSpec.Reset` | Program.cs:239-245 | the reset yields a well-formed state |
| `EngineSpec.SlotActions` | Program.cs:562-573 | one iteration of the tick loop emits at most one action |
| `EngineSpec.SyncActions` | Program.cs:560-574 | the loop over the first n slots emits at most n actions |
| `EngineSpec.PedalPulse` | Program.cs:575-581 | when latched, exactly two actions on the pedal key, Hold then Release; otherwise none |
| `EngineProperties.SlotActionsRule` | Program.cs:562-573 | in one iteration of the tick loop the slot's key is held if and only if the counter is positive (and then only held), and released if and only if the counter is zero and differs from the shadow |
| `EngineProperties.SyncActionsAtMostOnePerSlot` | Program.cs:560-574 | each slot contributes at most one action to a pass, so a pass has at most one action per slot; with distinct key codes no slot's key is both held and released in one pass |
| `EngineProperties.SyncActionsContainSlot` | Program.cs:560-574 | every action due for slot i appears among the tick's slot actions |
| `EngineProperties.SyncActionsMembership` | Program.cs:560-574 | with distinct keys, slot i's key is held iff its counter is positive, and released iff the counter differs from the shadow and is zero |
| `EngineProperties.SyncActionsInSyncOnlyHold` | Program.cs:566-573 | when the shadow equals the counters, the slot pass emits no Release |
| `EngineProperties.SyncActionsSingleSlot` | Program.cs:560-574 | when all other slots are idle in both arrays, the pass emits only that slot's action |
| `EngineProperties.TickSingleSlot` | Program.cs:558-581 | a tick of a state where only one slot may be busy and the latch is clear emits only that slot's action |
| `EngineProperties.TickSynchronizes` | Program.cs:560-581 | after a tick the shadow equals the counters and the latch is clear, with the counters and other pedal fields untouched |
| `EngineProperties.TickActionsCharacterized` | Program.cs:558-581 | with distinct keys, the Hold and Release rule for each of slots 0..11; if latched, the tick ends with Hold then Release of the pedal key; otherwise the pedal key is not touched |
| `EngineProperties.SecondTickOnlyHolds` | Program.cs:560-581 | a second tick with no events in between releases nothing and pulses no pedal, still holds every slot with a positive counter, and leaves the state as it was |
| `EngineProperties.ResetThenTick` | Program.cs:239-245 | the reset zeroes the counters and keeps the shadow and the pedal state; the next tick releases exactly the slots whose shadow was non-zero and holds none |
| `EngineProperties.NoteTouchesOnlyItsSlot` | Program.cs:264-434 | a note event steps only its own slot's counter, modulo 256; the other counters, the shadow and the pedal state are unchanged |
| `EngineProperties.OtherEventsIgnored` | Program.cs:438-440 | a control change on another controller, or an event that is neither a note nor a control change, changes nothing |
| `EngineProperties.PedalEventEffect` | Program.cs:440-542 | a pedal event leaves the counters alone, stores the value as the previous one, and sets the latch exactly on an accepted trigger |
| `EngineProperties.SharedSlotOverlap` | Program.cs:377-411 | for two notes sharing a slot whose counter is below 255 (so that it does not wrap), pressing both and releasing one leaves the slot active with the counter one higher; releasing the other restores the whole state |
| `EngineProperties.SharedSlotOverlapFailsAt255` | Program.cs:350-354 | from a counter of 255, pressing two notes of a slot and releasing one leaves the counter at 0 while a note is still down |
| `EngineProperties.SplitOverlapExample` | Program.cs:377-411 | under the default split layout, notes 60 and 61 keep slot 0 active until both are released |
| `EngineProperties.StrayNoteOffHoldsKey` | Program.cs:271-274 | a note-off on an idle slot sets its counter to 255, and the next tick holds that slot's key |
| `EngineProperties.StrayNoteOffInvertsKey` | Program.cs:345-354 | once a stray note-off has been synchronized, a note-on of that slot brings its counter back to 0 and the next tick releases the slot's key (and, with distinct keys, does not hold it) |
| `EngineProperties.NoteOnOffEndToEnd` | Program.cs:345-354 | from start-up, a note-on makes the next tick emit exactly one Hold of its slot's key; after the note-off the next tick emits exactly one Release; a further tick emits nothing |
| `EngineProperties.DebounceCollapsesTriggers` | Program.cs:449-455 | two pedal changes within 50 ms give at most one trigger, even if a tick cleared the latch in between |
| `Interfacer.Engine.constructor` | Program.cs:11-24 | a new engine has zeroed arrays, a clear latch, zero pedal values and the start time as last trigger |
| `Interfacer.Engine.MessageReceived` | Program.cs:250-552 | the in-place handler updates the arrays and fields to exactly `Ingest` of the old state |
| `Interfacer.Engine.LatchPedal` | Program.cs:447-456 | sets the latch and timestamp when the latch is clear and more than 50 ms passed, and otherwise changes nothing |
| `Interfacer.Engine.SyncTick` | Program.cs:558-581 | the in-place synchronizer loop returns exactly the actions of `Tick` and leaves exactly its state |
| `Interfacer.Engine.ResetCounters` | Program.cs:239-245 | the in-place reset loop leaves exactly the state of `Reset` |

## Left out

- Console output and colouring (the banner, the event echo and error messages) is presentation only.
- Device enumeration and selection, the `MidiIn` lifecycle, the liveness watchdog and the reconnect loop are I/O against the MIDI library and timer threads. Only the reset after a stream ends is kept.
- Locks, `Task.Run` and the asynchronous delays are concurrency: each event and each tick is one atomic sequential step. The reconnect loop starting a further synchronizer loop on every connection is not modelled. The unawaited 3 ms delay inside the pedal pulse has no effect and the 5 ms tick period is timing, so neither is modelled.
- The key-simulation calls (`HoldKey`, `ReleaseKey`) are foreign OS input; they become the emitted `Hold` and `Release` values, in emission order.
- Configuration load and save, retries with random back-off, the log file and XML serialisation are file I/O and randomness. The configuration is an immutable parameter. `MidiTypes.ValidConfig` requires at least 13 key codes; only the first 13 are ever read. The case of fewer than 13 codes is not modelled. In the source it fails on the first tick that has to hold or release a slot without a code, or pulse the pedal. Before that, the note handler updates the counter and then throws an index error while echoing the key code, which it catches.
- Decoding of the MIDI library's event classes is left out. Events arrive pre-decoded as `MidiEvent`. Note numbers are 0..127, so the truncating `%` and `/` of C# agree with Dafny's. Velocity is only displayed and is dropped.
- The wall clock is replaced by an integer millisecond argument `now`. The source compares `DateTime` values at a finer resolution.
- `EngineProperties.SyncActionsMembership`, `EngineProperties.TickActionsCharacterized` and `EngineProperties.ResetThenTick` state their per-key rules only for configurations with pairwise distinct key codes. With shared codes, one key's actions cannot be told apart by value. `EngineProperties.SyncActionsContainSlot` covers the general case in one direction.
