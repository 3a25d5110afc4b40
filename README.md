# Kaleidoscope-Chord: the chord-resolution state machine

Kaleidoscope-Chord lets a keyboard user press several keys together (a *chord*) to
produce one other key. The plugin sits in the firmware's key-event pipeline. Each
fresh key press is held in a small buffer while the held keys could still grow into
a chord. Once the buffer matches a chord exactly and no longer chord can still be
completed, the press continues downstream with the chord's output key. Once no chord can be completed any more — by a release, a
press that fits no chord, or a timeout — the buffer is either resolved into the
chord it matches or replayed key by key, in order ("arpeggiated").

This project models `Chord.cpp` as a Dafny class and proves its behaviour against
pure specifications:

- `events.dfy` (module `Events`): keys, key events and the rewrite that changes an
  event's key but keeps its location, state and identity.
- `chord_table.dfy` (module `ChordTable`): the flat chord table. A table is a
  sequence of trigger keys, `NoKey`, and the output key, repeated for every chord.
  The module gives the per-entry scans (`TriggerCount`, `Scan`, `InChordAt`) and a
  structured view (`Decode`, with its inverse `Encode`). The round trip is proved in
  both directions.
- `matching.dfy` (module `Matching`): exact matching with first match winning
  (`FirstMatch`), and the strict-superset test (`SomeStrictSuperset`). Each entry
  step of the plugin's table walk is proved against them.
- `chord.dfy` (module `ChordPlugin`): class `Chord`. It holds the constant table,
  the buffer as an `array` with its live count, the two timestamps, the two
  configured durations, and the log of events sent downstream.
  - Every table scan is a `while` loop proved against the functions above.
  - Every state-changing handler states its whole new state.
  - `Pending()` is an invariant the handlers preserve: a non-empty buffer can still
    grow into some chord.
- `scenarios.dfy` (module `Scenarios`): concrete tables.
  - A held chord prefix waits for more keys.
  - The earlier of two duplicate definitions wins.
  - A non-matching buffer is replayed in order.
  - Two clients of the class (`TimeoutForcing`, `ChordResolves`) drive it through a
    timeout and through a completed chord.

The model follows the code in these places:

- **The key that breaks a chord attempt** (Chord.cpp:64-68). The event is removed
  from the buffer, and the events buffered before it are resolved or replayed. The
  handler then returns `OK` (Chord.cpp:67). One might expect the breaking press to be
  held back, but it continues downstream after the replayed events (`FinishPress`,
  the `target == NoKey` case).
- **The full buffer**. If the buffer is full, the append is a no-op (Chord.cpp:55,
  206-211). The constructor establishes `Pending()` and every handler preserves it,
  so a full buffer is always still pending. A press that reaches it is therefore
  held back with `ABORT` (Chord.cpp:57-59) without being stored: the code really
  drops that press (`Chord.FullBufferHoldsBack`). This happens when some chord has
  more triggers than `kMaxChordSize`. The model also follows the code's other
  branches on a full buffer, which no reachable state takes:
  - with no chord matching, the decrement at Chord.cpp:65 would remove the
    previously buffered last event;
  - with an exact match, Chord.cpp:70-73 would empty the buffer and rewrite the
    press.

  `ProcessPress` uses `old(Appended(event))`, which is the unchanged buffer when it
  is full. `Chord.PendingNotFull` shows that the buffer is never full while it is
  pending and every chord has at most `kMaxChordSize` triggers. Under that
  condition the key-switch handlers promise that no event is dropped (the
  predicate `Accounted`):
  - a held-back press sits at the end of the buffer;
  - any other event continues downstream with its own location, state and identity,
    and the events buffered before it stay buffered, are sent ahead of it (in order,
    or resolved into one event carrying the last one's identity), or are folded
    with the press into the one chord event it continues as.
- **The loop bound of `inChord`** (Chord.cpp:132) tests the start `index`, not the
  moving position. Once started, the scan stops only at a `NoKey` or at the key.
  `InChord` therefore requires `ScanTerminatesAt`. The other operations require the
  table to be `WellFormed`, which provides that.

Outside collaborators are inputs:

- the event tracker's verdict is a `shouldIgnore` flag;
- `Runtime.millisAtCycleStart` and `Runtime.hasTimeExpired` form a `Clock` value
  with an uninterpreted expiry test;
- `keyToggledOn`, `Key::isKeyboardModifier` and `Key::isLayerShift` are
  uninterpreted functions in `KeyPredicates`;
- `Runtime.handleKeyEvent` appends to the `emitted` log.

## Model

| member | source | states |
|---|---|---|
| Events.Rewrite | plugins/Kaleidoscope-Chord/src/kaleidoscope/plugin/Chord.cpp:126-127 | the restored event keeps the location, state and id of the original and carries the new key |
| ChordTable.TriggerCount | plugins/Kaleidoscope-Chord/src/kaleidoscope/plugin/Chord.cpp:168-180 | the entry size counts only non-`NoKey` keys, stops at the first `NoKey`, and never reaches the table's last position |
| ChordTable.ScanUpTo | plugins/Kaleidoscope-Chord/src/kaleidoscope/plugin/Chord.cpp:131-142 | once started, the `inChord` scan is true exactly when the key occurs before the first `NoKey` |
| ChordTable.InChordIffTrigger | plugins/Kaleidoscope-Chord/src/kaleidoscope/plugin/Chord.cpp:131-142 | at the start of a well-formed entry, `inChord` stays in bounds and is true exactly when the key is one of that entry's triggers |
| ChordTable.TriggerCountOfEntry | plugins/Kaleidoscope-Chord/src/kaleidoscope/plugin/Chord.cpp:168-180 | `chordSize` at an encoded entry is the number of its triggers |
| ChordTable.DecodeEncode | plugins/Kaleidoscope-Chord/src/kaleidoscope/plugin/Chord.cpp:194-204 | a list of valid chord definitions, laid out as triggers, `NoKey` and output, reads back as the same list |
| ChordTable.EncodeDecode | plugins/Kaleidoscope-Chord/src/kaleidoscope/plugin/Chord.cpp:194-204 | a well-formed table is exactly the layout of its decoded definitions, and each of them has at least one trigger and no `NoKey` trigger |
| ChordTable.DecodeHead | plugins/Kaleidoscope-Chord/src/kaleidoscope/plugin/Chord.cpp:194-204 | the first entry of a well-formed table spans `cs` triggers, the `NoKey` at `cs` and the output at `cs + 1`, and the walk's step `c += cs + 2` lands on the rest |
| Matching.FirstMatchWins | plugins/Kaleidoscope-Chord/src/kaleidoscope/plugin/Chord.cpp:194-204 | the first exact entry in table order decides the result, whatever follows it |
| Matching.FirstMatchNone | plugins/Kaleidoscope-Chord/src/kaleidoscope/plugin/Chord.cpp:194-204 | with no exact entry the result is `NoKey` |
| Matching.FirstMatchFound | plugins/Kaleidoscope-Chord/src/kaleidoscope/plugin/Chord.cpp:194-204 | a result other than `NoKey` is the output of an exact entry with no exact entry before it |
| Matching.FirstMatchNeedsKeys | plugins/Kaleidoscope-Chord/src/kaleidoscope/plugin/Chord.cpp:182-192 | an empty buffer matches no entry of a well-formed table |
| Matching.FirstMatchCons | plugins/Kaleidoscope-Chord/src/kaleidoscope/plugin/Chord.cpp:194-204 | matching a table with a known first entry takes that entry's output when it is exact and goes on with the rest otherwise |
| Matching.SomeStrictSupersetIff | plugins/Kaleidoscope-Chord/src/kaleidoscope/plugin/Chord.cpp:144-154 | the table walk finds a strict superset exactly when some entry has more triggers than the buffer and contains every buffered key |
| Matching.SomeStrictSupersetCons | plugins/Kaleidoscope-Chord/src/kaleidoscope/plugin/Chord.cpp:144-154 | the strict-superset search over a table with a known first entry is that entry's test or the search over the rest |
| Matching.EntryMatch | plugins/Kaleidoscope-Chord/src/kaleidoscope/plugin/Chord.cpp:182-192 | at a well-formed entry, `chordSize` is the number of its triggers and the per-key `inChord` tests amount to containment of the buffer in its triggers |
| Matching.FirstMatchStep | plugins/Kaleidoscope-Chord/src/kaleidoscope/plugin/Chord.cpp:194-204 | one step of `getChord`'s walk: the entry's `isChord` test decides with the key at `c + cs + 1`, otherwise the answer is that of the table from `c + cs + 2`, which is well-formed again |
| Matching.SomeStrictSupersetStep | plugins/Kaleidoscope-Chord/src/kaleidoscope/plugin/Chord.cpp:144-154 | one step of `isChordStrictSubset`'s walk: the answer is the entry's `isChordStrictSubsetOf` test or the answer for the table from `c + cs + 2` |
| Matching.StrictSupersetBoundsKeys | plugins/Kaleidoscope-Chord/src/kaleidoscope/plugin/Chord.cpp:156-166 | a buffer with a strict superset in a table whose chords have at most `cap` triggers holds fewer than `cap` keys |
| ChordPlugin.ReplayResolves | plugins/Kaleidoscope-Chord/src/kaleidoscope/plugin/Chord.cpp:111-129 | a buffer whose first exact chord has a real output is replaced by one event: the last buffered event with that output key |
| ChordPlugin.ReplayArpeggiates | plugins/Kaleidoscope-Chord/src/kaleidoscope/plugin/Chord.cpp:111-118 | a buffer that matches no chord is replayed as it is, in buffer order |
| ChordPlugin.Chord.FullBufferHoldsBack | plugins/Kaleidoscope-Chord/src/kaleidoscope/plugin/Chord.cpp:55-59 | a full buffer that is pending stays as it is when the press is appended, and it still has a strict superset, so the press is held back without being stored |
| ChordPlugin.Chord.PendingNotFull | plugins/Kaleidoscope-Chord/src/kaleidoscope/plugin/Chord.cpp:206-211 | while the buffer is pending and every chord fits in it, it is never full, so `appendEvent` always stores the press |
| ChordPlugin.Chord.constructor | plugins/Kaleidoscope-Chord/src/kaleidoscope/plugin/Chord.cpp:225 | a new instance has an empty buffer, zero timestamps, an empty output log and the given table, capacity and durations |
| ChordPlugin.Chord.OnKeyswitchEvent | plugins/Kaleidoscope-Chord/src/kaleidoscope/plugin/Chord.cpp:36-74 | an ignored event changes nothing. A release resolves or replays the buffer. A press with an empty buffer inside the quiet interval changes nothing. Any other press is buffered and then held back (`ABORT`, `start_time_` set), rewritten to the chord's output with the buffer emptied, or passed on after the earlier buffered events are resolved or replayed. `ABORT` is returned exactly when the extended buffer is a strict subset of a chord. `Pending()` is preserved. While the buffer is pending and every chord fits, `Accounted` holds: no event is dropped |
| ChordPlugin.Chord.OnPress | plugins/Kaleidoscope-Chord/src/kaleidoscope/plugin/Chord.cpp:46-74 | a fresh press with an empty buffer inside the quiet interval changes nothing. Otherwise, with an empty buffer, a key not expected before a chord sets the prior-keypress timestamp to the cycle start, and the press is then buffered and decided as in `ProcessPress`. `Pending()` is preserved, and while the buffer is pending and every chord fits, `Accounted` holds |
| ChordPlugin.Chord.ProcessPress | plugins/Kaleidoscope-Chord/src/kaleidoscope/plugin/Chord.cpp:55-73 | after buffering the press: the strict-subset case holds the event back; the exact case rewrites only its key and empties the buffer; otherwise the last buffered event is removed, the rest is resolved or replayed, and the press passes on. The array changes only at the appended slot, `Pending()` holds afterwards, and if the buffer was pending and every chord fits, the press and every earlier buffered event are accounted for (`Accounted`) |
| ChordPlugin.Chord.FinishPress | plugins/Kaleidoscope-Chord/src/kaleidoscope/plugin/Chord.cpp:62-73 | with no chord matching the buffer, its last event is removed, the rest is resolved or replayed, and the press passes on unchanged; with a chord matching, the buffer is emptied without output, the prior timestamp is reset and the press carries the chord's output. The buffer is empty afterwards |
| ChordPlugin.Chord.AfterEachCycle | plugins/Kaleidoscope-Chord/src/kaleidoscope/plugin/Chord.cpp:76-88 | a non-empty buffer whose timeout expired is resolved or replayed; otherwise it is untouched. The prior-keypress timestamp is reset when that resolution matched a chord or its own interval expired, and `Pending()` is preserved. An expired buffer goes downstream as its `Replay`, so nothing buffered is lost |
| ChordPlugin.Chord.SetTimeout | plugins/Kaleidoscope-Chord/src/kaleidoscope/plugin/Chord.cpp:90-92 | only the timeout changes, to the given value |
| ChordPlugin.Chord.SetMinimumPriorInterval | plugins/Kaleidoscope-Chord/src/kaleidoscope/plugin/Chord.cpp:94-96 | only the minimum prior interval changes, to the given value |
| ChordPlugin.Chord.IsExpectedBeforeChord | plugins/Kaleidoscope-Chord/src/kaleidoscope/plugin/Chord.cpp:98-105 | modifiers, layer shifts, Space, Escape, Tab and the four arrows are expected before a chord, and no other key is |
| ChordPlugin.Chord.ResetPriorKeypressTimestamp | plugins/Kaleidoscope-Chord/src/kaleidoscope/plugin/Chord.cpp:107-109 | only the prior-keypress timestamp changes, to one past the quiet interval before the cycle start |
| ChordPlugin.Chord.ResolveOrArpeggiate | plugins/Kaleidoscope-Chord/src/kaleidoscope/plugin/Chord.cpp:111-118 | the buffer is emptied, the log grows by the buffer's replay, and the prior timestamp is reset exactly when a chord matched |
| ChordPlugin.Chord.Resolve | plugins/Kaleidoscope-Chord/src/kaleidoscope/plugin/Chord.cpp:120-129 | one event is emitted: the last buffered event's location, state and id with the target key; the buffer is emptied and the prior timestamp reset |
| ChordPlugin.Chord.HandleKeyEvent | plugins/Kaleidoscope-Chord/src/kaleidoscope/plugin/Chord.cpp:128 | the event is sent downstream after every event sent before it |
| ChordPlugin.Chord.InChord | plugins/Kaleidoscope-Chord/src/kaleidoscope/plugin/Chord.cpp:131-142 | the loop computes `InChordAt`: false when the start is at or past the last position, else whether the key comes before the next `NoKey` |
| ChordPlugin.Chord.IsChordStrictSubset | plugins/Kaleidoscope-Chord/src/kaleidoscope/plugin/Chord.cpp:144-154 | true exactly when some chord of the table strictly contains the buffered keys; nothing changes |
| ChordPlugin.Chord.IsChordStrictSubsetOf | plugins/Kaleidoscope-Chord/src/kaleidoscope/plugin/Chord.cpp:156-166 | true exactly when `cs` exceeds the buffer count and `inChord` finds every buffered key at `c` |
| ChordPlugin.Chord.ChordSize | plugins/Kaleidoscope-Chord/src/kaleidoscope/plugin/Chord.cpp:168-180 | the loop returns the entry size `TriggerCount` at `index`, and 0 past the end of the table |
| ChordPlugin.Chord.IsChord | plugins/Kaleidoscope-Chord/src/kaleidoscope/plugin/Chord.cpp:182-192 | true exactly when `cs` equals the buffer count and `inChord` finds every buffered key at `c` |
| ChordPlugin.Chord.GetChord | plugins/Kaleidoscope-Chord/src/kaleidoscope/plugin/Chord.cpp:194-204 | the output key of the first chord in table order matching the buffered keys exactly, or `NoKey`; nothing changes |
| ChordPlugin.Chord.AppendEvent | plugins/Kaleidoscope-Chord/src/kaleidoscope/plugin/Chord.cpp:206-211 | below capacity the event is stored at the count and the count grows by one; at capacity nothing changes; the count never exceeds the capacity |
| ChordPlugin.Chord.Arpeggiate | plugins/Kaleidoscope-Chord/src/kaleidoscope/plugin/Chord.cpp:213-221 | the buffered events are emitted unchanged, in buffer order, and the buffer is emptied |
| Scenarios.SubsetWaiting | plugins/Kaleidoscope-Chord/src/kaleidoscope/plugin/Chord.cpp:144-204 | with chords {A,B} and {A,B,C}, held A and held A,B still wait, A,B,C gives the second output, and B,A gives the first |
| Scenarios.ExactMatchPrecedence | plugins/Kaleidoscope-Chord/src/kaleidoscope/plugin/Chord.cpp:194-204 | of two chords with the same triggers the earlier one wins, whatever the order the keys were pressed in |
| Scenarios.ArpeggiateOrdering | plugins/Kaleidoscope-Chord/src/kaleidoscope/plugin/Chord.cpp:144-221 | with chord {A,B,C,D}, held A, A,B and A,B,C all still wait (so the buffer A,B,C is reachable), and A,B,C matches no chord and is replayed as A,B,C |
| Scenarios.PairVerdicts | plugins/Kaleidoscope-Chord/src/kaleidoscope/plugin/Chord.cpp:144-204 | with chord {A,B}, held A waits and does not match, and held A,B matches and no longer waits |

## Left out

- plugins/KeyboardioHID/src/HID.h: the USB HID descriptors are transport plumbing with no behaviour in the chord logic.
- The event tracker behind `event_tracker_.shouldIgnore` (Chord.cpp:37) is an outside collaborator; the model takes its verdict as the `shouldIgnore` input.
- `Runtime.handleKeyEvent` (Chord.cpp:128, 218) re-enters the event pipeline in the firmware; the model records the events in the `emitted` log and does not model the re-entry.
- `Runtime.millisAtCycleStart` and `Runtime.hasTimeExpired` (Chord.cpp:47, 77, 83, 108): the clock is a `Clock` input with an uninterpreted expiry test, and timestamps are unbounded integers, so wrap-around of the firmware's fixed-width timestamps is not modelled.
- The 8-bit counters `c`, `cs`, `i`, `index` and `size` (Chord.cpp:131-204) are unbounded naturals; tables of 256 keys or more, where they would wrap, are not modelled.
- `cloneFromProgmem` and PROGMEM storage (Chord.cpp:133, 172, 199) are plain sequence indexing.
- `Key::isKeyboardModifier`, `Key::isLayerShift` (Chord.cpp:99-100) and `keyToggledOn` (Chord.cpp:41) are uninterpreted; keyswitch_state.h and key_defs.h are not part of this model.
- Chord.h is not part of this model. `kMaxChordSize` is a constructor parameter that must be positive, because with capacity 0 the buffer is always full. With a non-empty table the empty buffer always has a strict superset, so every press returns `ABORT` and is discarded; with an empty table the decrement at Chord.cpp:65 would wrap. The configured table, timeout and interval are also constructor parameters, and the initial timestamps are taken as 0.
- The table is required to be well-formed: every entry has at least one trigger, a `NoKey` and an output inside the table. On other tables the loops of `inChord` and `getChord` can read past the end; the model does not cover that.
- The global instance at Chord.cpp:225 is modelled only as a constructor call; the Arduino headers are left out.
