# A verified model of the keyboard firmware's input pipeline and storage

The firmware is a QMK derivative: a matrix scanner, debouncers, a tap/hold decision machine, layers and
modifiers, macros, a dynamic keymap in EEPROM, and, on the host side of the quantizer, a SLIP receiver, a HID
descriptor parser and a HID report parser. This project models their state machines in Dafny and proves what
they keep over whole runs.

Code that updates variables in place is modelled as classes with the same fields and loops. Each method is proved
equal to a function on values, and the properties over all runs are proved about those functions. The modules, by
source file:

| modules | source |
|---|---|
| TapRecords, Tapping, TappingOrder, TappingRuns, TappingDrains, TappingKeys, TapDecisions, TapCounts, TapMachine | quantum/action_tapping.c |
| MatrixBits, Debounce, SymDefer, SymDeferMatrix, SymEager, EagerMatrices, AsymDefer, AsymMatrix | quantum/debounce |
| KeyboardEvents, MatrixTask | quantum/keyboard.c |
| ActionCodes, KeycodeFormats, PlainKeycodes | quantum/action_code.h, quantum/keymap_common.c |
| WordSets, KeyActions, NothingSticks, WeakModifiers, LayerCache, ActionMachine | quantum/action.c, quantum/action_layer.c, quantum/action_util.c |
| KeyReport | tmk_core/common/report.c |
| EndToEnd | quantum/keyboard.c to quantum/action.c, together |
| EepromWrites, KeymapStore, KeymapBuffers, MacroText, StorageMachine | quantum/dynamic_keymap.c |
| ViaInit, CrashSafety | quantum/via.c |
| SendString, SendBytes | quantum/send_string.c |
| MacroRecording, MacroPassing, MacroRecorder | quantum/dynamic_macro.h |
| LinkedLists, HidPools, HidShape, HidLegal, HidDevices, HidContents, HidFields, HidIds, HidParser, HidMachine | keyboards/keyboard_quantizer/report_descriptor_parser.c |
| HidReports, ReportFields, MouseReports | keyboards/keyboard_quantizer/report_parser.c |
| Slip | keyboards/keyboard_quantizer/keyboard_quantizer.c |

Binary holds bytes and binary digits, which several of them use.

## What surrounds the model

- Tapping: `process_record` appends to a log. Whether a key is a tap key, whether a release is retained and how long
  the tapping term is are arbitrary functions of that log and the record (`TapRecords.Env`), because they depend on
  the layers, which depend on what was processed. Configuration as in keyboards/keyboard_quantizer/config.h:31-35.
  Event times are odd, so never 0, as keyboard_task makes them.
- Debouncers: the time is a parameter. True times are unbounded, the code sees them modulo 2^32, and two calls lie
  less than one timer range apart. `changed` is set whenever the raw matrix changed.
- Actions: the specification speaks of sets of modifiers, layers and key codes; actions, modifier bytes, layer words,
  the six bytes of the report and the bytes of the layer cache are machine words, read as such sets. There are 32
  layers.
- EndToEnd: any tap environment in which a key is a tap key only if some layer of the keymap has a tap action for it.
- Storage: one byte write is atomic. Sizes and addresses are symbolic, under the compile-time checks of the source.
- HID descriptors: the parser works on decoded items, in any order and nesting. It accepts a descriptor
  (`HidPools.Accepts`) if none of the Input items wastes a free slot and no collection with members is left open;
  these are exactly the descriptors that keep the pools well-shaped throughout (`HidShape.AcceptsExactly`).

## Findings

- The comment that sending a macro stays in the buffer (quantum/dynamic_keymap.c:232-233) does not hold: a
  region that ends in a null and holds exactly `id` nulls is read past its end. `MacroText.StaysInsideExactly` gives the
  exact condition.
- The "Buffer overflow" branch of the SLIP receiver (keyboards/keyboard_quantizer/keyboard_quantizer.c:325-329) is
  unreachable (`Slip.NeverOverflows`): bytes beyond 1024 are dropped and the packet is delivered cut off
  (`Slip.RoundTripExactly`).
- A release can overtake its own press in the tap machine when no tick comes between
  (`TappingDrains.OrderCanBreak`); `TappingRuns.KeyOrder` says exactly when it does not.
- The state that the comment at quantum/action_tapping.c:412 calls invalid is unreachable (`TappingRuns.ReachableGood`).
- TO(layer) reaches only the layers below 16 (`ActionCodes.MoveMeans`).
- An Input item without a report size takes a slot that stays free, for one usage already, and one with a size outside a
  collection takes a slot that nothing ever frees; either breaks the lists (`HidShape.StepShapedExactly`,
  `HidShape.ShortestWaste`).
- A top-level collection for which no slot is left is passed over
  (keyboards/keyboard_quantizer/report_descriptor_parser.c:195-199), and its Input items then count as outside: the
  first of them wastes a slot (`HidLegal.UsedUpExactly`). Running out of collections is harmless otherwise, and
  collections without members give their slots back.
- A top-level collection that ends with a report id but without members leaves the id in its slot, and the next
  collection inherits it (`HidIds.InheritedId`); `HidIds.ReadsRightExactly` says exactly when that shows.
- delete_hid_device stops at the first empty entry of the interface, and a freed entry counts as one of interface 0.
  Collections of interface 0 behind such an entry are never freed (`HidDevices.GapArises`);
  `HidDevices.DeletesAllExactly` gives the exact condition.
- A freed device entry is marked with interface 0, so the lookup for a report of interface 0 can find a freed entry in
  front of its own, and parse_report then reads the collection id through a null pointer
  (keyboards/keyboard_quantizer/report_parser.c:38-40). `HidReports.InterfaceZeroLost` is a run that does it,
  `HidReports.OtherAnswerExactly` the exact condition; no other interface can be lost. The same read follows a
  descriptor without reports on its own interface (`HidReports.ReportFindsFields`).
- In send_string a prefix byte before the terminator skips the terminator, and reading goes on behind it
  (`SendBytes.OtherPrefixes`).
- Mouse buttons are shifted by the bit at which their field begins within its byte
  (keyboards/keyboard_quantizer/report_parser.c:182-184): `MouseReports.InPlaceExactly`.
- Crash-safe initialisation needs no more of the magic number than that it is not FF FF FF
  (`CrashSafety.SafeExactly`); two decimal digits in BCD never are (`ViaInit.DateMagic`).

## Model

| member | source | states |
|---|---|---|
| TappingRuns.ReachableGood | quantum/action_tapping.c:65-100 | After every run: a released tapping key was tapped, counts fit four bits, a key held after its first tap has its release in the buffer, buffered presses have count 0, at most 7 entries wait, and the drain loop stopped only where it must |
| TappingRuns.Conservation | quantum/action_tapping.c:65-100 | In every run the emitted real events, the undecided press and the waiting events are together exactly the events fed since the last overflow, each once |
| TappingRuns.KeyOrder | quantum/action_tapping.c:86-96 | For a key whose events alternate: emitted, pending and waiting events are in input order at every moment if and only if no event of the key arrives while records of it wait and no press is undecided |
| TappingRuns.AdmitAppends | quantum/action_tapping.c:65-81 | One admitted event either joins the emitted events at once or is appended behind the waiting ones; nothing else moves |
| TappingRuns.StepGood | quantum/action_tapping.c:65-100 | One call keeps the state invariants |
| TappingOrder.ProcessAdds | quantum/action_tapping.c:108-348 | Every branch of process_tapping accounts for its record exactly once, per key, for the presses and for all events |
| TappingOrder.ProcessGood | quantum/action_tapping.c:108-348 | Every branch keeps tap counts, buffered records and the reason why it makes a record wait |
| TappingOrder.DrainView | quantum/action_tapping.c:86-96 | The drain loop only moves events from the buffer to the output: the emitted-then-waiting sequence of a key, or of the presses, does not change |
| TappingDrains.PressOrder | quantum/action_tapping.c:65-100 | Presses are emitted in the order they arrived, at every moment, as long as no press arrives while presses wait and none is undecided; if no press is fed twice, only then |
| TappingDrains.UndecidedGoesFirst | quantum/action_tapping.c:111-198 | While a tap key is undecided the next press to be emitted is its own |
| TappingDrains.OnlyRepeatedTapsAreReleasedTwice | quantum/action_tapping.c:212-219 | In every run the only records made up by the machine are releases of keys tapped more than once |
| TappingDrains.LateTickDrains | quantum/action_tapping.c:237-246 | A tick one term later than everything pending takes at least one event out of the buffer, or leaves no key undecided |
| TappingDrains.EightTicksDrain | quantum/action_tapping.c:65-100 | From every reachable state eight late ticks empty the buffer, settle the tapping key, and everything fed since the last overflow has been emitted exactly once |
| TappingDrains.OrderCanBreak | quantum/action_tapping.c:65-100 | A concrete run of four events in which a release is handed on before its own press |
| TappingKeys.InTurnExactly | quantum/action_tapping.c:86-96 | For a key whose events come in turn, and a buffer that never overflows: what is emitted, undecided and waiting of the key is presses and releases in turn at every moment if and only if none of its events overtakes |
| TappingKeys.ScannedInTurn | quantum/keyboard.c:408-446 | What keyboard_task feeds of a key comes in turn, so the two theorems apply to it |
| TappingKeys.SettledInTurn | quantum/action_tapping.c:65-100 | If none of its events overtakes and the buffer never overflows, eight late ticks later exactly the key's events have been handed on, in the order fed |
| TapDecisions.QuickTap | quantum/action_tapping.c:115-126 | A tap key released within its term: press and release with count 1, for any environment |
| TapDecisions.LongHold | quantum/action_tapping.c:237-246 | A tap key released after its term: press and release with count 0 |
| TapDecisions.PermissiveHold | quantum/action_tapping.c:127-153 | Another key pressed and released while the tap key is held: the tap key is held, and comes first |
| TapDecisions.RolledOver | quantum/action_tapping.c:201-210 | The tap key released before the other key: a tap, with the other press between its press and release |
| TapDecisions.EarlierKeyReleased | quantum/action_tapping.c:155-177 | The release of a key pressed earlier passes at once if and only if it is not retained |
| TapCounts.TapsCount | quantum/action_tapping.c:279-299 | A tap key pressed and released n times in turn, each time within the term: the k-th press and its release are handed on with count k, from the fifteenth on with 15 |
| TapCounts.NextPressCounts | quantum/action_tapping.c:279-299 | After n such taps the next press within the term is handed on at once, counted one higher |
| TapCounts.LatePressWaits | quantum/action_tapping.c:323-342 | A press of the key after the term starts a new decision, and nothing is handed on yet |
| TapCounts.InterruptedStartsAgain | quantum/action_tapping.c:301-317 | Another key typed between two taps is handed on at once, and the next press of the tap key starts undecided, without a count |
| TapCounts.NestedTap | quantum/action_tapping.c:127-153 | A tap key tapped inside another one held undecided: the outer one is a hold, the inner one, whose release is found waiting, a tap |
| TapCounts.OtherTapKey | quantum/action_tapping.c:211-226 | Another tap key pressed while the key is held after its taps: its release is made up if and only if it was tapped at least twice |
| TapCounts.SevenWait | quantum/action_tapping.c:65-81 | Seven events wait behind an undecided key; the eighth clears the buffer and the keyboard |
| TapCounts.TickInTerm | quantum/action_tapping.c:227-233 | A tick within the term changes nothing after a tap, whether the key is held or released |
| TapCounts.EventTimer | quantum/action_tapping.c:108-111 | Times of events are compared modulo 65536 milliseconds |
| TapMachine.Machine.ActionTappingProcess | quantum/action_tapping.c:65-100 | The loop over the ring buffer computes the specified step: new state, log and ring contents |
| TapMachine.Machine.ProcessTapping | quantum/action_tapping.c:108-348 | Branches on the static variables compute the specified outcome, including the record changed in place |
| TapMachine.Machine.WaitingBufferEnq | quantum/action_tapping.c:354-370 | Appends to the ring, refuses exactly when 7 entries wait, ignores the empty event |
| TapMachine.Machine.WaitingBufferTyped | quantum/action_tapping.c:385-392 | True if and only if a waiting record of the key has the opposite direction |
| TapMachine.Machine.WaitingBufferScanTap | quantum/action_tapping.c:409-428 | The first waiting release within the term, and no other, becomes the tap |
| TapMachine.RingEnqueue | quantum/action_tapping.c:364-365 | Storing at the head and advancing it modulo 8 appends to the sequence of entries |
| SymDefer.Refines | quantum/debounce/sym_defer_pk.c:73-135 | For every sequence of calls each key's output equals that of an automaton that remembers only since when it differs |
| SymDefer.FlipsOnlyAfterHolding | quantum/debounce/sym_defer_pk.c:100-117 | An output flips only after the raw key had its new value at every call for at least DEBOUNCE ms |
| SymDefer.Settles | quantum/debounce/sym_defer_pk.c:73-135 | A raw value held for DEBOUNCE ms is the output |
| SymDefer.UpdateFlag | quantum/debounce/sym_defer_pk.c:100-117 | An update asks for another one if and only if it leaves a counter running |
| SymDeferMatrix.Debouncer.Debounce | quantum/debounce/sym_defer_pk.c:73-98 | One call on counters and rows computes the specified step for every key |
| SymDeferMatrix.Debouncer.UpdateCountersAndTransfer | quantum/debounce/sym_defer_pk.c:100-117 | Expired counters copy the raw bit, the others count down, and the dirty flag is exact |
| SymDeferMatrix.Debouncer.StartCounters | quantum/debounce/sym_defer_pk.c:119-135 | Counters start where rows differ and are cleared where they agree |
| SymEager.Refines | quantum/debounce/sym_eager_pk.c:74-141 | For every sequence of calls each key's (or row's) output equals that of an automaton that remembers only its last flip |
| SymEager.FlipsAreApart | quantum/debounce/sym_eager_pk.c:102-141 | Two flips of one key (or one row) are at least DEBOUNCE ms apart |
| SymEager.Settles | quantum/debounce/sym_eager_pk.c:74-141 | A raw value held for DEBOUNCE ms is the output |
| SymEager.UpdateFlags | quantum/debounce/sym_eager_pk.c:102-121 | An update asks for another one if and only if a counter is left running, and for a transfer if and only if one has run out |
| EagerMatrices.KeyDebouncer.Debounce | quantum/debounce/sym_eager_pk.c:74-100 | One call of the per-key variant computes the specified step |
| EagerMatrices.KeyDebouncer.TransferMatrixValues | quantum/debounce/sym_eager_pk.c:123-141 | Flips exactly the differing keys whose counter is at rest, and starts their counters |
| EagerMatrices.RowDebouncer.Debounce | quantum/debounce/sym_eager_pr.c:70-95 | One call of the per-row variant computes the specified step |
| EagerMatrices.RowDebouncer.TransferMatrixValues | quantum/debounce/sym_eager_pr.c:117-133 | Replaces exactly the differing rows whose counter is at rest |
| AsymDefer.Refines | quantum/debounce/asym_eager_defer_pk.c:80-166 | For every sequence of calls each key's output equals that of the automaton idle, locked since, deferring since |
| AsymDefer.PressIsImmediate | quantum/debounce/asym_eager_defer_pk.c:138-166 | After every call a raw key that is down is down in the output |
| AsymDefer.StaysPressed | quantum/debounce/asym_eager_defer_pk.c:107-166 | A key that went down stays down for at least twice DEBOUNCE |
| AsymDefer.ReleaseOnlyAfterHolding | quantum/debounce/asym_eager_defer_pk.c:107-136 | A release is passed on only after the raw key read as up at every call for DEBOUNCE ms |
| AsymDefer.Settles | quantum/debounce/asym_eager_defer_pk.c:80-166 | A raw key that stays up is up in the output after at most one DEBOUNCE for a lock and one for the release |
| AsymDefer.UpdateFlags | quantum/debounce/asym_eager_defer_pk.c:107-136 | The same for locks and releases: a transfer is asked for if and only if the lock of a press has run out |
| AsymMatrix.Debouncer.Debounce | quantum/debounce/asym_eager_defer_pk.c:80-105 | One call on the bit-field counters computes the specified step for every key |
| AsymMatrix.Debouncer.UpdateCountersAndTransfer | quantum/debounce/asym_eager_defer_pk.c:107-136 | Expired counters transfer releases or ask for a rescan; the others count down |
| AsymMatrix.Debouncer.TransferMatrixValues | quantum/debounce/asym_eager_defer_pk.c:138-166 | Presses flip at once, releases start a counter, and a release taken back stops it |
| Debounce.ElapsedIsTrue | quantum/debounce/sym_defer_pk.c:78-84 | The wrapping timer difference is the true elapsed time, cut off at 255, for calls less than one range apart |
| Debounce.FastTimer | quantum/debounce/sym_defer_pk.c:78-84 | The fast timer shows the low 32 bits of the time |
| KeyboardEvents.EveryKeyAlternates | quantum/keyboard.c:408-446 | Over all runs of keyboard_task the events of every key alternate, starting with a press |
| KeyboardEvents.KeyAlternates | quantum/keyboard.c:408-446 | The last event of a key agrees with what the scanner remembers of it |
| KeyboardEvents.ScannedKeyOrder | quantum/keyboard.c:408-446 | What the scanner feeds to the tap machine meets the assumptions of the key-order theorem |
| KeyboardEvents.CallCatchesUp | quantum/keyboard.c:408-446 | Each call takes the Hamming distance to the matrix down by one until it is zero |
| KeyboardEvents.StableMatrixIsReached | quantum/keyboard.c:408-446 | With a stable matrix, as many calls as keys differ make the remembered matrix equal to it |
| KeyboardEvents.EventTimes | quantum/keyboard.c:418-441 | Over all runs every event, of a key or a tick, has an odd time that is the timer's or one more |
| KeyboardEvents.EventsAreChanges | quantum/keyboard.c:408-446 | Over all runs a call makes a tick if and only if the matrix is as known, and otherwise the event of the first key in scan order that differs |
| MatrixTask.Scanner.Task | quantum/keyboard.c:408-446 | Exactly one event per call: the first changed key in scan order, or a tick, with an odd time at most one off the timer |
| ActionCodes.ToggleMeans | quantum/keymap_common.c:121-125 | TG(l) compiled and interpreted inverts layer l on release and does nothing on press, for layers 0 to 31 |
| ActionCodes.DefaultMeans | quantum/keymap_common.c:116-120 | DF(l) makes l the only default layer, on release |
| ActionCodes.MomentaryMeans | quantum/keymap_common.c:111-115 | MO(l) switches layer l on and off, also where the layer number spills into the kind field |
| ActionCodes.MoveMeans | quantum/keymap_common.c:105-110 | TO(l) is layer_move(l) if and only if l is below 16 |
| ActionCodes.MoveMeansModulo | quantum/keymap_common.c:105-110 | TO(l) switches to the layer its keycode has four bits for, on press |
| ActionCodes.OffMeans | quantum/action_code.h:257 | The AND form with the extra bit, interpreted, keeps all bits but the layer's |
| ActionCodes.OneLayerCleared | quantum/action_layer.c:153 | Taking a layer's bit away clears that layer and keeps every other |
| ActionCodes.BitopFields | quantum/action_code.h:144-151 | The packed fields of a layer action are the encoder's arguments |
| KeycodeFormats.TapKeyActions | quantum/keymap_common.c:102-150 | LT, MT and TT compile to the numbers that the bit layout of actions gives them |
| KeycodeFormats.LayerKeyActions | quantum/keymap_common.c:105-147 | MO, TG, DF, TO and LM compile to the numbers that the bit layout of actions gives them |
| KeycodeFormats.NoActionExactly | quantum/keymap_common.c:47-165 | The keycodes that compile to an action at all are exactly those of the modelled families |
| KeycodeFormats.TapKeycodesExactly | quantum/action.c:1030-1058 | With layers below 32 the tap machine decides exactly about LT and MT with a key or a tap operation, and TT |
| KeycodeFormats.OtherTapActions | quantum/action.c:1043-1056 | Swap-hands actions with a key or a toggle and tap macros are tap actions, too |
| KeycodeFormats.FieldsExactly | quantum/action.c:276-303 | The top four bits of an action decide its fields, and only the low byte F1 makes a layer key momentary |
| KeycodeFormats.LayerTapOperations | quantum/action.c:519-527 | The layer operations F1, F2 and F3: on while held, off while held, alone while held |
| KeycodeFormats.KeyCodesExactly | quantum/action.c:751-826 | Exactly the codes from A to the last key of the keyboard page enter and leave the report |
| KeycodeFormats.PlainCodesExactly | quantum/action.c:751-826 | The codes of the no-stuck theorem are those of the keyboard page and the modifiers without the three locking keys |
| KeycodeFormats.ModifierBits | quantum/action.c:818-825 | The codes E0 to E7 set and clear the modifier bits 0 to 7, in this order |
| PlainKeycodes.ModifiedFields | quantum/keymap_common.c:78-82 | A modified keycode compiles to its key with the modifiers of the left or of the right hand |
| PlainKeycodes.LayerWithModsFields | quantum/keymap_common.c:143-147 | LM compiles to its layer and its modifiers |
| PlainKeycodes.PlainKeycodesAre | quantum/keymap_common.c:47-147 | Every key and modifier but the locking keys, alone or with modifiers, MO of every layer and LM below layer 16 are in the no-stuck theorem |
| PlainKeycodes.PlainKeymapNeverSticks | quantum/action.c:276-303 | With any keymap of basic, modified, MO and LM keycodes and any run, all modifiers, layers and keys are off once all keys are up |
| PlainKeycodes.PlainIsNoTap | quantum/action.c:1030-1058 | No plain keycode compiles to an action the tap machine decides about |
| EndToEnd.AllUpNothingOn | quantum/action.c:77-121 | Scanner, tap machine and actions together, on a plain keymap: whenever the scanner knows no key as down, no modifier, layer or key code is on, after any calls |
| EndToEnd.ReleasedIsOff | quantum/keyboard.c:408-446 | As many calls with all keys up as the matrix has keys switch everything off |
| EndToEnd.ScannedWeak | quantum/action.c:77-84 | After any calls of keyboard_task every weak modifier that is on is one of the key whose press was fed last |
| EndToEnd.WeakAfterPress | quantum/action.c:77-84 | Right after a press is fed the weak modifiers on are exactly those of its key |
| EndToEnd.ScannerMatches | quantum/keyboard.c:408-446 | What reaches process_record never presses a key that is down, and the keys then down are those the scanner knows as down |
| EndToEnd.ReleaseFirstSticks | quantum/action.c:276-303 | A plain key whose release is handled before its press leaves its code in the report |
| NothingSticks.NoneStuck | quantum/action.c:494-502 | After every run what is on is covered by what the presses of the held keys switched on, whatever the layers did |
| NothingSticks.ReleaseResolvesAsPress | quantum/action_layer.c:229-247 | The release of a held key resolves to the action its press resolved to |
| NothingSticks.NeverPressed | quantum/action_layer.c:188-250 | The release of a key that was never pressed is looked up on layer 0 |
| NothingSticks.OnExactlyWhileHeld | quantum/action.c:276-303 | A modifier, layer or key code only one key works is on if and only if that key is held with an action for it, for a key code one that found room in the report |
| WeakModifiers.WeakExactly | quantum/action.c:77-84 | After every run a weak modifier is on if and only if a key with it was pressed and since then no press was seen, no layer changed and no key with it was released |
| WeakModifiers.WeakIsSeenLast | quantum/action.c:81-84 | Every weak modifier that is on was given by a press handled after the last press that action_exec saw |
| NothingSticks.SixKeysFit | tmk_core/common/report.c:101-163 | As long as no more than six keys are down every one of them finds room in the report |
| NothingSticks.PressSwitchesOn | quantum/action.c:276-293 | A press adds its modifiers, layer and, if there is room, key code, and drops the weak modifiers exactly when the layers change |
| NothingSticks.ReleaseSwitchesOff | quantum/action.c:294-302 | A release takes away exactly what the press of the same action added |
| NothingSticks.TwoPressesStick | quantum/action_layer.c:229-247 | Why NoneStuck asks for presses and releases in turn, which the scanner guarantees: a run with two presses of one key that leaves a modifier on |
| NothingSticks.SecondPressLeaves | quantum/action.c:276-303 | Two presses of one key and its release leave on exactly what the first action switches on and the second does not, so nothing if and only if the second covers the first |
| KeyActions.TopLayer | quantum/action_layer.c:253-273 | The layer found shows the key, and no higher active layer does; else layer 0 |
| KeycodeFormats.HighestLayer | quantum/action_layer.c:255-279 | Layer 31 is the highest that is looked at |
| LayerCache.Cache.Update | quantum/action_layer.c:194-202 | The branch-free bit-sliced store changes the layer of one key and of no other |
| LayerCache.Cache.Read | quantum/action_layer.c:208-219 | Reassembles the layer last stored for the key |
| LayerCache.NumbersDiffer | quantum/action_layer.c:195-197 | Different keys have different places in the cache, inside it |
| LayerCache.StoreBit | quantum/action_layer.c:200 | The exclusive-or expression sets one bit and keeps the others |
| ActionMachine.Registers.LayerSwitchGetLayer | quantum/action_layer.c:253-273 | The loop from the top layer down finds the specified layer |
| ActionMachine.Registers.StoreOrGetAction | quantum/action_layer.c:229-247 | Stores the layer on press, reads it back on release, and returns that layer's action |
| ActionMachine.Registers.ProcessAction | quantum/action.c:276-303 | The bit fields decoded and the modifier bytes, layer words and report bytes changed give the specified effect on the board their bits stand for |
| ActionMachine.Registers.RegisterCode | quantum/action.c:751-838 | A key code enters the six-byte report once, if there is room; a modifier code sets its bit and no other |
| ActionMachine.Registers.UnregisterMods | quantum/action.c:934-939 | The modifier byte then stands for its old modifiers without the given ones, whichever bits were set |
| ActionMachine.Registers.LayerOn | quantum/action_layer.c:147 | The shifted bit adds that layer to those of the layer word and no other, and the weak modifiers are dropped |
| ActionMachine.Registers.SeePress | quantum/action.c:81-84 | A press that action_exec sees drops the weak modifiers and changes nothing else |
| ActionMachine.Registers.ProcessRecord | quantum/action.c:196-238 | An event resolved and processed on the real cache is one specified step |
| WordSets.JoinLayers | quantum/action_layer.c:258 | The layers of the combined word are those of either word |
| WordSets.TestLayer | quantum/action_layer.c:261 | The masked word is nonzero exactly when the layer is on |
| WordSets.DropBits | quantum/action_util.c:276 | And-not takes exactly the given bits out of a modifier byte |
| KeyReport.AddKeyByte | tmk_core/common/report.c:101-163 | The first empty byte takes a code that is not in the report; a full report stays as it is |
| KeyReport.DelKeyByte | tmk_core/common/report.c:168-200 | Exactly this code leaves the report |
| KeymapStore.AddressFormula | quantum/dynamic_keymap.c:86-89 | Addresses and size are the products the source writes |
| KeymapStore.AddressesDiffer | quantum/dynamic_keymap.c:86-89 | Every key has two bytes of its own inside the keymap region |
| KeymapStore.SetKeyChangesOne | quantum/dynamic_keymap.c:99-104 | Setting a key changes the reading of that key only, and no byte outside the keymap |
| KeymapStore.ResetReads | quantum/dynamic_keymap.c:107-118 | After a reset every key reads its flash value and nothing outside the keymap has changed |
| KeymapBuffers.BulkIsKeyed | quantum/dynamic_keymap.c:120-133 | The whole buffer is the big-endian layer/row/column serialisation of a keymap if and only if every key reads as that keymap says |
| KeymapBuffers.UploadSetsKeys | quantum/dynamic_keymap.c:135-146 | Writing a serialised keymap sets every key and keeps all other bytes |
| KeymapBuffers.SetBufferAt | quantum/dynamic_keymap.c:135-146 | A bulk write changes exactly the bytes it covers inside the region |
| KeymapBuffers.SetThenGet | quantum/dynamic_keymap.c:120-146 | What is written reads back, with zeros past the region |
| KeymapBuffers.GetThenSet | quantum/dynamic_keymap.c:120-146 | Writing back what was read changes nothing |
| StorageMachine.Storage.GetKeycode | quantum/dynamic_keymap.c:91-97 | Reads the key's big-endian word |
| StorageMachine.Storage.SetKeycode | quantum/dynamic_keymap.c:99-104 | Issues the two writes of the key, and only its reading changes |
| StorageMachine.Storage.ResetKeymap | quantum/dynamic_keymap.c:107-118 | The nested loops issue the writes of all keys in order, and every key then reads its flash value |
| StorageMachine.Storage.ReadBuffer | quantum/dynamic_keymap.c:120-133 | The loop returns the clipped bytes of the region |
| StorageMachine.Storage.WriteBuffer | quantum/dynamic_keymap.c:135-146 | The loop issues exactly the writes inside the region |
| StorageMachine.Storage.MacroReset | quantum/dynamic_keymap.c:189-196 | Zeroes every byte of the macro region, in order |
| StorageMachine.Storage.MacroSend | quantum/dynamic_keymap.c:198-253 | Skipping, framing and sending through the four-byte buffer equal the specified outcome |
| StorageMachine.Storage.WriteOptions | quantum/via.c:135-143 | The loop writes the bytes from the least significant one at the highest address downwards |
| StorageMachine.Storage.SetLayoutOptions | quantum/via.c:135-143 | The options read back modulo the bytes they have |
| StorageMachine.Storage.GetLayoutOptions | quantum/via.c:123-133 | Assembles the bytes, most significant first |
| StorageMachine.Storage.EepromSetValid | quantum/via.c:76-85 | Writes the three magic bytes in order, or three times FF |
| StorageMachine.Storage.EepromIsValid | quantum/via.c:65-72 | True if and only if all three magic bytes match |
| StorageMachine.Storage.EeconfigInitVia | quantum/via.c:108-119 | Issues the specified writes in order and ends valid with all defaults |
| StorageMachine.Storage.Init | quantum/via.c:96-106 | Ends valid, and writes nothing if the magic was valid |
| ViaInit.OptionsRoundTrip | quantum/via.c:123-143 | Reading the layout options gives the written value modulo 256 to the number of bytes |
| ViaInit.DateMagic | quantum/via.c:65-69 | The magic of a build date never equals what clearing it leaves |
| ViaInit.MagicOfBuildDate | quantum/via.c:65-69 | The magic of a build date is its last two year digits, month and day in binary-coded decimal |
| CrashSafety.ValidMeansConsistent | quantum/via.c:96-119 | After an initialisation cut anywhere and any number of boots cut anywhere, a valid magic means untouched regions or all defaults |
| CrashSafety.SafeExactly | quantum/via.c:76-119 | Initialisation is crash-safe if and only if the magic is not FF FF FF |
| CrashSafety.BootCompletes | quantum/via.c:96-106 | A boot that is not cut ends valid, unchanged or with all defaults |
| CrashSafety.Phases | quantum/via.c:108-119 | Before the regions are written they are untouched, while they are written the magic is erased, afterwards they are the defaults |
| CrashSafety.RegionsDefault | quantum/via.c:111-116 | The writes between the magics set layout options, all keys and all macro bytes to their defaults |
| MacroText.MacrosRoundTrip | quantum/dynamic_keymap.c:198-253 | For stored null-free strings macro_send(id) performs exactly the operations of string id and reads only inside the region |
| MacroText.StaysInsideExactly | quantum/dynamic_keymap.c:198-253 | Sending reads past the region if and only if the last byte is null and the region holds exactly id nulls |
| MacroText.ReadsPast | quantum/dynamic_keymap.c:198-253 | A region of two bytes whose second macro is read past its end |
| MacroText.SendMeans | quantum/dynamic_keymap.c:229-252 | Cutting a string into one- and three-character strings keeps its meaning |
| SendString.Send | quantum/send_string.c:149-188 | The pointer loop performs exactly the specified operations, or runs off the end of the bytes |
| SendString.TextRoundTrip | quantum/send_string.c:149-188 | Taps, presses, releases, delays and characters written in the macro language are performed as written |
| SendBytes.LanguageBytes | quantum/send_string.c:149-188 | The prefix 1 followed by 1, 2, 3 or 4 is a tap, a press, a release or a delay in decimal digits up to a bar |
| SendBytes.OtherPrefixes | quantum/send_string.c:149-188 | Behind the prefix any other byte is skipped, a terminator too |
| SendBytes.RunsOff | quantum/send_string.c:149-188 | Without a terminator the reader runs off the end, whatever it reads |
| SendBytes.CutDelay | quantum/send_string.c:167-180 | A delay whose digits run up to the end of the bytes is not performed |
| MacroRecording.RecordingStores | quantum/dynamic_macro.h:154-260 | A recording stores its events without leading releases, cut to the room the other macro leaves, without trailing presses; the other macro is unchanged |
| MacroRecording.MacroSurvivesExactly | quantum/dynamic_macro.h:154-260 | A stored macro is kept at every moment of a run if and only if no recording into its own slot starts |
| MacroRecording.PlayReplays | quantum/dynamic_macro.h:77-93 | Playing, however much later, replays exactly the stored records in order |
| MacroRecording.AlwaysFits | quantum/dynamic_macro.h:104-122 | Both macros together never outgrow the buffer |
| MacroPassing.PassedOnExactly | quantum/dynamic_macro.h:201-260 | In every run a record is kept back if and only if it is the release of a start or play key while nothing is recorded, or of a stop or play key during a recording |
| MacroPassing.OthersArePassed | quantum/dynamic_macro.h:201-260 | In every run the records of all other keys are passed on, all of them and in order |
| MacroPassing.ActsExactly | quantum/dynamic_macro.h:201-220 | In every run only the release of a start or play key while nothing is recorded does anything: it clears the keyboard and layers, or plays the macro of its slot |
| MacroRecorder.Recorder.Process | quantum/dynamic_macro.h:154-260 | The shared buffer with its two ends and one pointer computes the specified step |
| MacroRecorder.Recorder.PlayMacro | quantum/dynamic_macro.h:77-93 | Replays the stored records in order from either end and restores the layers |
| MacroRecorder.Recorder.RecordKey | quantum/dynamic_macro.h:104-122 | Stores a record unless it is a leading release or would overwrite the other macro |
| MacroRecorder.Recorder.RecordEnd | quantum/dynamic_macro.h:128-142 | The new end leaves out exactly the trailing presses |
| HidShape.RunShaped | keyboards/keyboard_quantizer/report_descriptor_parser.c:154-391 | Over any sequence of accepted parses all lists are acyclic, share no node, and the used nodes are exactly the reachable ones |
| HidShape.ParseShaped | keyboards/keyboard_quantizer/report_descriptor_parser.c:154-391 | One accepted parse, including deletion and merging, keeps the pools well-shaped, whatever it runs out of |
| HidShape.AcceptsExactly | keyboards/keyboard_quantizer/report_descriptor_parser.c:183-354 | A descriptor is accepted if and only if the pools are well-shaped after each of its items and at the end |
| HidShape.StepShapedExactly | keyboards/keyboard_quantizer/report_descriptor_parser.c:183-354 | Any item keeps the pools well-shaped if and only if it is not an Input that wastes a free slot: without a size in a collection, or with one outside |
| HidShape.StaysShapedExactly | keyboards/keyboard_quantizer/report_descriptor_parser.c:183-354 | Any sequence of items keeps the pools well-shaped throughout if and only if none of them wastes a slot |
| HidShape.EndShapedExactly | keyboards/keyboard_quantizer/report_descriptor_parser.c:183-354 | The pools are well-shaped after the last item if and only if no collection with members is left open |
| HidLegal.LegalIsAccepted | keyboards/keyboard_quantizer/report_descriptor_parser.c:183-354 | A well-nested descriptor with sizes on its Input items and no more top-level collections than are free is accepted, whatever the pools hold |
| HidLegal.WithoutInputsAccepted | keyboards/keyboard_quantizer/report_descriptor_parser.c:214-232 | Collections without inputs give their slots back, so any number of them is accepted |
| HidLegal.UsedUpExactly | keyboards/keyboard_quantizer/report_descriptor_parser.c:194-199 | The first input of a top-level collection wastes a member slot if and only if no collection slot was left |
| HidShape.CompressShaped | keyboards/keyboard_quantizer/report_descriptor_parser.c:359-386 | Merging collections keeps the pools well-shaped |
| HidShape.DeleteDeviceShaped | keyboards/keyboard_quantizer/report_descriptor_parser.c:78-96 | Deleting a device keeps the pools well-shaped: nothing that is still listed is zeroed and nothing unlisted stays in use |
| HidDevices.DeletesReached | keyboards/keyboard_quantizer/report_descriptor_parser.c:78-96 | The search empties exactly the entries of the interface before which no entry of the interface is empty, and changes no other entry |
| HidDevices.FreesExactly | keyboards/keyboard_quantizer/report_descriptor_parser.c:78-96 | The collections still in use are exactly those of the entries not emptied |
| HidDevices.DeletesAllExactly | keyboards/keyboard_quantizer/report_descriptor_parser.c:78-96 | No entry of the interface owns collections afterwards if and only if no empty entry of the interface stands before one in use |
| HidDevices.GapArises | keyboards/keyboard_quantizer/report_descriptor_parser.c:78-96 | Six accepted parses from the start after which interface 0 has two entries in use |
| HidContents.ParseReads | keyboards/keyboard_quantizer/report_descriptor_parser.c:154-391 | For every accepted descriptor the stored collections and members are those of a parser without pools that knows only the room and the ids left in the free slots, with collections without an id merged, and the result says whether there are any |
| HidFields.MembersRead | keyboards/keyboard_quantizer/report_descriptor_parser.c:183-354 | For every accepted descriptor the members of the entry are those of all Input items inside collections, in order, as many as there was room for; each field is that of the last item of its kind before the Input, for the usage range since the Input before |
| HidFields.LegalMembersRead | keyboards/keyboard_quantizer/report_descriptor_parser.c:183-354 | If no top-level collection can run out of slots, the positions of the items alone say which members are stored |
| HidFields.RefusedExactly | keyboards/keyboard_quantizer/report_descriptor_parser.c:194-201 | A collection is passed over if and only if it is a top-level one that finds no empty slot |
| HidFields.HeadersRead | keyboards/keyboard_quantizer/report_descriptor_parser.c:194-206 | Every stored collection has the usage page and the usage that stand before its beginning |
| HidPools.PoolSizes | keyboards/keyboard_quantizer/report_descriptor_parser.h:50-53 | There are eight devices, sixteen collections, thirty-two members and as many usages |
| HidIds.ReadsRightExactly | keyboards/keyboard_quantizer/report_descriptor_parser.c:183-241 | The table says what the descriptor says, ids included, if and only if no collection with members inherits a nonzero id from an earlier one that gave its slot back |
| HidIds.InheritedId | keyboards/keyboard_quantizer/report_descriptor_parser.c:194-241 | From the start, a collection without an id behind an empty one with report id 5 is stored with id 5 |
| HidContents.OthersKept | keyboards/keyboard_quantizer/report_descriptor_parser.c:154-391 | A parse leaves the contents of every other device unchanged |
| HidReports.LookupFindsParsed | keyboards/keyboard_quantizer/report_descriptor_parser.c:22-30 | After any parse the lookup of its interface finds the entry the parse took, and nothing when the table was full |
| HidReports.ReportFindsFields | keyboards/keyboard_quantizer/report_parser.c:30-60 | After an accepted parse a report is read with the members that the parser without pools gives to its id |
| HidReports.ChoosesById | keyboards/keyboard_quantizer/report_parser.c:38-53 | A first collection without an id reads every report; otherwise the first collection whose id is the first byte reads the rest, and without one nothing does |
| HidReports.ReadAsLastParsed | keyboards/keyboard_quantizer/report_parser.c:30-60 | Reports of an interface are read as its last descriptor says, however many descriptors of other interfaces follow, as long as none of them loses interface 0 |
| HidReports.OtherAnswerExactly | keyboards/keyboard_quantizer/report_parser.c:30-60 | A parse changes how the reports of another served interface are read if and only if that is interface 0 and an entry before its own was freed and not taken again |
| HidReports.InterfaceZeroLost | keyboards/keyboard_quantizer/report_parser.c:30-60 | A run of five accepted parses from the start, of which the last, for interface 2, loses interface 0 |
| HidReports.GetHidDeviceDef | keyboards/keyboard_quantizer/report_descriptor_parser.c:22-30 | The loop over the device table finds the first entry of the interface |
| HidReports.FindCollection | keyboards/keyboard_quantizer/report_parser.c:30-60 | The loops over the device table and the linked collections find the specified collection |
| HidShape.InputShapedExactly | keyboards/keyboard_quantizer/report_descriptor_parser.c:307-336 | An Input item keeps the pools well-shaped if and only if it wastes no free slot |
| HidShape.ZeroSizeTakesOneSlot | keyboards/keyboard_quantizer/report_descriptor_parser.c:54-63 | With report size zero every usage takes the same slot, and the slot stays free |
| HidShape.ShortestWaste | keyboards/keyboard_quantizer/report_descriptor_parser.c:307-336 | From the start, two items that break the shape: in a collection without a size, outside with one |
| HidMachine.Parser.ParseReportDescriptor | keyboards/keyboard_quantizer/report_descriptor_parser.c:154-391 | The pointer-linked pools updated in place compute the specified pools and result |
| HidMachine.Parser.DeleteDevice | keyboards/keyboard_quantizer/report_descriptor_parser.c:78-96 | Walks and zeroes the linked nodes, and computes the specified pools |
| HidMachine.Parser.DeleteCollection | keyboards/keyboard_quantizer/report_descriptor_parser.c:65-76 | Zeroes the members of a collection and the collection |
| HidMachine.Parser.AddMembers | keyboards/keyboard_quantizer/report_descriptor_parser.c:307-336 | Links one new member per usage behind the current one |
| HidMachine.Parser.FinishCollection | keyboards/keyboard_quantizer/report_descriptor_parser.c:214-232 | Appends the collection to the device's list by walking to its tail |
| HidMachine.Parser.Compress | keyboards/keyboard_quantizer/report_descriptor_parser.c:363-386 | Relinks members and unlinks collections as specified |
| HidMachine.Parser.FindEmptyCollection | keyboards/keyboard_quantizer/report_descriptor_parser.c:43-52 | The first collection slot without members |
| HidMachine.Parser.FindEmptyMember | keyboards/keyboard_quantizer/report_descriptor_parser.c:54-63 | The first member slot with report size zero |
| ReportFields.ParseInvertsPack | keyboards/keyboard_quantizer/report_parser.c:129-167 | Signed fields of 2 to 16 bits and groups of up to 16 buttons, packed at consecutive bit offsets in any order, are read back one after the other, and the bit index moves by exactly their widths |
| ReportFields.ButtonsRead | keyboards/keyboard_quantizer/report_parser.c:139-154 | Each button of a group is its bit of the value read |
| ReportFields.FieldParsed | keyboards/keyboard_quantizer/report_parser.c:157-164 | Sign extension gives back the two's complement value; buttons have no sign and no usage offset |
| ReportFields.SelectorParsed | keyboards/keyboard_quantizer/report_parser.c:162-165 | With a range of usages the value is counted from the logical minimum and selects a usage |
| ReportFields.WideItem | keyboards/keyboard_quantizer/report_parser.c:129-167 | Items of more than 16 bits keep their low 16 bits |
| ReportFields.BitsOfByte | keyboards/keyboard_quantizer/report_parser.c:134-153 | The eight bits of a byte are read lowest first |
| ReportFields.ParseValue | keyboards/keyboard_quantizer/report_parser.c:129-167 | The bit loops, sign extension and usage offset compute the value of the member's bits, cut to 16 bits for wider members |
| MouseReports.AxisRead | keyboards/keyboard_quantizer/report_parser.c:169-215 | Of a report into which fields are packed each axis is the value of the last field with its usage, and zero without one |
| MouseReports.AxesByUsage | keyboards/keyboard_quantizer/report_parser.c:186-200 | X, Y, wheel and AC pan, by their usage numbers, are the last fields with them |
| MouseReports.WordRead | keyboards/keyboard_quantizer/report_parser.c:169-215 | A bit of the button word is on if and only if a button of some group is down at it, counted from the byte in which the group begins |
| MouseReports.ButtonsByUsage | keyboards/keyboard_quantizer/report_parser.c:181-205 | The same by the usage numbers of buttons and side buttons |
| MouseReports.UndefinedIsAll | keyboards/keyboard_quantizer/report_parser.c:206-208 | Every other field is gathered in the word undefined, shifted by where it begins within 16 bits |
| MouseReports.InPlaceExactly | keyboards/keyboard_quantizer/report_parser.c:169-215 | With one group of buttons, button k is bit k if and only if the group begins at a byte or nothing is down |
| MouseReports.MouseReportParser | keyboards/keyboard_quantizer/report_parser.c:169-215 | The loop over the members, each read where the one before ended, computes the specified result |
| Slip.RoundTripExactly | keyboards/keyboard_quantizer/keyboard_quantizer.c:275-344 | However the stream is split over calls, the packets delivered are those encoded if and only if each has at most 1024 bytes |
| Slip.DecodeEncode | keyboards/keyboard_quantizer/keyboard_quantizer.c:290-333 | Every packet arrives, cut to 1024 bytes |
| Slip.ProtocolBytes | keyboards/keyboard_quantizer/keyboard_quantizer.c:57-60 | Octal 300 ends a packet; it and octal 333 inside one are sent as 333 334 and 333 335 |
| Slip.SplitDoesNotMatter | keyboards/keyboard_quantizer/keyboard_quantizer.c:290-344 | The state after several calls depends only on the concatenated bytes |
| Slip.NeverOverflows | keyboards/keyboard_quantizer/keyboard_quantizer.c:309-329 | After any bytes the packet fits the buffer and the overflow flag is not set |
| Slip.Receiver.ProcessPacket | keyboards/keyboard_quantizer/keyboard_quantizer.c:275-344 | The nested loops compute the specified state, and the write index stays in the buffer |

## Left out

- Hardware access, timers, the USB side, audio, lighting and OLED drawing, floating-point code, console output.
- Weak user and keyboard hooks are taken as the identity, and `should_process_keypress` as true.
- Inside the tapping model: one-shot keys, combos, swap hands, retro tapping; `process_record` is a log there.
- Matrix ghost filtering, encoders and `QMK_KEYS_PER_SCAN` in keyboard_task.
- Actions other than keys with modifiers, MO and LM in the no-stuck theorem: toggles, TO, one-shot and mod-tap keys
  leave something on by design; the locking codes KC_LCAP, KC_LNUM and KC_LSCR depend on the host's LEDs.
- Keycodes of the mouse, system and consumer pages, and keycode remapping (`keycode_config`, `mod_config`).
- ActionMachine.Registers.RegisterCode: NKRO and the circular `USB_6KRO_ENABLE` report, which the keyboard does not
  enable; `command_proc`; and sending the report to the host.
- ActionMachine.Registers.ProcessAction: actions other than the momentary ones above.
- ActionMachine.Registers.ProcessRecord: `process_record_nocache` and changing the keymap while keys are held.
- AsymDefer.Refines: covers DEBOUNCE from 1 to 127, the range the source enforces; SymDefer.Refines and SymEager.Refines
  cover 1 to 255 likewise.
- HidMachine.Parser.ParseReportDescriptor: `get_next_item` is not modelled, so descriptors are sequences of decoded
  items; the pointers are followed for accepted descriptors only, since the others break the lists. The level is
  unbounded here; the source counts it in an `int8_t`, so nesting deeper than 127 is not covered.
- ReportFields.ParseValue: members of more than 32 bits or items of 32, for which the source shifts an `int` out of its
  range.
- HidReports.FindCollection: is not called for an entry without collections, which the source reads through a null
  pointer.
- MouseReports.MouseReportParser: the keyboard, system, consumer and vendor parsers of report_parser.c, which walk the
  members the same way; reports shorter than their members; and what the mouse hook sends.
- StorageMachine.Storage.MacroSend: reads behind the region end the model of the call; what they would read is not
  modelled.
- StorageMachine.Storage.Init: `via_init_kb` is the identity, and a write is never torn.
- MacroRecorder.Recorder.Process: playback of a macro that itself contains a macro key, and the LED blinking.
- MacroRecording.PlayReplays: what the replayed records do is left to `process_record`.
- SendString.Number: a delay is unbounded here; the source keeps it in an `int` (quantum/send_string.c:169), so
  digit strings beyond its range are not covered.
- SendString.Send: the waits between characters, and the keycode lookup tables of `send_char`.
- Slip.Receiver.ProcessPacket: `parse_packet` only receives the packet; the update mode that returns early is left out.
- Overrides for JP and US layouts, WPM, bootmagic, command mode, crc8 and other small finite tables.
