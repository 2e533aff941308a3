/** From the key matrix to the report: the scanner, the tap machine and the actions together, for keymaps
    of plain keycodes. */
module EndToEnd {
  import opened ActionCodes
  import opened KeyActions
  import opened KeyboardEvents
  import opened NothingSticks
  import opened PlainKeycodes
  import opened TapRecords
  import opened WeakModifiers
  import Tapping
  import TappingOrder

  /** A key is a tap key only if some layer of the keymap has a tap action for it. */
  ghost predicate TapsAsMapped(env: Env, km: Keymap) {
    forall log, key :: env.isTap(log, key) ==> exists layer: nat :: layer < MAX_LAYER && IsTapAction(km(layer, key))
  }

  ghost predicate NoTaps(env: Env) {
    forall log, key :: !env.isTap(log, key)
  }

  lemma PlainKeysDoNotTap(env: Env, keycodes: Keycodes)
    requires forall layer: nat, key: Key :: layer < MAX_LAYER ==> IsPlain(keycodes(layer, key))
    requires TapsAsMapped(env, Compiled(keycodes))
    ensures NoTaps(env)
  {
    forall log, key | env.isTap(log, key)
      ensures false
    {
      var layer: nat :| layer < MAX_LAYER && IsTapAction(Compiled(keycodes)(layer, key));
      PlainIsNoTap(keycodes(layer, key));
    }
  }

  // ---------- the tap machine passes everything on ----------

  function Passed(e: Event): seq<Emit> {
    if IsNoEvent(e) then [] else [Real(Record(e, NO_TAP))]
  }

  /** Without tap keys an event is handed on by the call that brings it. */
  lemma {:induction false} PassesThrough(env: Env, events: seq<Event>)
    requires NoTaps(env)
    ensures var st := Tapping.Run(env, events); st.tk == NO_RECORD && st.buf == []
    ensures events != [] ==>
      Tapping.Run(env, events).log == Tapping.Run(env, events[..|events| - 1]).log + Passed(events[|events| - 1])
  {
    if events != [] {
      PassesThrough(env, events[..|events| - 1]);
    }
  }

  /** What process_record gets to see */
  function Handlings(log: seq<Emit>): seq<Input>
    requires forall i :: 0 <= i < |log| ==> log[i].Real?
  {
    if log == [] then []
    else [Handled(log[0].record.event.key, log[0].record.event.pressed)] + Handlings(log[1..])
  }

  /** action_exec call by call: a press is seen, and then what the tap machine newly hands on is handled. */
  ghost function Inputs(env: Env, events: seq<Event>): seq<Input>
    requires NoTaps(env)
  {
    if events == [] then []
    else
      var before, e := events[..|events| - 1], events[|events| - 1];
      PassesThrough(env, events);
      var old_, new_ := Tapping.Run(env, before).log, Tapping.Run(env, events).log;
      Inputs(env, before) + (if e.pressed then [PressSeen] else []) + Handlings(new_[|old_|..])
  }

  lemma PassedIsHandled(e: Event)
    ensures Handlings(Passed(e)) == if IsNoEvent(e) then [] else [Handled(e.key, e.pressed)]
  {
  }

  lemma InputsNext(env: Env, before: seq<Event>, e: Event)
    requires NoTaps(env)
    ensures var seen := Inputs(env, before) + if e.pressed then [PressSeen] else [];
      Inputs(env, before + [e]) == if IsNoEvent(e) then seen else seen + [Handled(e.key, e.pressed)]
  {
    var events := before + [e];
    assert events[..|events| - 1] == before;
    PassesThrough(env, events);
    var old_, new_ := Tapping.Run(env, before).log, Tapping.Run(env, events).log;
    assert new_[|old_|..] == Passed(e);
    PassedIsHandled(e);
    var seen := Inputs(env, before) + if e.pressed then [PressSeen] else [];
    assert seen + [] == seen;
  }

  // ---------- the keys that are down ----------

  ghost predicate IsKnownDown(keys: seq<bool>, cols: nat, key: Key)
    requires cols > 0
  {
    exists i :: 0 <= i < |keys| && KeyOf(i, cols) == key && keys[i]
  }

  /** The keys that were pressed and not released are the keys known to be down. */
  ghost predicate Matches(inputs: seq<Input>, keys: seq<bool>, cols: nat)
    requires cols > 0
  {
    Proper(inputs) && forall key :: key in Down(inputs) <==> IsKnownDown(keys, cols, key)
  }

  lemma SeenMatches(inputs: seq<Input>, keys: seq<bool>, cols: nat)
    requires cols > 0 && Matches(inputs, keys, cols)
    ensures Matches(inputs + [PressSeen], keys, cols)
  {
  }

  lemma KnownDownAt(keys: seq<bool>, cols: nat, j: nat, down: bool, key: Key)
    requires cols > 0 && j < |keys|
    ensures IsKnownDown(keys, cols, KeyOf(j, cols)) <==> keys[j]
    ensures key != KeyOf(j, cols) ==> (IsKnownDown(keys[j := down], cols, key) <==> IsKnownDown(keys, cols, key))
  {
    if IsKnownDown(keys, cols, KeyOf(j, cols)) {
      var i :| 0 <= i < |keys| && KeyOf(i, cols) == KeyOf(j, cols) && keys[i];
      PlaceOfKey(i, cols);
      PlaceOfKey(j, cols);
    }
    if key != KeyOf(j, cols) {
      if i :| 0 <= i < |keys| && KeyOf(i, cols) == key && keys[i] {
        assert keys[j := down][i];
      }
      if i :| 0 <= i < |keys| && KeyOf(i, cols) == key && keys[j := down][i] {
        assert keys[i];
      }
    }
  }

  lemma HandledMatches(inputs: seq<Input>, keys: seq<bool>, cols: nat, j: nat)
    requires cols > 0 && Matches(inputs, keys, cols) && j < |keys|
    ensures Matches(inputs + [Handled(KeyOf(j, cols), !keys[j])], keys[j := !keys[j]], cols)
  {
    var next, after := inputs + [Handled(KeyOf(j, cols), !keys[j])], keys[j := !keys[j]];
    assert next[..|inputs|] == inputs;
    KnownDownAt(keys, cols, j, !keys[j], KeyOf(j, cols));
    KnownDownAt(after, cols, j, keys[j], KeyOf(j, cols));
    forall key
      ensures key in Down(next) <==> IsKnownDown(after, cols, key)
    {
      KnownDownAt(keys, cols, j, !keys[j], key);
    }
  }

  lemma CallMatches(inputs: seq<Input>, prev: seq<bool>, c: Call, cols: nat, next: seq<Input>)
    requires |prev| == |c.keys| && 0 < cols <= 255 && Matches(inputs, prev, cols)
    requires var e := EventOf(prev, c, cols);
      var seen := inputs + if e.pressed then [PressSeen] else [];
      next == if IsNoEvent(e) then seen else seen + [Handled(e.key, e.pressed)]
    ensures Matches(next, KeyboardEvents.Known(prev, c), cols)
  {
    var e, j := EventOf(prev, c, cols), FirstDiff(prev, c.keys, 0);
    assert inputs + [] == inputs;
    var seen := inputs + if e.pressed then [PressSeen] else [];
    SeenMatches(inputs, prev, cols);
    if j < |prev| {
      HandledMatches(seen, prev, cols, j);
    }
  }

  /** Over all runs: no key is pressed while it is down, and what is down is what the scanner knows. */
  lemma {:induction false} ScannerMatches(env: Env, calls: seq<Call>, n: nat, cols: nat)
    requires NoTaps(env) && Sized(calls, n) && 0 < cols <= 255
    ensures Matches(Inputs(env, Events(calls, n, cols)), KnownAfter(calls, n), cols)
  {
    if calls != [] {
      var before, last := calls[..|calls| - 1], calls[|calls| - 1];
      ScannerMatches(env, before, n, cols);
      var prev := KnownAfter(before, n);
      InputsNext(env, Events(before, n, cols), EventOf(prev, last, cols));
      CallMatches(Inputs(env, Events(before, n, cols)), prev, last, cols, Inputs(env, Events(calls, n, cols)));
    }
  }

  // ---------- nothing sticks, from the matrix to the report ----------

  /** With a keymap of plain keycodes, whenever the scanner knows no key as down, no modifier, layer or key
      code is on, whatever keys were pressed in whatever order before. */
  lemma AllUpNothingOn(env: Env, keycodes: Keycodes, defaults: set<nat>, calls: seq<Call>, n: nat, cols: nat)
    requires forall layer: nat, key: Key :: layer < MAX_LAYER ==> IsPlain(keycodes(layer, key))
    requires TapsAsMapped(env, Compiled(keycodes))
    requires Sized(calls, n) && 0 < cols <= 255 && forall i :: 0 <= i < n ==> !KnownAfter(calls, n)[i]
    ensures NoTaps(env) && Simple(Compiled(keycodes))
    ensures Run(Compiled(keycodes), defaults, Inputs(env, Events(calls, n, cols))).board
            == Board({}, {}, {}, defaults, {})
  {
    PlainKeysDoNotTap(env, keycodes);
    ScannerMatches(env, calls, n, cols);
    var inputs := Inputs(env, Events(calls, n, cols));
    assert Down(inputs) == {};
    PlainKeymapNeverSticks(keycodes, defaults, inputs);
  }

  lemma {:induction false} KnownContinues(calls: seq<Call>, up: seq<Call>, n: nat)
    requires Sized(calls, n) && Sized(up, n)
    ensures Sized(calls + up, n) && KnownAfter(calls + up, n) == KnownFrom(KnownAfter(calls, n), up)
  {
    if up == [] {
      assert calls + up == calls;
    } else {
      assert (calls + up)[..|calls + up| - 1] == calls + up[..|up| - 1];
      KnownContinues(calls, up[..|up| - 1], n);
    }
  }

  lemma {:induction false} DistanceBelow(a: seq<bool>, b: seq<bool>, k: nat)
    requires k <= |a| == |b|
    ensures DiffersIn(a, b, k) <= k
  {
    if k > 0 { DistanceBelow(a, b, k - 1); }
  }

  /** As many calls with all keys up as the matrix has keys switch everything off. */
  lemma ReleasedIsOff(env: Env, keycodes: Keycodes, defaults: set<nat>, calls: seq<Call>, up: seq<Call>, n: nat,
                      cols: nat)
    requires forall layer: nat, key: Key :: layer < MAX_LAYER ==> IsPlain(keycodes(layer, key))
    requires TapsAsMapped(env, Compiled(keycodes))
    requires Sized(calls, n) && 0 < cols <= 255 && |up| >= n
    requires forall i :: 0 <= i < |up| ==> up[i].keys == seq(n, k => false)
    ensures Sized(calls + up, n) && NoTaps(env) && Simple(Compiled(keycodes))
    ensures Run(Compiled(keycodes), defaults, Inputs(env, Events(calls + up, n, cols))).board
            == Board({}, {}, {}, defaults, {})
  {
    var none := seq(n, k => false);
    KnownContinues(calls, up, n);
    DistanceBelow(KnownAfter(calls, n), none, n);
    StableMatrixIsReached(KnownAfter(calls, n), none, up);
    AllUpNothingOn(env, keycodes, defaults, calls + up, n, cols);
  }

  // ---------- weak modifiers ----------

  /** Event k is the last press that was fed, and its key has the weak modifier m. */
  ghost predicate PressGives(env: Env, km: Keymap, defaults: set<nat>, events: seq<Event>, k: nat, m: nat)
    requires NoTaps(env) && Simple(km)
  {
    && k < |events| && events[k].pressed && (forall i :: k < i < |events| ==> !events[i].pressed)
    && IsWeak(PressFields(env, km, defaults, events[..k], events[k].key), m)
  }

  /** What a press resolves to that is fed after these events */
  ghost function PressFields(env: Env, km: Keymap, defaults: set<nat>, before: seq<Event>, key: Key): Fields
    requires NoTaps(env) && Simple(km)
  {
    Resolve(km, Run(km, defaults, Inputs(env, before) + [PressSeen]), Handled(key, true))
  }

  lemma SeenDropsAll(km: Keymap, defaults: set<nat>, inputs: seq<Input>)
    requires Simple(km)
    ensures Run(km, defaults, inputs + [PressSeen]).board.weakMods == {}
  {
    RunAppend(km, defaults, inputs, PressSeen);
  }

  lemma HandledWeak(km: Keymap, defaults: set<nat>, inputs: seq<Input>, key: Key, pressed: bool, m: nat)
    requires Simple(km)
    ensures var before := Run(km, defaults, inputs);
      m in Run(km, defaults, inputs + [Handled(key, pressed)]).board.weakMods
      ==> m in before.board.weakMods || (pressed && IsWeak(Resolve(km, before, Handled(key, pressed)), m))
    ensures var before := Run(km, defaults, inputs);
      pressed && IsWeak(Resolve(km, before, Handled(key, pressed)), m)
      ==> m in Run(km, defaults, inputs + [Handled(key, pressed)]).board.weakMods
  {
    RunAppend(km, defaults, inputs, Handled(key, pressed));
    StepWeak(km, Run(km, defaults, inputs), Handled(key, pressed), m);
  }

  /** Right after a press the weak modifiers are those of its key. */
  lemma WeakAfterPress(env: Env, km: Keymap, defaults: set<nat>, before: seq<Event>, e: Event, m: nat)
    requires NoTaps(env) && Simple(km) && e.pressed && !IsNoEvent(e)
    ensures m in Run(km, defaults, Inputs(env, before + [e])).board.weakMods
        <==> IsWeak(PressFields(env, km, defaults, before, e.key), m)
  {
    InputsNext(env, before, e);
    SeenDropsAll(km, defaults, Inputs(env, before));
    HandledWeak(km, defaults, Inputs(env, before) + [PressSeen], e.key, true, m);
  }

  lemma PressIsLast(env: Env, km: Keymap, defaults: set<nat>, before: seq<Event>, e: Event, m: nat)
    requires NoTaps(env) && Simple(km) && e.pressed && !IsNoEvent(e)
    requires m in Run(km, defaults, Inputs(env, before + [e])).board.weakMods
    ensures PressGives(env, km, defaults, before + [e], |before|, m)
  {
    WeakAfterPress(env, km, defaults, before, e, m);
    assert (before + [e])[..|before|] == before;
  }

  lemma WeakAfterOther(env: Env, km: Keymap, defaults: set<nat>, before: seq<Event>, e: Event, m: nat)
    requires NoTaps(env) && Simple(km) && !e.pressed
    requires m in Run(km, defaults, Inputs(env, before + [e])).board.weakMods
    ensures m in Run(km, defaults, Inputs(env, before)).board.weakMods
  {
    InputsNext(env, before, e);
    assert Inputs(env, before) + [] == Inputs(env, before);
    if !IsNoEvent(e) { HandledWeak(km, defaults, Inputs(env, before), e.key, false, m); }
  }

  lemma StillLast(env: Env, km: Keymap, defaults: set<nat>, before: seq<Event>, e: Event, k: nat, m: nat)
    requires NoTaps(env) && Simple(km) && !e.pressed && PressGives(env, km, defaults, before, k, m)
    ensures PressGives(env, km, defaults, before + [e], k, m)
  {
    assert (before + [e])[..k] == before[..k];
  }

  lemma NoneAtFirst(env: Env, km: Keymap, defaults: set<nat>)
    requires NoTaps(env) && Simple(km)
    ensures Run(km, defaults, Inputs(env, [])).board.weakMods == {}
  {
  }

  lemma SplitLast(events: seq<Event>)
    requires events != [] && TappingOrder.AllFed(events)
    ensures events == events[..|events| - 1] + [events[|events| - 1]]
    ensures TappingOrder.AllFed(events[..|events| - 1]) && Fed(events[|events| - 1])
  {
  }

  lemma {:induction false} WeakOfLast(env: Env, km: Keymap, defaults: set<nat>, before: seq<Event>, e: Event, m: nat)
    returns (k: nat)
    requires NoTaps(env) && Simple(km) && TappingOrder.AllFed(before) && Fed(e)
    requires m in Run(km, defaults, Inputs(env, before + [e])).board.weakMods
    ensures PressGives(env, km, defaults, before + [e], k, m)
    decreases |before|
  {
    if e.pressed {
      PressIsLast(env, km, defaults, before, e, m);
      k := |before|;
    } else {
      WeakAfterOther(env, km, defaults, before, e, m);
      NoneAtFirst(env, km, defaults);
      SplitLast(before);
      k := WeakOfLast(env, km, defaults, before[..|before| - 1], before[|before| - 1], m);
      StillLast(env, km, defaults, before, e, k, m);
    }
  }

  /** After any run: every weak modifier that is on is one of the key whose press was fed last. */
  lemma WeakOfLastPress(env: Env, km: Keymap, defaults: set<nat>, events: seq<Event>, m: nat) returns (k: nat)
    requires NoTaps(env) && Simple(km) && TappingOrder.AllFed(events)
    requires m in Run(km, defaults, Inputs(env, events)).board.weakMods
    ensures PressGives(env, km, defaults, events, k, m)
  {
    NoneAtFirst(env, km, defaults);
    SplitLast(events);
    k := WeakOfLast(env, km, defaults, events[..|events| - 1], events[|events| - 1], m);
  }

  /** From the matrix: after any calls the weak modifiers on are some of those of the key pressed last. */
  lemma ScannedWeak(env: Env, keycodes: Keycodes, defaults: set<nat>, calls: seq<Call>, n: nat, cols: nat, m: nat)
    requires forall layer: nat, key: Key :: layer < MAX_LAYER ==> IsPlain(keycodes(layer, key))
    requires TapsAsMapped(env, Compiled(keycodes)) && Sized(calls, n) && 0 < cols <= 255
    ensures NoTaps(env) && Simple(Compiled(keycodes))
    ensures var events := Events(calls, n, cols);
      m in Run(Compiled(keycodes), defaults, Inputs(env, events)).board.weakMods
      ==> exists k: nat :: PressGives(env, Compiled(keycodes), defaults, events, k, m)
  {
    PlainKeysDoNotTap(env, keycodes);
    PlainKeymapNeverSticks(keycodes, defaults, []);
    EventsAreFed(calls, n, cols);
    if m in Run(Compiled(keycodes), defaults, Inputs(env, Events(calls, n, cols))).board.weakMods {
      var k := WeakOfLastPress(env, Compiled(keycodes), defaults, Events(calls, n, cols), m);
    }
  }

  // ---------- a release before its press ----------

  function OneCode(layer: nat, key: Key): Keycode {
    0x04
  }

  lemma OneCodeIsSimple()
    ensures IsPlain(0x04) && Simple(Compiled(OneCode))
    ensures forall layer: nat, k: Key :: FieldsOf(Compiled(OneCode)(layer, k)) == KeyFields({}, 0x04)
  {
    BasicFields(0x04);
    forall layer: nat, k: Key
      ensures FieldsOf(Compiled(OneCode)(layer, k)) == KeyFields({}, 0x04)
    {
      assert OneCode(layer, k) == 0x04;
    }
  }

  lemma OneCodeHandled(s: State, defaults: set<nat>, key: Key, pressed: bool)
    requires KeyActions.Known(s) && Simple(Compiled(OneCode)) && s.board == Board({}, {}, {}, defaults, {})
    ensures Momentary(Resolve(Compiled(OneCode), s, Handled(key, pressed)))
    ensures Step(Compiled(OneCode), s, Handled(key, pressed)).board
            == Board({}, {}, {}, defaults, if pressed then {0x04} else {})
  {
    OneCodeIsSimple();
    var f := Resolve(Compiled(OneCode), s, Handled(key, pressed));
    assert f == KeyFields({}, 0x04);
    if pressed { PressSwitchesOn(s.board, f); } else { ReleaseSwitchesOff(s.board, f); }
  }

  /** What the tap machine can do to a plain key next to tap keys (TappingDrains.OrderCanBreak) leaves its code
      on: a release handled before its press switches nothing off. */
  lemma ReleaseFirstSticks(key: Key, defaults: set<nat>)
    ensures IsPlain(OneCode(0, key)) && Simple(Compiled(OneCode))
    ensures Run(Compiled(OneCode), defaults, [PressSeen, Handled(key, false), Handled(key, true)]).board
            == Board({}, {}, {}, defaults, {0x04})
  {
    OneCodeIsSimple();
    var km, inputs := Compiled(OneCode), [PressSeen, Handled(key, false), Handled(key, true)];
    assert inputs[..2][..1] == [PressSeen] && [PressSeen][..0] == [];
    assert Run(km, defaults, [PressSeen]).board == Board({}, {}, {}, defaults, {});
    OneCodeHandled(Run(km, defaults, [PressSeen]), defaults, key, false);
    OneCodeHandled(Run(km, defaults, inputs[..2]), defaults, key, true);
  }
}
