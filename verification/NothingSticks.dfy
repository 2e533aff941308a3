/** No stuck modifiers, layers or keys: what is on is always covered by what the presses of the held
    keys switched on, whatever happens to the layers meanwhile. */
module NothingSticks {
  import opened ActionCodes
  import opened KeyActions
  import opened KeyReport
  import opened TapRecords
  import opened WordSets

  // ---------- effects ----------

  /** What the press of an action switches on. */
  datatype Effect = Effect(mods: set<nat>, weak: set<nat>, layers: set<nat>, keys: set<bv16>)

  const NOTHING := Effect({}, {}, {}, {})

  function EffectOf(f: Fields): Effect {
    match f
    case KeyFields(mods, code) =>
      if IsModCode(code) then Effect(mods + {ModBit(code)}, {}, {}, {})
      else if code == 0 then Effect(mods, {}, {}, {})
      else Effect({}, mods, {}, if IsKeyCode(code) then {code} else {})
    case LayerModsFields(layer, mods) => Effect(mods, {}, {layer}, {})
    case MomentaryFields(layer) => Effect({}, {}, {layer}, {})
    case OtherFields => NOTHING
  }

  function Join(e: Effect, f: Effect): Effect {
    Effect(e.mods + f.mods, e.weak + f.weak, e.layers + f.layers, e.keys + f.keys)
  }

  /** Everything that is on is in the effect. */
  predicate Covered(b: Board, e: Effect) {
    b.realMods <= e.mods && b.weakMods <= e.weak && b.layers <= e.layers && b.keys <= e.keys
  }

  lemma KeySwitchesOn(b: Board, mods: set<nat>, code: bv16)
    requires IsPlainCode(code)
    ensures var e := EffectOf(KeyFields(mods, code));
      Process(b, KeyFields(mods, code), true)
        == Board(b.realMods + e.mods, b.weakMods + e.weak, b.layers + e.layers, b.defaults, Fit(b.keys, e.keys))
  {
    FitNothing(b.keys);
  }

  /** A press switches on its effect and nothing else, its key code if the report has room; a key that changes
      layers drops the weak modifiers. */
  lemma PressSwitchesOn(b: Board, f: Fields)
    requires Momentary(f)
    ensures var e := EffectOf(f);
      Process(b, f, true) == Board(b.realMods + e.mods, if f.KeyFields? then b.weakMods + e.weak else {},
                                   b.layers + e.layers, b.defaults, Fit(b.keys, e.keys))
  {
    match f
    case KeyFields(mods, code) => KeySwitchesOn(b, mods, code);
    case _ => FitNothing(b.keys);
  }

  /** A release switches off exactly what the press of the same action switched on. */
  lemma ReleaseSwitchesOff(b: Board, f: Fields)
    requires Momentary(f)
    ensures var e := EffectOf(f);
      Process(b, f, false) == Board(b.realMods - e.mods, if f.KeyFields? then b.weakMods - e.weak else {},
                                    b.layers - e.layers, b.defaults, b.keys - e.keys)
  {
  }

  lemma ReleaseKeepsCover(b: Board, e: Effect, f: Fields)
    requires Momentary(f) && (Covered(b, Join(e, EffectOf(f))) || Covered(b, e))
    ensures Covered(Process(b, f, false), e)
  {
  }

  lemma JoinOrder(e: Effect, f: Effect, g: Effect)
    ensures Join(Join(e, f), g) == Join(Join(e, g), f)
    ensures Join(NOTHING, e) == e
  {
  }

  // ---------- the held keys ----------

  /** A key that is down, with the action its press resolved to, and whether its code found room */
  datatype Held = Held(key: Key, action: Action, fits: bool)

  predicate FindsRoom(b: Board, a: Action) {
    |b.keys + EffectOf(FieldsOf(a)).keys| <= REPORT_KEYS
  }

  function Pressed(km: Keymap, s: State, key: Key): Held {
    var a := km(Lookup(km, s, key), key);
    Held(key, a, FindsRoom(s.board, a))
  }

  function Union(held: seq<Held>): Effect {
    if held == [] then NOTHING else Join(Union(held[..|held| - 1]), EffectOf(FieldsOf(held[|held| - 1].action)))
  }

  /** The keys that are down after a run, a matter of the input alone */
  function Down(inputs: seq<Input>): set<Key> {
    if inputs == [] then {}
    else
      var down := Down(inputs[..|inputs| - 1]);
      match inputs[|inputs| - 1]
      case PressSeen => down
      case Handled(key, pressed) => if pressed then down + {key} else down - {key}
  }

  /** No key is pressed while it is down. */
  predicate Proper(inputs: seq<Input>) {
    inputs == [] ||
    (Proper(inputs[..|inputs| - 1]) &&
     var last := inputs[|inputs| - 1];
     last.Handled? && last.pressed ==> last.key !in Down(inputs[..|inputs| - 1]))
  }

  function Without(held: seq<Held>, key: Key): seq<Held> {
    if held == [] then []
    else
      var rest := Without(held[..|held| - 1], key);
      if held[|held| - 1].key == key then rest else rest + [held[|held| - 1]]
  }

  /** The held keys and the actions of their presses, in the order of the presses */
  ghost function Holding(km: Keymap, defaults: set<nat>, inputs: seq<Input>): seq<Held>
    requires Simple(km)
  {
    if inputs == [] then []
    else
      var before := inputs[..|inputs| - 1];
      var held := Holding(km, defaults, before);
      match inputs[|inputs| - 1]
      case PressSeen => held
      case Handled(key, pressed) =>
        if pressed then held + [Pressed(km, Run(km, defaults, before), key)]
        else Without(held, key)
  }

  function KeysOf(held: seq<Held>): set<Key> {
    set h | h in held :: h.key
  }

  predicate Distinct(held: seq<Held>) {
    forall i, j :: 0 <= i < j < |held| ==> held[i].key != held[j].key
  }

  lemma {:induction false} WithoutKeys(held: seq<Held>, key: Key)
    requires Distinct(held)
    ensures forall h :: h in Without(held, key) <==> h in held && h.key != key
    ensures Distinct(Without(held, key)) && |Without(held, key)| <= |held|
  {
    if held != [] {
      WithoutKeys(held[..|held| - 1], key);
      assert held == held[..|held| - 1] + [held[|held| - 1]];
    }
  }

  lemma {:induction false} WithoutAbsent(held: seq<Held>, key: Key)
    requires key !in KeysOf(held)
    ensures Without(held, key) == held
  {
    if held != [] {
      assert held == held[..|held| - 1] + [held[|held| - 1]];
      assert held[|held| - 1] in held;
      assert forall h :: h in held[..|held| - 1] ==> h in held;
      WithoutAbsent(held[..|held| - 1], key);
    }
  }

  /** Taking a held key out of the union takes its own effect out. */
  lemma {:induction false} UnionWithout(held: seq<Held>, i: nat)
    requires Distinct(held) && i < |held|
    ensures Union(held) == Join(Union(Without(held, held[i].key)), EffectOf(FieldsOf(held[i].action)))
  {
    var init, last := held[..|held| - 1], held[|held| - 1];
    if i == |held| - 1 {
      assert forall h :: h in init ==> h.key != last.key;
      WithoutAbsent(init, last.key);
    } else {
      UnionWithout(init, i);
      var rest := Without(init, held[i].key);
      assert (rest + [last])[..|rest|] == rest;
      JoinOrder(Union(rest), EffectOf(FieldsOf(held[i].action)), EffectOf(FieldsOf(last.action)));
    }
  }

  // ---------- the invariant of all runs ----------

  /** The cache still knows the layer each held key was pressed on. */
  ghost predicate Remembered(km: Keymap, s: State, held: seq<Held>)
    requires Known(s) && Simple(km)
  {
    forall h :: h in held ==> km(Source(s, h.key), h.key) == h.action
  }

  ghost predicate Invariant(km: Keymap, s: State, held: seq<Held>, down: set<Key>)
    requires Known(s) && Simple(km)
  {
    Distinct(held) && KeysOf(held) == down && Remembered(km, s, held) && Covered(s.board, Union(held))
  }

  /** The board after a press, and after a release, whatever the layers are */
  lemma CoverAfterPress(b: Board, held: seq<Held>, h: Held, f: Fields)
    requires Momentary(f) && f == FieldsOf(h.action) && Covered(b, Union(held))
    ensures Covered(Process(b, f, true), Union(held + [h]))
  {
    PressSwitchesOn(b, f);
    assert (held + [h])[..|held|] == held;
  }

  lemma CoverAfterRelease(b: Board, held: seq<Held>, key: Key, f: Fields)
    requires Momentary(f) && Distinct(held) && Covered(b, Union(held))
    requires forall h :: h in held && h.key == key ==> FieldsOf(h.action) == f
    ensures Covered(Process(b, f, false), Union(Without(held, key)))
  {
    if key in KeysOf(held) {
      var h :| h in held && h.key == key;
      var i :| 0 <= i < |held| && held[i] == h;
      UnionWithout(held, i);
    } else {
      WithoutAbsent(held, key);
    }
    ReleaseKeepsCover(b, Union(Without(held, key)), f);
  }

  lemma DistinctAppend(held: seq<Held>, h: Held)
    requires Distinct(held) && h.key !in KeysOf(held)
    ensures Distinct(held + [h]) && KeysOf(held + [h]) == KeysOf(held) + {h.key}
  {
  }

  lemma RememberedPress(km: Keymap, s: State, held: seq<Held>, key: Key, t: State)
    requires Known(s) && Simple(km) && Remembered(km, s, held) && key !in KeysOf(held)
    requires Known(t) && t.source == s.source[key := Lookup(km, s, key)]
    ensures Remembered(km, t, held + [Pressed(km, s, key)])
  {
  }

  lemma StepPress(km: Keymap, s: State, held: seq<Held>, down: set<Key>, key: Key)
    requires Known(s) && Simple(km) && Invariant(km, s, held, down) && key !in down
    ensures Invariant(km, Step(km, s, Handled(key, true)), held + [Pressed(km, s, key)], down + {key})
  {
    var h := Pressed(km, s, key);
    DistinctAppend(held, h);
    RememberedPress(km, s, held, key, Step(km, s, Handled(key, true)));
    CoverAfterPress(s.board, held, h, FieldsOf(h.action));
  }

  lemma StepRelease(km: Keymap, s: State, held: seq<Held>, down: set<Key>, key: Key)
    requires Known(s) && Simple(km) && Invariant(km, s, held, down)
    ensures Invariant(km, Step(km, s, Handled(key, false)), Without(held, key), down - {key})
  {
    WithoutKeys(held, key);
    CoverAfterRelease(s.board, held, key, FieldsOf(km(Source(s, key), key)));
    assert KeysOf(Without(held, key)) == down - {key};
  }

  lemma {:induction false} RunInvariant(km: Keymap, defaults: set<nat>, inputs: seq<Input>)
    requires Simple(km) && Proper(inputs)
    ensures Invariant(km, Run(km, defaults, inputs), Holding(km, defaults, inputs), Down(inputs))
  {
    if inputs != [] {
      var before := inputs[..|inputs| - 1];
      RunInvariant(km, defaults, before);
      var s, held, down := Run(km, defaults, before), Holding(km, defaults, before), Down(before);
      match inputs[|inputs| - 1]
      case PressSeen =>
      case Handled(key, pressed) =>
        if pressed { StepPress(km, s, held, down, key); } else { StepRelease(km, s, held, down, key); }
    }
  }

  /** The release of a key resolves to the action its press resolved to, whatever the layers did
      in between. */
  lemma ReleaseResolvesAsPress(km: Keymap, defaults: set<nat>, inputs: seq<Input>, h: Held)
    requires Simple(km) && Proper(inputs) && h in Holding(km, defaults, inputs)
    ensures km(Source(Run(km, defaults, inputs), h.key), h.key) == h.action
  {
    RunInvariant(km, defaults, inputs);
  }

  lemma {:induction false} DefaultsStay(km: Keymap, defaults: set<nat>, inputs: seq<Input>)
    requires Simple(km)
    ensures Run(km, defaults, inputs).board.defaults == defaults
  {
    if inputs != [] {
      DefaultsStay(km, defaults, inputs[..|inputs| - 1]);
    }
  }

  /** Nothing is on that the press of a key still held did not switch on; with all keys up, nothing is on. */
  lemma NoneStuck(km: Keymap, defaults: set<nat>, inputs: seq<Input>)
    requires Simple(km) && Proper(inputs)
    ensures var b := Run(km, defaults, inputs).board;
      && Covered(b, Union(Holding(km, defaults, inputs)))
      && KeysOf(Holding(km, defaults, inputs)) == Down(inputs)
      && (Down(inputs) == {} ==> b == Board({}, {}, {}, defaults, {}))
  {
    DefaultsStay(km, defaults, inputs);
    RunInvariant(km, defaults, inputs);
    var held := Holding(km, defaults, inputs);
    if held != [] {
      assert held[0].key in KeysOf(held);
    }
  }

  // ---------- a switch that only one key works ----------

  datatype Switch = Modifier(bit: nat) | Layer(layer: nat) | ReportKey(code: bv16)

  predicate IsOn(b: Board, w: Switch) {
    match w
    case Modifier(bit) => bit in b.realMods
    case Layer(layer) => layer in b.layers
    case ReportKey(code) => code in b.keys
  }

  predicate Works(a: Action, w: Switch) {
    var e := EffectOf(FieldsOf(a));
    match w
    case Modifier(bit) => bit in e.mods
    case Layer(layer) => layer in e.layers
    case ReportKey(code) => code in e.keys
  }

  ghost predicate OnlyKey(km: Keymap, key: Key, w: Switch) {
    forall layer: nat, other: Key :: layer < MAX_LAYER && other != key ==> !Works(km(layer, other), w)
  }

  predicate HeldFor(held: seq<Held>, key: Key, w: Switch) {
    exists h :: h in held && HoldsFor(h, key, w)
  }

  lemma PressWorks(b: Board, a: Action, w: Switch)
    requires Momentary(FieldsOf(a))
    ensures IsOn(Process(b, FieldsOf(a), true), w)
            <==> IsOn(b, w) || (Works(a, w) && (w.ReportKey? ==> FindsRoom(b, a)))
    ensures IsOn(Process(b, FieldsOf(a), false), w) <==> IsOn(b, w) && !Works(a, w)
  {
  }

  predicate HoldsFor(h: Held, key: Key, w: Switch) {
    h.key == key && Works(h.action, w) && (w.ReportKey? ==> h.fits)
  }

  lemma HeldForMore(held: seq<Held>, h: Held, key: Key, w: Switch)
    ensures HeldFor(held + [h], key, w) <==> HeldFor(held, key, w) || HoldsFor(h, key, w)
  {
  }

  lemma PressExact(km: Keymap, s: State, held: seq<Held>, down: set<Key>, at: Key, key: Key, w: Switch)
    requires Known(s) && Simple(km) && Invariant(km, s, held, down) && OnlyKey(km, key, w) && at !in down
    requires IsOn(s.board, w) <==> HeldFor(held, key, w)
    ensures IsOn(Step(km, s, Handled(at, true)).board, w) <==> HeldFor(held + [Pressed(km, s, at)], key, w)
  {
    var h := Pressed(km, s, at);
    PressWorks(s.board, h.action, w);
    HeldForMore(held, h, key, w);
  }

  lemma ReleaseExact(km: Keymap, s: State, held: seq<Held>, down: set<Key>, at: Key, key: Key, w: Switch)
    requires Known(s) && Simple(km) && Invariant(km, s, held, down) && OnlyKey(km, key, w)
    requires IsOn(s.board, w) <==> HeldFor(held, key, w)
    ensures IsOn(Step(km, s, Handled(at, false)).board, w) <==> HeldFor(Without(held, at), key, w)
  {
    var a := km(Source(s, at), at);
    PressWorks(s.board, a, w);
    WithoutKeys(held, at);
    if at == key && HeldFor(held, key, w) {
      var h :| h in held && HoldsFor(h, key, w);
      assert a == h.action;
    }
  }

  /** A modifier, layer or key code that only one key works is on exactly while that key is held
      with an action that switches it on, and for a key code, one that found room in the report. */
  lemma {:induction false} OnExactlyWhileHeld(km: Keymap, defaults: set<nat>, inputs: seq<Input>, key: Key, w: Switch)
    requires Simple(km) && Proper(inputs) && OnlyKey(km, key, w)
    ensures IsOn(Run(km, defaults, inputs).board, w) <==> HeldFor(Holding(km, defaults, inputs), key, w)
  {
    if inputs != [] {
      var before := inputs[..|inputs| - 1];
      OnExactlyWhileHeld(km, defaults, before, key, w);
      RunInvariant(km, defaults, before);
      var s, held, down := Run(km, defaults, before), Holding(km, defaults, before), Down(before);
      match inputs[|inputs| - 1]
      case PressSeen =>
      case Handled(at, pressed) =>
        if pressed { PressExact(km, s, held, down, at, key, w); } else { ReleaseExact(km, s, held, down, at, key, w); }
    }
  }

  // ---------- six keys find room ----------

  lemma OneCode(f: Fields)
    ensures |EffectOf(f).keys| <= 1
  {
  }

  lemma {:induction false} UnionIsSmall(held: seq<Held>)
    ensures |Union(held).keys| <= |held|
  {
    if held != [] {
      var init := held[..|held| - 1];
      UnionIsSmall(init);
      var last := FieldsOf(held[|held| - 1].action);
      OneCode(last);
      UnionCard(Union(init).keys, EffectOf(last).keys);
    }
  }

  lemma {:induction false} HeldCount(held: seq<Held>)
    requires Distinct(held)
    ensures |held| == |KeysOf(held)|
  {
    if held == [] {
      assert KeysOf(held) == {};
    } else {
      var init, last := held[..|held| - 1], held[|held| - 1];
      HeldCount(init);
      assert held == init + [last];
      assert KeysOf(held) == KeysOf(init) + {last.key};
      assert last.key !in KeysOf(init);
    }
  }

  lemma RoomWhenFewHeld(b: Board, held: seq<Held>, a: Action)
    requires Covered(b, Union(held)) && |held| < REPORT_KEYS
    ensures FindsRoom(b, a)
  {
    UnionIsSmall(held);
    OneCode(FieldsOf(a));
    UnionCard(b.keys, Union(held).keys);
    UnionCard(b.keys, EffectOf(FieldsOf(a)).keys);
  }

  /** As long as no more than six keys are down, every one of them finds room. */
  lemma {:induction false} SixKeysFit(km: Keymap, defaults: set<nat>, inputs: seq<Input>)
    requires Simple(km) && Proper(inputs)
    requires forall k :: 0 <= k <= |inputs| ==> |Down(inputs[..k])| <= REPORT_KEYS
    ensures forall h :: h in Holding(km, defaults, inputs) ==> h.fits
  {
    if inputs != [] {
      var before, last := inputs[..|inputs| - 1], inputs[|inputs| - 1];
      assert forall k :: 0 <= k <= |before| ==> before[..k] == inputs[..k];
      SixKeysFit(km, defaults, before);
      RunInvariant(km, defaults, before);
      var s, held := Run(km, defaults, before), Holding(km, defaults, before);
      if last.Handled? && last.pressed {
        HeldCount(held);
        assert inputs[..|inputs|] == inputs;
        assert |Down(before) + {last.key}| == |Down(before)| + 1;
        RoomWhenFewHeld(s.board, held, km(Lookup(km, s, last.key), last.key));
      } else if last.Handled? {
        WithoutKeys(held, last.key);
      }
    }
  }

  // ---------- why a press must not repeat ----------

  lemma TwoFit(e: set<bv16>, h: set<bv16>)
    requires |e| <= 1 && |h| <= 1
    ensures Fit({}, e) == e && Fit(e, h) == e + h
  {
  }

  lemma FirstPress(f: Fields, defaults: set<nat>)
    requires Momentary(f)
    ensures var e := EffectOf(f);
      Process(Board({}, {}, {}, defaults, {}), f, true) == Board(e.mods, e.weak, e.layers, defaults, e.keys)
  {
    OneCode(f);
    TwoFit(EffectOf(f).keys, {});
    PressSwitchesOn(Board({}, {}, {}, defaults, {}), f);
  }

  lemma TwoPresses(f: Fields, g: Fields, defaults: set<nat>)
    requires Momentary(f) && Momentary(g)
    ensures var e, h := EffectOf(f), EffectOf(g);
      Process(Process(Board({}, {}, {}, defaults, {}), f, true), g, true)
      == Board(e.mods + h.mods, if g.KeyFields? then e.weak + h.weak else {}, e.layers + h.layers, defaults,
               e.keys + h.keys)
  {
    OneCode(f);
    OneCode(g);
    TwoFit(EffectOf(f).keys, EffectOf(g).keys);
    FirstPress(f, defaults);
    PressSwitchesOn(Process(Board({}, {}, {}, defaults, {}), f, true), g);
  }

  /** What two presses of one key, as f and then as g, leave on after its release: what the first
      switched on and the second did not. */
  lemma SecondPressLeaves(f: Fields, g: Fields, defaults: set<nat>)
    requires Momentary(f) && Momentary(g)
    ensures var b := Process(Process(Process(Board({}, {}, {}, defaults, {}), f, true), g, true), g, false);
      var e, h := EffectOf(f), EffectOf(g);
      && b == Board(e.mods - h.mods, if g.KeyFields? then e.weak - h.weak else {}, e.layers - h.layers, defaults,
                    e.keys - h.keys)
      && (b == Board({}, {}, {}, defaults, {}) <==>
            && e.mods <= h.mods && e.layers <= h.layers && e.keys <= h.keys
            && (g.KeyFields? ==> e.weak <= h.weak))
  {
    TwoPresses(f, g, defaults);
    ReleaseLeaves(EffectOf(f), g, defaults);
  }

  lemma ReleaseLeaves(e: Effect, g: Fields, defaults: set<nat>)
    requires Momentary(g)
    ensures var h := EffectOf(g);
      var b := Board(e.mods + h.mods, if g.KeyFields? then e.weak + h.weak else {}, e.layers + h.layers, defaults,
                     e.keys + h.keys);
      var r := Process(b, g, false);
      && r == Board(e.mods - h.mods, if g.KeyFields? then e.weak - h.weak else {}, e.layers - h.layers, defaults,
                    e.keys - h.keys)
      && (r == Board({}, {}, {}, defaults, {}) <==>
            && e.mods <= h.mods && e.layers <= h.layers && e.keys <= h.keys
            && (g.KeyFields? ==> e.weak <= h.weak))
  {
    var h := EffectOf(g);
    ReleaseSwitchesOff(Board(e.mods + h.mods, if g.KeyFields? then e.weak + h.weak else {}, e.layers + h.layers,
                             defaults, e.keys + h.keys), g);
    AddThenDrop(e.mods, h.mods);
    AddThenDrop(e.weak, h.weak);
    AddThenDrop(e.layers, h.layers);
    AddThenDrop(e.keys, h.keys);
  }

  lemma AddThenDrop<T>(a: set<T>, b: set<T>)
    ensures (a + b) - b == a - b
    ensures a - b == {} <==> a <= b
  {
    if a - b == {} {
      forall x | x in a
        ensures x in b
      {
        assert x !in a - b;
      }
    }
  }

  const SHIFTED := Key(0, 0)
  const MOMENTARY := Key(0, 1)

  /** Shift on layer 0 and A on layer 1 of one key, MO(1) on the other */
  function TwoKeys(layer: nat, key: Key): Action {
    if key == MOMENTARY then LayerMomentary(1) else if layer == 0 then 0xE1 else 0x04
  }

  lemma TwoKeysFields()
    ensures FieldsOf(LayerMomentary(1)) == MomentaryFields(1)
    ensures FieldsOf(0xE1) == KeyFields({}, 0xE1) && FieldsOf(0x04) == KeyFields({}, 0x04)
    ensures Simple(TwoKeys)
  {
    NoMods();
    assert KeyMods(0xE1) == 0 && KeyMods(0x04) == 0;
  }

  lemma RunAppend(km: Keymap, defaults: set<nat>, inputs: seq<Input>, input: Input)
    requires Simple(km)
    ensures Run(km, defaults, inputs + [input]) == Step(km, Run(km, defaults, inputs), input)
    ensures Down(inputs + [input]) ==
      if input.PressSeen? then Down(inputs)
      else if input.pressed then Down(inputs) + {input.key} else Down(inputs) - {input.key}
  {
  }

  lemma ShiftedOnLayer0(s: State)
    requires Known(s) && Simple(TwoKeys) && s.board.layers == {} && s.board.defaults == {0}
    ensures var t := Step(TwoKeys, s, Handled(SHIFTED, true)).board;
      t.layers == {} && t.defaults == {0} && 1 in t.realMods
  {
  }

  lemma MomentaryPressed(s: State)
    requires Known(s) && Simple(TwoKeys) && s.board.layers == {}
    ensures var t := Step(TwoKeys, s, Handled(MOMENTARY, true)).board;
      t.layers == {1} && t.defaults == s.board.defaults && t.realMods == s.board.realMods
  {
  }

  lemma ShiftedOnLayer1(s: State)
    requires Known(s) && Simple(TwoKeys) && s.board.layers == {1} && s.board.defaults == {0}
    ensures var t := Step(TwoKeys, s, Handled(SHIFTED, true));
      t.board.realMods == s.board.realMods && Source(t, SHIFTED) == 1
  {
    TwoKeysFields();
    assert TwoKeys(1, SHIFTED) == 0x04 && 1 in s.board.layers + s.board.defaults;
    assert Shows(TwoKeys, s.board.layers + s.board.defaults, SHIFTED, 1);
    assert Lookup(TwoKeys, s, SHIFTED) == 1;
  }

  lemma BothReleased(s: State)
    requires Known(s) && Simple(TwoKeys) && Source(s, SHIFTED) == 1
    ensures var t := Step(TwoKeys, s, Handled(SHIFTED, false));
      Step(TwoKeys, t, Handled(MOMENTARY, false)).board.realMods == s.board.realMods
  {
  }

  /** Shift is held, and then the layer key. */
  lemma ShiftHeld() returns (inputs: seq<Input>)
    ensures Simple(TwoKeys) && Down(inputs) == {SHIFTED, MOMENTARY}
    ensures var b := Run(TwoKeys, {0}, inputs).board; b.layers == {1} && b.defaults == {0} && 1 in b.realMods
  {
    TwoKeysFields();
    RunAppend(TwoKeys, {0}, [], Handled(SHIFTED, true));
    ShiftedOnLayer0(Run(TwoKeys, {0}, []));
    inputs := [] + [Handled(SHIFTED, true)];
    RunAppend(TwoKeys, {0}, inputs, Handled(MOMENTARY, true));
    MomentaryPressed(Run(TwoKeys, {0}, inputs));
    inputs := inputs + [Handled(MOMENTARY, true)];
  }

  lemma SecondPress() returns (inputs: seq<Input>)
    ensures Simple(TwoKeys) && Down(inputs) == {SHIFTED, MOMENTARY}
    ensures var s := Run(TwoKeys, {0}, inputs); 1 in s.board.realMods && Source(s, SHIFTED) == 1
  {
    inputs := ShiftHeld();
    RunAppend(TwoKeys, {0}, inputs, Handled(SHIFTED, true));
    ShiftedOnLayer1(Run(TwoKeys, {0}, inputs));
    inputs := inputs + [Handled(SHIFTED, true)];
  }

  /** The release of a key that was never pressed is looked up on layer 0. */
  lemma {:induction false} NeverPressed(km: Keymap, defaults: set<nat>, inputs: seq<Input>, key: Key)
    requires Simple(km) && forall i :: 0 <= i < |inputs| ==> inputs[i] != Handled(key, true)
    ensures LayerOf(km, Run(km, defaults, inputs), Handled(key, false)) == 0
  {
    if inputs != [] {
      NeverPressed(km, defaults, inputs[..|inputs| - 1], key);
    }
  }

  /** A run with two presses of one key on two layers, which no scanner sends: the condition on presses
      in Proper cannot be dropped. */
  lemma TwoPressesStick()
    ensures Simple(TwoKeys)
    ensures exists inputs :: Down(inputs) == {} && IsOn(Run(TwoKeys, {0}, inputs).board, Modifier(1))
  {
    var inputs := SecondPress();
    RunAppend(TwoKeys, {0}, inputs, Handled(SHIFTED, false));
    RunAppend(TwoKeys, {0}, inputs + [Handled(SHIFTED, false)], Handled(MOMENTARY, false));
    BothReleased(Run(TwoKeys, {0}, inputs));
    var all := inputs + [Handled(SHIFTED, false)] + [Handled(MOMENTARY, false)];
    assert Down(all) == {} && IsOn(Run(TwoKeys, {0}, all).board, Modifier(1));
  }
}
