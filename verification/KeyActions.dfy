/** What plain keys, modifiers, modified keys, momentary layers and layers with modifiers do to the
    modifiers, the layers and the report (quantum/action.c), and on which layer a key is looked up
    (quantum/action_layer.c). */
module KeyActions {
  import opened ActionCodes
  import opened KeyReport
  import opened TapRecords
  import opened WordSets

  /** The registers the actions change, as sets of bit numbers: eight modifiers, the layers and the
      default layers; the report is the set of its key codes, at most six. */
  datatype Board = Board(realMods: set<nat>, weakMods: set<nat>, layers: set<nat>, defaults: set<nat>, keys: set<bv16>)

  predicate IsKeyCode(code: bv16) {
    0x04 <= code <= 0xA4
  }

  predicate IsModCode(code: bv16) {
    0xE0 <= code <= 0xE7
  }

  predicate IsLocking(code: bv16) {
    0x82 <= code <= 0x84
  }

  /** Codes of the keyboard page that the host's locks do not change: not those of the mouse, the system and
      the consumer page, which go into reports of their own. */
  predicate IsPlainCode(code: bv16) {
    (code <= 0xA4 || IsModCode(code)) && !IsLocking(code)
  }

  /** The bit of MOD_BIT(code) */
  function ModBit(code: bv16): nat {
    (code & 7) as nat
  }

  // ---------- the fields of an action ----------

  /** What process_action reads from an action: a key with the modifiers of one hand, a layer with
      modifiers, a momentary layer, or anything else. */
  datatype Fields =
    | KeyFields(mods: set<nat>, code: bv16)
    | LayerModsFields(layer: nat, mods: set<nat>)
    | MomentaryFields(layer: nat)
    | OtherFields

  function FieldsOf(a: Action): Fields {
    var kind := Kind(a);
    if kind == ACT_LMODS then KeyFields(ModSet(KeyMods(a) as bv8), KeyCode(a))
    else if kind == ACT_RMODS then KeyFields(ModSet((KeyMods(a) << 4) as bv8), KeyCode(a))
    else if kind == ACT_LAYER_MODS then LayerModsFields(LayerModsLayer(a) as nat, ModSet(KeyCode(a) as bv8))
    else if (kind == ACT_LAYER_TAP || kind == ACT_LAYER_TAP_EXT) && KeyCode(a) == OP_ON_OFF then
      MomentaryFields(TapLayer(a) as nat)
    else OtherFields
  }

  /** The actions whose release is meant to undo their press */
  predicate Momentary(f: Fields) {
    !f.OtherFields? && (f.KeyFields? ==> IsPlainCode(f.code))
  }

  // ---------- process_action ----------

  function RegisterCode(b: Board, code: bv16): Board {
    if IsKeyCode(code) then b.(keys := Fit(b.keys, {code}))
    else if IsModCode(code) then b.(realMods := b.realMods + {ModBit(code)})
    else b
  }

  function UnregisterCode(b: Board, code: bv16): Board {
    if IsKeyCode(code) then b.(keys := b.keys - {code})
    else if IsModCode(code) then b.(realMods := b.realMods - {ModBit(code)})
    else b
  }

  /** Modifiers with an ordinary key are weak: any later press drops them. */
  predicate ModsAreReal(code: bv16) {
    IsModCode(code) || code == 0
  }

  function AddMods(b: Board, code: bv16, mods: set<nat>): Board {
    if ModsAreReal(code) then b.(realMods := b.realMods + mods) else b.(weakMods := b.weakMods + mods)
  }

  function DelMods(b: Board, code: bv16, mods: set<nat>): Board {
    if ModsAreReal(code) then b.(realMods := b.realMods - mods) else b.(weakMods := b.weakMods - mods)
  }

  /** Every change of the layers drops the weak modifiers. */
  function SetLayers(b: Board, layers: set<nat>): Board {
    b.(layers := layers, weakMods := {})
  }

  function Process(b: Board, f: Fields, pressed: bool): Board
    requires Momentary(f)
  {
    match f
    case KeyFields(mods, code) =>
      if pressed then RegisterCode(AddMods(b, code, mods), code) else DelMods(UnregisterCode(b, code), code, mods)
    case LayerModsFields(layer, mods) =>
      if pressed then
        var on := SetLayers(b, b.layers + {layer});
        on.(realMods := on.realMods + mods)
      else
        var off := b.(realMods := b.realMods - mods);
        SetLayers(off, off.layers - {layer})
    case MomentaryFields(layer) => SetLayers(b, if pressed then b.layers + {layer} else b.layers - {layer})
  }

  // ---------- the layer a key is looked up on ----------

  const MAX_LAYER := 32

  type Keymap = (nat, Key) -> Action

  predicate Shows(km: Keymap, active: set<nat>, key: Key, i: nat) {
    i in active && km(i, key) != ACTION_TRANSPARENT
  }

  /** layer_switch_get_layer from a layer downwards: the highest active layer on which the key is not
      transparent, else layer 0 */
  function TopLayer(km: Keymap, active: set<nat>, key: Key, below: nat): (layer: nat)
    requires below <= MAX_LAYER
    ensures layer < MAX_LAYER
    ensures forall i :: 0 <= i < below && Shows(km, active, key, i) ==> i <= layer
    ensures layer != 0 ==> layer < below && Shows(km, active, key, layer)
  {
    if below == 0 then 0
    else if Shows(km, active, key, below - 1) then below - 1
    else TopLayer(km, active, key, below - 1)
  }

  /** The registers, and for each key the layer its last press was looked up on */
  datatype State = State(board: Board, source: map<Key, nat>)

  function Source(s: State, key: Key): nat {
    if key in s.source then s.source[key] else 0
  }

  function Lookup(km: Keymap, s: State, key: Key): nat {
    TopLayer(km, s.board.layers + s.board.defaults, key, MAX_LAYER)
  }

  /** action_exec sees a press, or process_record handles an event. Tap keys elsewhere on the board
      can delay the second, so a run may interleave them in any way. */
  datatype Input = PressSeen | Handled(key: Key, pressed: bool)

  ghost predicate Simple(km: Keymap) {
    forall layer: nat, key: Key :: layer < MAX_LAYER ==> Momentary(FieldsOf(km(layer, key)))
  }

  predicate Known(s: State) {
    forall key :: key in s.source ==> s.source[key] < MAX_LAYER
  }

  /** store_or_get_action: a press looks the key up, a release repeats the layer of the press. */
  function LayerOf(km: Keymap, s: State, input: Input): nat
    requires input.Handled?
  {
    if input.pressed then Lookup(km, s, input.key) else Source(s, input.key)
  }

  function Resolve(km: Keymap, s: State, input: Input): Fields
    requires input.Handled?
  {
    FieldsOf(km(LayerOf(km, s, input), input.key))
  }

  function Step(km: Keymap, s: State, input: Input): (t: State)
    requires Known(s)
    requires input.Handled? ==> Momentary(Resolve(km, s, input))
    ensures Known(t)
  {
    match input
    case PressSeen => s.(board := s.board.(weakMods := {}))
    case Handled(key, pressed) =>
      State(
        Process(s.board, Resolve(km, s, input), pressed),
        if pressed then s.source[key := LayerOf(km, s, input)] else s.source)
  }

  function Init(defaults: set<nat>): State {
    State(Board({}, {}, {}, defaults, {}), map[])
  }

  ghost function Run(km: Keymap, defaults: set<nat>, inputs: seq<Input>): (s: State)
    requires Simple(km)
    ensures Known(s)
  {
    if inputs == [] then Init(defaults)
    else Step(km, Run(km, defaults, inputs[..|inputs| - 1]), inputs[|inputs| - 1])
  }
}
