/** 16-bit action codes: the encoder macros and the bit fields of quantum/action_code.h, and the
    compilation of keycodes in quantum/keymap_common.c. */
module ActionCodes {

  type Action = bv16
  type Keycode = bv16
  /** layer_state_t, 32 layers */
  type Layers = bv32

  // ---------- bit fields ----------

  function Kind(a: Action): bv16 { a >> 12 }
  function KeyCode(a: Action): bv16 { a & 0xFF }
  function KeyMods(a: Action): bv16 { (a >> 8) & 0xF }
  function BitopBits(a: Action): bv16 { a & 0xF }
  function BitopXbit(a: Action): bv16 { (a >> 4) & 1 }
  function BitopPart(a: Action): bv16 { (a >> 5) & 7 }
  function BitopOn(a: Action): bv16 { (a >> 8) & 3 }
  function BitopOp(a: Action): bv16 { (a >> 10) & 3 }
  function LayerModsLayer(a: Action): bv16 { (a >> 8) & 0xF }
  function TapLayer(a: Action): bv16 { (a >> 8) & 0x1F }

  const ACT_LMODS: bv16 := 0
  const ACT_RMODS: bv16 := 1
  const ACT_LMODS_TAP: bv16 := 2
  const ACT_RMODS_TAP: bv16 := 3
  const ACT_SWAP_HANDS: bv16 := 6
  const ACT_LAYER: bv16 := 8
  const ACT_LAYER_MODS: bv16 := 9
  const ACT_LAYER_TAP: bv16 := 10
  const ACT_LAYER_TAP_EXT: bv16 := 11
  const ACT_MACRO: bv16 := 12
  const ACT_FUNCTION: bv16 := 15

  const OP_TAP_TOGGLE: bv16 := 0xF0
  const OP_ON_OFF: bv16 := 0xF1
  const OP_OFF_ON: bv16 := 0xF2
  const OP_SET_CLEAR: bv16 := 0xF3
  const OP_ONESHOT: bv16 := 0xF4
  const OP_SH_TAP_TOGGLE: bv16 := 0xF1
  const FUNC_TAP: bv16 := 8

  const OP_BIT_AND: bv16 := 0
  const OP_BIT_OR: bv16 := 1
  const OP_BIT_XOR: bv16 := 2
  const OP_BIT_SET: bv16 := 3
  const ON_PRESS: bv16 := 1
  const ON_RELEASE: bv16 := 2

  const ACTION_NO: Action := 0
  const ACTION_TRANSPARENT: Action := 1

  // ---------- encoders ----------

  function ActionOf(kind: bv16, param: bv16): Action { (kind << 12) | param }
  function ModsKey(mods: bv16, key: bv16): Action { ActionOf(ACT_LMODS, ((mods & 0x1F) << 8) | key) }
  function ModsTapKey(mods: bv16, key: bv16): Action { ActionOf(ACT_LMODS_TAP, ((mods & 0x1F) << 8) | key) }

  function LayerBitop(op: bv16, part: bv16, bits: bv16, on: bv16): Action {
    ActionOf(ACT_LAYER, (op << 10) | (on << 8) | (part << 5) | (bits & 0x1F))
  }

  function LayerTap(layer: bv16, key: bv16): Action { ActionOf(ACT_LAYER_TAP, (layer << 8) | key) }
  function LayerMods(layer: bv16, mods: bv16): Action { ActionOf(ACT_LAYER_MODS, (layer << 8) | mods) }

  /** The chunk of a layer and its bit in the chunk, layer / 4 and 1 << (layer % 4) */
  function Part(layer: bv16): bv16 { layer >> 2 }
  function PartBit(layer: bv16): bv16 {
    match layer & 3
    case 0 => 1
    case 1 => 2
    case 2 => 4
    case _ => 8
  }

  function LayerInvert(layer: bv16, on: bv16): Action { LayerBitop(OP_BIT_XOR, Part(layer), PartBit(layer), on) }
  function LayerOff(layer: bv16, on: bv16): Action { LayerBitop(OP_BIT_AND, Part(layer), !PartBit(layer), on) }
  function LayerSet(layer: bv16, on: bv16): Action { LayerBitop(OP_BIT_SET, Part(layer), PartBit(layer), on) }
  function LayerToggle(layer: bv16): Action { LayerInvert(layer, ON_RELEASE) }
  function LayerMomentary(layer: bv16): Action { LayerTap(layer, OP_ON_OFF) }
  function DefaultLayerSet(layer: bv16): Action { LayerBitop(OP_BIT_SET, Part(layer), PartBit(layer), 0) }

  // ---------- keycodes ----------

  function TO(layer: bv16): Keycode { 0x5000 | (ON_PRESS << 4) | (layer & 0xFF) }
  function MO(layer: bv16): Keycode { 0x5100 | (layer & 0xFF) }
  function DF(layer: bv16): Keycode { 0x5200 | (layer & 0xFF) }
  function TG(layer: bv16): Keycode { 0x5300 | (layer & 0xFF) }
  function LM(layer: bv16, mods: bv16): Keycode { 0x5900 | ((layer & 0xF) << 4) | (mods & 0xF) }

  /** action_for_keycode, for keycodes of keys, modifiers, layers and tap keys; no remapping. */
  function ActionForKeycode(k: Keycode): Action {
    if (0x04 <= k <= 0xA4) || (0xE0 <= k <= 0xE7) then k
    else if k == 1 then ACTION_TRANSPARENT
    else if 0x0100 <= k <= 0x1FFF then ModsKey(k >> 8, k & 0xFF)
    else if 0x4000 <= k <= 0x4FFF then LayerTap((k >> 8) & 0xF, k & 0xFF)
    else if 0x5000 <= k <= 0x50FF then LayerSet(k & 0xF, (k >> 4) & 3)
    else if 0x5100 <= k <= 0x51FF then LayerMomentary(k & 0xFF)
    else if 0x5200 <= k <= 0x52FF then DefaultLayerSet(k & 0xFF)
    else if 0x5300 <= k <= 0x53FF then LayerToggle(k & 0xFF)
    else if 0x5800 <= k <= 0x58FF then LayerTap(k & 0xFF, OP_TAP_TOGGLE)
    else if 0x5900 <= k <= 0x59FF then LayerMods((k >> 4) & 0xF, k & 0xF)
    else if 0x6000 <= k <= 0x7FFF then ModsTapKey((k >> 8) & 0x1F, k & 0xFF)
    else ACTION_NO
  }

  /** is_tap_action: the actions that the tap machine decides about */
  predicate IsTapAction(a: Action) {
    var kind, code := Kind(a), KeyCode(a);
    if kind == ACT_LMODS_TAP || kind == ACT_RMODS_TAP || kind == ACT_LAYER_TAP || kind == ACT_LAYER_TAP_EXT then
      code <= 0xE7 || code == OP_TAP_TOGGLE || code == OP_ONESHOT
    else if kind == ACT_SWAP_HANDS then code <= 0xE7 || code == OP_SH_TAP_TOGGLE
    else if kind == ACT_MACRO || kind == ACT_FUNCTION then KeyMods(a) & FUNC_TAP != 0
    else false
  }

  // ---------- layer operations ----------

  /** (layer_state_t)1 << layer */
  function LayerBit(layer: bv16): Layers
    requires layer < 32
  {
    (1 as Layers) << layer
  }

  /** What a layer action does to (layer_state, default_layer_state), and on which events. */
  function BitopBitsOf(a: Action): Layers {
    var shift := BitopPart(a) * 4;
    var bits := (BitopBits(a) as Layers) << shift;
    var mask: Layers := if BitopXbit(a) != 0 then !((0xF as Layers) << shift) else 0;
    bits | mask
  }

  function ApplyBitop(op: bv16, s: Layers, x: Layers): Layers {
    if op == OP_BIT_AND then s & x
    else if op == OP_BIT_OR then s | x
    else if op == OP_BIT_XOR then s ^ x
    else x
  }

  datatype LayerState = LayerState(layers: Layers, defaults: Layers)

  /** The operations of a layer-tap action that need no tap count */
  function RunLayerTap(layer: bv16, code: bv16, pressed: bool, st: LayerState): LayerState
    requires layer < 32
  {
    if code == OP_ON_OFF then
      st.(layers := if pressed then st.layers | LayerBit(layer) else st.layers & !LayerBit(layer))
    else if code == OP_OFF_ON then
      st.(layers := if pressed then st.layers & !LayerBit(layer) else st.layers | LayerBit(layer))
    else if code == OP_SET_CLEAR then st.(layers := if pressed then LayerBit(layer) else 0)
    else st
  }

  /** The bitwise operation of a layer action: on the default layers when on is 0, else on the layers */
  function RunBitop(op: bv16, x: Layers, on: bv16, pressed: bool, st: LayerState): LayerState {
    if on == 0 then
      if pressed then st else st.(defaults := ApplyBitop(op, st.defaults, x))
    else if (if pressed then on & ON_PRESS else on & ON_RELEASE) != 0 then
      st.(layers := ApplyBitop(op, st.layers, x))
    else st
  }

  /** process_action, for the layer actions that need no tap count. */
  function RunLayerAction(a: Action, pressed: bool, st: LayerState): LayerState {
    var kind := Kind(a);
    if kind == ACT_LAYER then RunBitop(BitopOp(a), BitopBitsOf(a), BitopOn(a), pressed, st)
    else if kind == ACT_LAYER_TAP || kind == ACT_LAYER_TAP_EXT then
      RunLayerTap(TapLayer(a), KeyCode(a), pressed, st)
    else st
  }

  // ---------- compiling preserves meaning ----------

  lemma BitopFields(op: bv16, part: bv16, bits: bv16, on: bv16)
    requires op <= 3 && part <= 7 && on <= 3
    ensures var a := LayerBitop(op, part, bits, on);
      && Kind(a) == ACT_LAYER && BitopOp(a) == op && BitopPart(a) == part && BitopOn(a) == on
      && BitopBits(a) == bits & 0xF && BitopXbit(a) == (bits >> 4) & 1
  {
  }

  /** The complement of a layer's bit in its chunk, with all other chunks set, is that of the layer's bit. */
  lemma ChunkClear(layer: bv16)
    requires layer < 32
    ensures ((((!PartBit(layer)) & 0xF) as Layers) << (Part(layer) * 4)) | !((0xF as Layers) << (Part(layer) * 4))
            == !LayerBit(layer)
    ensures Part(layer) <= 7 && ((!PartBit(layer)) >> 4) & 1 == 1
  {
  }

  lemma OffFields(layer: bv16)
    requires layer < 32
    ensures var a := LayerOff(layer, ON_PRESS);
      Kind(a) == ACT_LAYER && BitopOp(a) == OP_BIT_AND && BitopOn(a) == ON_PRESS && BitopBitsOf(a) == !LayerBit(layer)
  {
    ChunkClear(layer);
    BitopFields(OP_BIT_AND, Part(layer), !PartBit(layer), ON_PRESS);
  }

  lemma RunAnd(a: Action, x: Layers, st: LayerState)
    requires Kind(a) == ACT_LAYER && BitopOp(a) == OP_BIT_AND && BitopOn(a) == ON_PRESS && BitopBitsOf(a) == x
    ensures RunLayerAction(a, true, st) == st.(layers := st.layers & x)
  {
  }

  /** layer_state & bit */
  predicate BitOn(st: LayerState, bit: Layers) {
    st.layers & bit != 0
  }

  /** TG(layer) flips the layer on release. */
  lemma ToggleMeans(layer: bv16, bit: Layers, pressed: bool, st: LayerState)
    requires layer < 32 && bit == LayerBit(layer)
    ensures RunLayerAction(ActionForKeycode(TG(layer)), pressed, st)
            == if pressed then st else st.(layers := st.layers ^ bit)
  {
  }

  /** DF(layer) makes the layer the only default layer, on release. */
  lemma DefaultMeans(layer: bv16, pressed: bool, st: LayerState)
    requires layer < 32
    ensures RunLayerAction(ActionForKeycode(DF(layer)), pressed, st)
            == if pressed then st else st.(defaults := LayerBit(layer))
  {
  }

  lemma MomentaryFields(layer: bv16)
    requires layer < 32
    ensures var a := ActionForKeycode(MO(layer));
      && (Kind(a) == ACT_LAYER_TAP || Kind(a) == ACT_LAYER_TAP_EXT)
      && KeyCode(a) == OP_ON_OFF && TapLayer(a) == layer
  {
  }

  /** MO(layer): on while held, also for the layers 16 to 31 whose number spills into the kind. */
  lemma MomentaryMeans(layer: bv16, pressed: bool, st: LayerState)
    requires layer < 32
    ensures RunLayerAction(ActionForKeycode(MO(layer)), pressed, st)
            == st.(layers := if pressed then st.layers | LayerBit(layer) else st.layers & !LayerBit(layer))
  {
  }

  /** TO(layer), with the four layer bits the keycode has room for */
  lemma MoveMeansModulo(layer: bv16, pressed: bool, st: LayerState)
    requires layer < 32
    ensures RunLayerAction(ActionForKeycode(TO(layer)), pressed, st)
            == if pressed then st.(layers := LayerBit(layer & 0xF)) else st
  {
  }

  /** TO(layer) is layer_move(layer) exactly for the layers below 16. */
  lemma MoveMeans(layer: bv16, st: LayerState)
    requires layer < 32
    ensures RunLayerAction(ActionForKeycode(TO(layer)), true, st) == st.(layers := LayerBit(layer)) <==> layer < 16
  {
  }

  /** The AND form with the extra bit keeps all bits but the layer's. */
  lemma OffMeans(layer: bv16, clear: Layers, st: LayerState)
    requires layer < 32 && clear == !LayerBit(layer)
    ensures RunLayerAction(LayerOff(layer, ON_PRESS), true, st) == st.(layers := st.layers & clear)
  {
    OffFields(layer);
    RunAnd(LayerOff(layer, ON_PRESS), clear, st);
  }

  /** Taking a layer's bit away clears that layer and keeps every other. */
  lemma OneLayerCleared(layer: bv16, other: bv16, x: Layers, y: Layers, st: LayerState, r: LayerState)
    requires layer < 32 && other < 32 && x == LayerBit(layer) && y == LayerBit(other)
    requires r.layers == st.layers & !x
    ensures BitOn(r, y) == (other != layer && BitOn(st, y))
  {
  }
}
