/** Keymaps of ordinary keys, modifiers, modified keys, MO and LM keys compile to actions that never
    stick (quantum/keymap_common.c, quantum/action.c). */
module PlainKeycodes {
  import opened ActionCodes
  import opened KeyActions
  import opened NothingSticks
  import opened TapRecords
  import opened WordSets

  const KC_NO: Keycode := 0
  const KC_TRNS: Keycode := 1

  predicate IsBasic(k: Keycode) {
    k == KC_NO || k == KC_TRNS || (IsKeyCode(k) && !IsLocking(k)) || IsModCode(k)
  }

  /** A key with modifiers: five modifier bits over an ordinary key, a modifier or nothing */
  predicate IsModified(k: Keycode) {
    0x0100 <= k <= 0x1FFF && IsPlainCode(k & 0xFF)
  }

  predicate IsMomentaryLayer(k: Keycode) {
    0x5100 <= k <= 0x511F
  }

  predicate IsLayerWithMods(k: Keycode) {
    0x5900 <= k <= 0x59FF
  }

  predicate IsPlain(k: Keycode) {
    IsBasic(k) || IsModified(k) || IsMomentaryLayer(k) || IsLayerWithMods(k)
  }

  /** A basic keycode is the key itself, without modifiers. */
  /** Every key and modifier that is not a locking key, alone or with modifiers, MO of every layer and LM of the layers
      below 16 are plain. */
  lemma PlainKeycodesAre(key: bv16, mods: bv16, layer: bv16)
    requires 0x04 <= key < 0x82 || 0x85 <= key <= 0xA4 || 0xE0 <= key <= 0xE7
    requires 0 < mods < 32 && layer < 32
    ensures IsPlain(key) && IsPlain((mods << 8) | key) && IsPlain(mods << 8) && IsPlain(0x5100 | layer)
    ensures layer < 16 ==> IsPlain(0x5900 | (layer << 4) | (mods & 0xF))
  {
  }

  lemma BasicFields(k: Keycode)
    requires IsBasic(k)
    ensures FieldsOf(ActionForKeycode(k)) == KeyFields({}, k)
  {
    var a := ActionForKeycode(k);
    assert a == k && Kind(a) == ACT_LMODS && KeyCode(a) == k && KeyMods(a) == 0;
    NoMods();
  }

  lemma ModifiedAction(k: Keycode)
    requires 0x0100 <= k <= 0x1FFF
    ensures ActionForKeycode(k) == k
  {
  }

  lemma ModifiedKind(k: Keycode)
    requires 0x0100 <= k <= 0x1FFF
    ensures Kind(k) == if k & 0x1000 == 0 then ACT_LMODS else ACT_RMODS
  {
  }

  /** A modified keycode is the key with the modifiers of the left hand, or of the right. */
  lemma ModifiedFields(k: Keycode)
    requires IsModified(k)
    ensures FieldsOf(ActionForKeycode(k))
            == KeyFields(ModSet((if k & 0x1000 == 0 then (k >> 8) & 0xF else ((k >> 8) & 0xF) << 4) as bv8), k & 0xFF)
  {
    ModifiedAction(k);
    ModifiedKind(k);
  }

  /** MO(layer) */
  lemma MomentaryLayerFields(layer: bv16)
    requires layer < 32
    ensures FieldsOf(ActionForKeycode(MO(layer))) == KeyActions.MomentaryFields(layer as nat)
  {
  }

  lemma LayerModsAction(layer: bv16, mods: bv16)
    requires layer < 16 && mods < 16
    ensures var a := ActionForKeycode(LM(layer, mods));
      Kind(a) == ACT_LAYER_MODS && LayerModsLayer(a) == layer && KeyCode(a) == mods
  {
  }

  /** LM(layer, mods) */
  lemma LayerWithModsFields(layer: bv16, mods: bv16)
    requires layer < 16 && mods < 16
    ensures FieldsOf(ActionForKeycode(LM(layer, mods))) == LayerModsFields(layer as nat, ModSet(mods as bv8))
  {
  }

  lemma MomentaryKeycode(k: Keycode)
    requires IsMomentaryLayer(k)
    ensures k & 0xFF < 32 && k == MO(k & 0xFF)
  {
  }

  lemma LayerModsKeycode(k: Keycode)
    requires IsLayerWithMods(k)
    ensures (k >> 4) & 0xF < 16 && k & 0xF < 16 && k == LM((k >> 4) & 0xF, k & 0xF)
  {
  }

  /** What a plain keycode switches on, its release switches off. */
  lemma PlainIsMomentary(k: Keycode)
    requires IsPlain(k)
    ensures Momentary(FieldsOf(ActionForKeycode(k)))
  {
    if IsBasic(k) {
      BasicFields(k);
    } else if IsModified(k) {
      ModifiedFields(k);
    } else if IsMomentaryLayer(k) {
      MomentaryKeycode(k);
      MomentaryLayerFields(k & 0xFF);
    } else {
      LayerModsKeycode(k);
      LayerWithModsFields((k >> 4) & 0xF, k & 0xF);
    }
  }

  /** No plain keycode is one that the tap machine decides about. */
  lemma PlainIsNoTap(k: Keycode)
    requires IsPlain(k)
    ensures !IsTapAction(ActionForKeycode(k))
  {
    if IsModified(k) {
      ModifiedAction(k);
      ModifiedKind(k);
    } else if IsMomentaryLayer(k) {
      MomentaryKeycode(k);
      ActionCodes.MomentaryFields(k & 0xFF);
    } else if IsLayerWithMods(k) {
      LayerModsKeycode(k);
      LayerModsAction((k >> 4) & 0xF, k & 0xF);
    }
  }

  /** The keycodes by layer and key */
  type Keycodes = (nat, Key) -> Keycode

  function Compiled(keycodes: Keycodes): Keymap {
    (layer: nat, key: Key) => ActionForKeycode(keycodes(layer, key))
  }

  /** With a keymap of plain keycodes, once all keys are up no modifier, layer or key is left on. */
  lemma PlainKeymapNeverSticks(keycodes: Keycodes, defaults: set<nat>, inputs: seq<Input>)
    requires forall layer: nat, key: Key :: layer < MAX_LAYER ==> IsPlain(keycodes(layer, key))
    requires Proper(inputs) && Down(inputs) == {}
    ensures Simple(Compiled(keycodes))
    ensures Run(Compiled(keycodes), defaults, inputs).board == Board({}, {}, {}, defaults, {})
  {
    forall layer: nat, key: Key | layer < MAX_LAYER
      ensures Momentary(FieldsOf(Compiled(keycodes)(layer, key)))
    {
      PlainIsMomentary(keycodes(layer, key));
    }
    NoneStuck(Compiled(keycodes), defaults, inputs);
  }
}
