/** The numbers themselves: which 16-bit action each family of keycodes compiles to (quantum/quantum_keycodes.h,
    quantum/keymap_common.c, quantum/action_code.h), which of them the tap machine decides about, and which bit a
    modifier code sets. */
module KeycodeFormats {
  import opened ActionCodes
  import opened KeyActions
  import opened TapRecords

  /** LT(layer, kc), MT(mods, kc) and TT(layer) */
  lemma TapKeyActions(layer: bv16, mods: bv16, kc: bv16)
    requires layer < 32 && mods < 32 && kc < 256
    ensures layer < 16 ==> ActionForKeycode(0x4000 | (layer << 8) | kc) == 0xA000 | (layer << 8) | kc
    ensures ActionForKeycode(0x6000 | (mods << 8) | kc) == 0x2000 | (mods << 8) | kc
    ensures ActionForKeycode(0x5800 | layer) == 0xA0F0 | (layer << 8)
  {
  }

  /** MO(layer), TG(layer), DF(layer), TO(layer) and LM(layer, mods) */
  lemma LayerKeyActions(layer: bv16, mods: bv16)
    requires layer < 32 && mods < 16
    ensures ActionForKeycode(0x5100 | layer) == 0xA0F1 | (layer << 8)
    ensures ActionForKeycode(0x5300 | layer) == 0x8A00 | ((layer >> 2) << 5) | (1 << (layer & 3))
    ensures ActionForKeycode(0x5200 | layer) == 0x8C00 | ((layer >> 2) << 5) | (1 << (layer & 3))
    ensures layer < 16 ==> ActionForKeycode(0x5010 | layer) == 0x8D00 | ((layer >> 2) << 5) | (1 << (layer & 3))
    ensures layer < 16 ==> ActionForKeycode(0x5900 | (layer << 4) | mods) == 0x9000 | (layer << 8) | mods
  {
  }

  /** A key code of the keyboard page, alone or with modifiers, is its own action. */
  lemma KeyActionsAre(k: bv16)
    requires 0x04 <= k <= 0xA4 || 0xE0 <= k <= 0xE7 || 0x0100 <= k <= 0x1FFF
    ensures ActionForKeycode(k) == k
  {
  }

  /** The low byte is a key code, or one of the two operations that need a tap count. */
  predicate NeedsTap(k: bv16) {
    k & 0xFF <= 0xE7 || k & 0xFF == 0xF0 || k & 0xFF == 0xF4
  }

  lemma LayerTapKind(k: bv16)
    requires 0x4000 <= k <= 0x4FFF
    ensures Kind(ActionForKeycode(k)) == 10 && KeyCode(ActionForKeycode(k)) == k & 0xFF
  {
  }

  lemma ModTapKind(k: bv16)
    requires 0x6000 <= k <= 0x7FFF
    ensures Kind(ActionForKeycode(k)) in {2, 3} && KeyCode(ActionForKeycode(k)) == k & 0xFF
  {
  }

  lemma TapToggleKind(k: bv16)
    requires 0x5800 <= k <= 0x58FF && k & 0xFF < 32
    ensures Kind(ActionForKeycode(k)) in {10, 11} && KeyCode(ActionForKeycode(k)) == 0xF0
  {
  }

  lemma MomentaryKind(k: bv16)
    requires 0x5100 <= k <= 0x51FF && k & 0xFF < 32
    ensures Kind(ActionForKeycode(k)) in {10, 11} && KeyCode(ActionForKeycode(k)) == 0xF1
  {
  }

  lemma OtherLayerKind(k: bv16)
    requires 0x5000 <= k <= 0x50FF || 0x5200 <= k <= 0x53FF || 0x5900 <= k <= 0x59FF
    ensures Kind(ActionForKeycode(k)) in {8, 9}
  {
  }

  lemma PlainKind(k: bv16)
    requires k < 0x4000 || 0x5400 <= k <= 0x57FF || 0x5A00 <= k <= 0x5FFF || 0x8000 <= k
    ensures Kind(ActionForKeycode(k)) in {0, 1}
  {
    if 0x0100 <= k <= 0x1FFF { KeyActionsAre(k); }
  }

  /** Of all keycodes with layers below 32, the tap machine decides exactly about LT and MT with a key, and TT. */
  lemma TapKeycodesExactly(k: bv16)
    requires 0x5100 <= k <= 0x51FF || 0x5800 <= k <= 0x58FF ==> k & 0xFF < 32
    ensures IsTapAction(ActionForKeycode(k))
        <==> (0x4000 <= k <= 0x4FFF && NeedsTap(k)) || (0x6000 <= k <= 0x7FFF && NeedsTap(k)) || 0x5800 <= k <= 0x58FF
  {
    if 0x4000 <= k <= 0x4FFF {
      LayerTapKind(k);
    } else if 0x6000 <= k <= 0x7FFF {
      ModTapKind(k);
    } else if 0x5800 <= k <= 0x58FF {
      TapToggleKind(k);
    } else if 0x5100 <= k <= 0x51FF {
      MomentaryKind(k);
    } else if 0x5000 <= k <= 0x50FF || 0x5200 <= k <= 0x53FF || 0x5900 <= k <= 0x59FF {
      OtherLayerKind(k);
    } else {
      PlainKind(k);
    }
  }

  /** The modifier codes 0xE0 to 0xE7 are the bits 0 to 7: left control, shift, alt and GUI, then the right ones. */
  lemma ModifierBits(b: Board, i: nat)
    requires i < 8
    ensures var code := [0xE0, 0xE1, 0xE2, 0xE3, 0xE4, 0xE5, 0xE6, 0xE7 as bv16][i];
      && RegisterCode(b, code) == b.(realMods := b.realMods + {i})
      && UnregisterCode(b, code) == b.(realMods := b.realMods - {i})
  {
  }

  /** The codes of the keyboard page from A to the last key enter the report, and no others. */
  lemma KeyCodesExactly(b: Board, code: bv16)
    ensures RegisterCode(b, code).keys
            == if 0x04 <= code <= 0xA4 && |b.keys + {code}| <= 6 then b.keys + {code} else b.keys
    ensures UnregisterCode(b, code).keys == if 0x04 <= code <= 0xA4 then b.keys - {code} else b.keys
    ensures !(0xE0 <= code <= 0xE7) ==> RegisterCode(b, code).realMods == UnregisterCode(b, code).realMods == b.realMods
  {
  }

  /** The codes that are left out: the three locking keys, and what is neither on the keyboard page nor a modifier */
  lemma PlainCodesExactly(code: bv16)
    ensures IsPlainCode(code)
        <==> code < 0x82 || 0x85 <= code <= 0xA4 || 0xE0 <= code <= 0xE7
  {
  }

  /** The keycodes that compile to an action at all: keys and modifiers, the transparent one, keys with modifiers, LT,
      TO, MO, DF and TG, TT and LM, and MT */
  lemma NoActionExactly(k: bv16)
    ensures ActionForKeycode(k) != 0
        <==> (0x04 <= k <= 0xA4 || 0xE0 <= k <= 0xE7 || k == 1 || 0x0100 <= k <= 0x1FFF || 0x4000 <= k <= 0x4FFF
              || 0x5000 <= k <= 0x53FF || 0x5800 <= k <= 0x59FF || 0x6000 <= k <= 0x7FFF)
  {
    if 0x0100 <= k <= 0x1FFF { KeyActionsAre(k); }
  }

  /** The four bits on top of an action decide what its fields are; MO differs from LT in the low byte. */
  lemma FieldsExactly(a: bv16)
    ensures FieldsOf(a).KeyFields? <==> a < 0x2000
    ensures FieldsOf(a).KeyFields? ==> FieldsOf(a).code == a & 0xFF
    ensures FieldsOf(a).LayerModsFields? <==> 0x9000 <= a <= 0x9FFF
    ensures FieldsOf(a).MomentaryFields? <==> 0xA000 <= a <= 0xBFFF && a & 0xFF == 0xF1
  {
  }

  /** Tap actions that no modelled keycode compiles to: swap hands with a key or as a toggle, and tap macros */
  lemma OtherTapActions(a: bv16)
    ensures 0x6000 <= a <= 0x6FFF ==> (IsTapAction(a) <==> a & 0xFF <= 0xE7 || a & 0xFF == 0xF1)
    ensures 0xC000 <= a <= 0xCFFF || 0xF000 <= a ==> (IsTapAction(a) <==> a & 0x800 != 0)
  {
  }

  lemma RunsLayerTap(a: bv16, layer: bv16, low: bv16, pressed: bool, st: LayerState)
    requires layer < 32 && low < 256 && a == 0xA000 | low | (layer << 8)
    ensures RunLayerAction(a, pressed, st) == RunLayerTap(layer, low, pressed, st)
  {
    assert Kind(a) == ACT_LAYER_TAP || Kind(a) == ACT_LAYER_TAP_EXT;
    assert KeyCode(a) == low && TapLayer(a) == layer;
  }

  lemma LayerTapDoes(layer: bv16, low: bv16, bit: Layers, pressed: bool, st: LayerState)
    requires layer < 32 && low in [0xF1, 0xF2, 0xF3] && bit == LayerBit(layer)
    ensures RunLayerTap(layer, low, pressed, st).defaults == st.defaults
    ensures RunLayerTap(layer, low, pressed, st).layers
            == if low == 0xF1 then (if pressed then st.layers | bit else st.layers & !bit)
               else if low == 0xF2 then (if pressed then st.layers & !bit else st.layers | bit)
               else if pressed then bit else 0
  {
  }

  /** The layer operations behind the low bytes F1, F2 and F3: on while held, off while held, and alone while held */
  lemma LayerTapOperations(a: bv16, layer: bv16, low: bv16, bit: Layers, pressed: bool, st: LayerState)
    requires layer < 32 && low in [0xF1, 0xF2, 0xF3] && bit == LayerBit(layer) && a == 0xA000 | low | (layer << 8)
    ensures RunLayerAction(a, pressed, st).defaults == st.defaults
    ensures RunLayerAction(a, pressed, st).layers
            == if low == 0xF1 then (if pressed then st.layers | bit else st.layers & !bit)
               else if low == 0xF2 then (if pressed then st.layers & !bit else st.layers | bit)
               else if pressed then bit else 0
  {
    RunsLayerTap(a, layer, low, pressed, st);
    LayerTapDoes(layer, low, bit, pressed, st);
  }

  /** Layer 31 is the highest that is looked at. */
  lemma HighestLayer(km: Keymap, s: State, key: Key)
    requires 31 in s.board.layers + s.board.defaults && km(31, key) != 1
    ensures Lookup(km, s, key) == 31
  {
  }
}
