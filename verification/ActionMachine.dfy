/** The globals of quantum/action.c, action_layer.c and action_util.c, changed step by step: modifiers and
    layers are machine words here, the report is six bytes, and the board that the specification speaks of
    is read off them. */
module ActionMachine {
  import opened ActionCodes
  import opened KeyActions
  import opened KeyReport
  import opened LayerCache
  import opened MatrixBits
  import opened TapRecords
  import opened WordSets

  class Registers {
    const km: Keymap
    const cache: Cache
    var realMods: bv8
    var weakMods: bv8
    var layerState: bv32
    var defaultLayerState: bv32
    const report: array<Code>

    ghost function Snapshot(): Board
      reads this, report
    {
      Board(ModSet(realMods), ModSet(weakMods), LayersOf(layerState), LayersOf(defaultLayerState), Codes(report[..]))
    }

    ghost predicate Reports()
      reads report
    {
      report.Length == REPORT_KEYS && Single(report[..])
    }

    ghost function State(): State
      reads this, report, cache
    {
      KeyActions.State(Snapshot(), cache.layers)
    }

    ghost predicate Valid()
      reads this, report, cache, cache.bits
    {
      cache.Valid() && Known(State()) && Simple(km) && Reports()
    }

    constructor (km: Keymap, rows: nat, cols: nat, defaults: bv32)
      requires Simple(km) && rows * cols <= 2048
      ensures Valid() && fresh(cache) && fresh(cache.bits) && fresh(report)
      ensures this.km == km && cache.rows == rows && cache.cols == cols
      ensures State() == Init(LayersOf(defaults))
    {
      this.km := km;
      cache := new Cache(rows, cols);
      realMods, weakMods, layerState, defaultLayerState := 0, 0, 0, defaults;
      report := new Code[REPORT_KEYS](_ => 0);
      new;
      NoMods();
      NoLayers();
    }

    // ---------- action_util.c and register_code ----------

    /** add_mods and del_mods */
    method AddMods(mods: bv8)
      modifies this`realMods
      ensures ModSet(realMods) == ModSet(old(realMods)) + ModSet(mods)
    {
      realMods := AddBits(realMods, mods);
    }

    method DelMods(mods: bv8)
      modifies this`realMods
      ensures ModSet(realMods) == ModSet(old(realMods)) - ModSet(mods)
    {
      realMods := DropBits(realMods, mods);
    }

    /** A code that is in the report is pressed anew. */
    method PressCode(code: Code)
      requires Reports() && code != 0
      modifies report
      ensures Reports() && Codes(report[..]) == Fit(old(Codes(report[..])), {code})
    {
      FullExactly(report[..]);
      ghost var before := Codes(report[..]);
      var pressed := IsKeyPressed(report, code);
      if pressed {
        DelKeyByte(report, code);
        assert before - {code} + {code} == before == before + {code};
      }
      AddKeyByte(report, code);
    }

    method RegisterCode(code: Code)
      requires Reports() && IsPlainCode(code)
      modifies this`realMods, report
      ensures Reports() && Snapshot() == KeyActions.RegisterCode(old(Snapshot()), code)
    {
      if IsKeyCode(code) {
        PressCode(code);
      } else if IsModCode(code) {
        MaskSet(ModBit(code));
        AddMods(Mask(ModBit(code)));
      }
    }

    method UnregisterCode(code: Code)
      requires Reports() && IsPlainCode(code)
      modifies this`realMods, report
      ensures Reports() && Snapshot() == KeyActions.UnregisterCode(old(Snapshot()), code)
    {
      if IsKeyCode(code) {
        DelKeyByte(report, code);
      } else if IsModCode(code) {
        MaskSet(ModBit(code));
        DelMods(Mask(ModBit(code)));
      }
    }

    method RegisterMods(mods: bv8)
      modifies this`realMods
      ensures ModSet(realMods) == ModSet(old(realMods)) + ModSet(mods)
    {
      if mods != 0 {
        AddMods(mods);
      } else {
        NoMods();
      }
    }

    method UnregisterMods(mods: bv8)
      modifies this`realMods
      ensures ModSet(realMods) == ModSet(old(realMods)) - ModSet(mods)
    {
      if mods != 0 {
        DelMods(mods);
      } else {
        NoMods();
      }
    }

    /** add_weak_mods and del_weak_mods */
    method AddWeakMods(mods: bv8)
      modifies this`weakMods
      ensures ModSet(weakMods) == ModSet(old(weakMods)) + ModSet(mods)
    {
      weakMods := AddBits(weakMods, mods);
    }

    method DelWeakMods(mods: bv8)
      modifies this`weakMods
      ensures ModSet(weakMods) == ModSet(old(weakMods)) - ModSet(mods)
    {
      weakMods := DropBits(weakMods, mods);
    }

    // ---------- action_layer.c ----------

    method LayerStateSet(state: bv32)
      modifies this`layerState, this`weakMods
      ensures Snapshot() == SetLayers(old(Snapshot()), LayersOf(state))
    {
      layerState := state;
      weakMods := 0;
      NoMods();
    }

    method LayerOn(layer: nat)
      requires layer < MAX_LAYER
      modifies this`layerState, this`weakMods
      ensures Snapshot() == SetLayers(old(Snapshot()), LayersOf(old(layerState)) + {layer})
    {
      var state := AddLayer(layerState, layer);
      LayerStateSet(state);
    }

    method LayerOff(layer: nat)
      requires layer < MAX_LAYER
      modifies this`layerState, this`weakMods
      ensures Snapshot() == SetLayers(old(Snapshot()), LayersOf(old(layerState)) - {layer})
    {
      var state := DropLayer(layerState, layer);
      LayerStateSet(state);
    }

    /** The highest layer that is on and shows the key */
    method LayerSwitchGetLayer(key: Key) returns (layer: nat)
      ensures layer == Lookup(km, State(), key)
    {
      var layers := JoinLayers(layerState, defaultLayerState);
      ghost var on := LayersOf(layers);
      var i := MAX_LAYER;
      while i > 0
        invariant 0 <= i <= MAX_LAYER
        invariant TopLayer(km, on, key, i) == TopLayer(km, on, key, MAX_LAYER)
      {
        i := i - 1;
        var active := TestLayer(layers, i);
        if active {
          var action := km(i, key);
          if action != ACTION_TRANSPARENT {
            return i;
          }
        }
      }
      return 0;
    }

    method StoreOrGetAction(pressed: bool, key: Key) returns (action: Action)
      requires Valid() && InMatrix(key, cache.rows, cache.cols)
      modifies cache, cache.bits
      ensures Valid()
      ensures var s := old(State());
        && action == km(LayerOf(km, s, Handled(key, pressed)), key)
        && cache.layers == if pressed then s.source[key := Lookup(km, s, key)] else s.source
    {
      var layer;
      if pressed {
        layer := LayerSwitchGetLayer(key);
        cache.Update(key, layer);
      } else {
        layer := cache.Read(key);
      }
      action := km(layer, key);
    }

    // ---------- action.c ----------

    /** The modifiers of a key action, on the side its kind says */
    method ModsOf(action: Action) returns (mods: bv8)
      requires Kind(action) == ACT_LMODS || Kind(action) == ACT_RMODS
      ensures FieldsOf(action) == KeyFields(ModSet(mods), KeyCode(action))
    {
      mods := if Kind(action) == ACT_LMODS then KeyMods(action) as bv8 else (KeyMods(action) << 4) as bv8;
    }

    /** Modifiers with a modifier code or no code are real, with any other code weak. */
    method AddModsFor(mods: bv8, code: Code)
      modifies this`realMods, this`weakMods
      ensures Snapshot() == KeyActions.AddMods(old(Snapshot()), code, ModSet(mods))
    {
      if mods != 0 {
        if IsModCode(code) || code == 0 {
          AddMods(mods);
        } else {
          AddWeakMods(mods);
        }
      } else {
        NoMods();
      }
    }

    method DelModsFor(mods: bv8, code: Code)
      modifies this`realMods, this`weakMods
      ensures Snapshot() == KeyActions.DelMods(old(Snapshot()), code, ModSet(mods))
    {
      if mods != 0 {
        if IsModCode(code) || code == 0 {
          DelMods(mods);
        } else {
          DelWeakMods(mods);
        }
      } else {
        NoMods();
      }
    }

    method PressKey(mods: bv8, code: Code)
      requires Reports() && IsPlainCode(code)
      modifies this, report
      ensures Reports() && Snapshot() == Process(old(Snapshot()), KeyFields(ModSet(mods), code), true)
    {
      AddModsFor(mods, code);
      RegisterCode(code);
    }

    method ReleaseKey(mods: bv8, code: Code)
      requires Reports() && IsPlainCode(code)
      modifies this, report
      ensures Reports() && Snapshot() == Process(old(Snapshot()), KeyFields(ModSet(mods), code), false)
    {
      UnregisterCode(code);
      DelModsFor(mods, code);
    }

    method ProcessAction(action: Action, pressed: bool)
      requires Reports() && Momentary(FieldsOf(action))
      modifies this, report
      ensures Reports() && Snapshot() == Process(old(Snapshot()), FieldsOf(action), pressed)
    {
      var kind := Kind(action);
      if kind == ACT_LMODS || kind == ACT_RMODS {
        var mods := ModsOf(action);
        if pressed {
          PressKey(mods, KeyCode(action));
        } else {
          ReleaseKey(mods, KeyCode(action));
        }
      } else if kind == ACT_LAYER_MODS {
        var layer := LayerModsLayer(action) as nat;
        var mods := KeyCode(action) as bv8;
        if pressed {
          LayerOn(layer);
          RegisterMods(mods);
        } else {
          UnregisterMods(mods);
          LayerOff(layer);
        }
      } else {
        var layer := TapLayer(action) as nat;
        if pressed { LayerOn(layer); } else { LayerOff(layer); }
      }
    }

    /** action_exec before the tapping: a press drops the weak modifiers. */
    method SeePress()
      requires Valid()
      modifies this`weakMods
      ensures Valid() && State() == Step(km, old(State()), PressSeen)
    {
      weakMods := 0;
      NoMods();
    }

    /** process_record */
    method ProcessRecord(key: Key, pressed: bool)
      requires Valid() && InMatrix(key, cache.rows, cache.cols)
      modifies this, report, cache, cache.bits
      ensures Valid() && State() == Step(km, old(State()), Handled(key, pressed))
    {
      var action := StoreOrGetAction(pressed, key);
      ProcessAction(action, pressed);
    }
  }
}
