/** Weak modifiers, those of keys such as shifted digits: how long each of them stays on. */
module WeakModifiers {
  import opened ActionCodes
  import opened KeyActions
  import opened TapRecords

  /** What input j resolves to when its turn comes */
  ghost function FieldsAt(km: Keymap, defaults: set<nat>, inputs: seq<Input>, j: nat): Fields
    requires Simple(km) && j < |inputs| && inputs[j].Handled?
  {
    Resolve(km, Run(km, defaults, inputs[..j]), inputs[j])
  }

  /** A key code with modifiers of its own, neither a modifier nor no key at all, has them only while no other
      press is seen. */
  predicate IsWeak(f: Fields, m: nat) {
    f.KeyFields? && f.code != 0 && !(0xE0 <= f.code <= 0xE7) && m in f.mods
  }

  /** Input j is the press of a key with the weak modifier m. */
  ghost predicate Gives(km: Keymap, defaults: set<nat>, inputs: seq<Input>, m: nat, j: nat)
    requires Simple(km) && j < |inputs|
  {
    inputs[j].Handled? && inputs[j].pressed && IsWeak(FieldsAt(km, defaults, inputs, j), m)
  }

  /** Input j drops the weak modifier m: a press is seen, the layers change, or a key with m is released. */
  ghost predicate Ends(km: Keymap, defaults: set<nat>, inputs: seq<Input>, m: nat, j: nat)
    requires Simple(km) && j < |inputs|
  {
    match inputs[j]
    case PressSeen => true
    case Handled(_, pressed) =>
      var f := FieldsAt(km, defaults, inputs, j);
      !f.KeyFields? || (!pressed && IsWeak(f, m))
  }

  /** m was switched on by input j and not dropped since. */
  ghost predicate Lasts(km: Keymap, defaults: set<nat>, inputs: seq<Input>, m: nat, j: nat)
    requires Simple(km)
  {
    && j < |inputs| && Gives(km, defaults, inputs, m, j)
    && forall i :: j < i < |inputs| ==> !Ends(km, defaults, inputs, m, i)
  }

  lemma StepWeak(km: Keymap, s: State, input: Input, m: nat)
    requires Simple(km) && Known(s)
    requires input.Handled? ==> Momentary(Resolve(km, s, input))
    ensures m in Step(km, s, input).board.weakMods
        <==> match input
             case PressSeen => false
             case Handled(_, pressed) =>
               var f := Resolve(km, s, input);
               f.KeyFields? && (if pressed then m in s.board.weakMods || IsWeak(f, m)
                                else m in s.board.weakMods && !IsWeak(f, m))
  {
  }

  lemma SameEarlier(km: Keymap, defaults: set<nat>, inputs: seq<Input>, m: nat, j: nat)
    requires Simple(km) && j < |inputs| - 1
    ensures var init := inputs[..|inputs| - 1];
      && Gives(km, defaults, inputs, m, j) == Gives(km, defaults, init, m, j)
      && Ends(km, defaults, inputs, m, j) == Ends(km, defaults, init, m, j)
  {
    assert inputs[..|inputs| - 1][..j] == inputs[..j];
  }

  /** Over one more input: m lasts from before, or is given now. */
  lemma LastsNext(km: Keymap, defaults: set<nat>, inputs: seq<Input>, m: nat, j: nat)
    requires Simple(km) && j < |inputs|
    ensures var n := |inputs| - 1;
      Lasts(km, defaults, inputs, m, j)
      <==> if j == n then Gives(km, defaults, inputs, m, n)
           else Lasts(km, defaults, inputs[..n], m, j) && !Ends(km, defaults, inputs, m, n)
  {
    var n := |inputs| - 1;
    if j < n {
      SameEarlier(km, defaults, inputs, m, j);
      forall i | j < i < n
        ensures Ends(km, defaults, inputs, m, i) == Ends(km, defaults, inputs[..n], m, i)
      {
        SameEarlier(km, defaults, inputs, m, i);
      }
    }
  }

  /** After every run: a weak modifier is on if and only if a key with it was pressed, and since then no press was
      seen, no layer changed and no key with it was released. */
  lemma {:induction false} WeakExactly(km: Keymap, defaults: set<nat>, inputs: seq<Input>, m: nat)
    requires Simple(km)
    ensures m in Run(km, defaults, inputs).board.weakMods <==> exists j: nat :: Lasts(km, defaults, inputs, m, j)
  {
    if inputs != [] {
      var n := |inputs| - 1;
      var s := Run(km, defaults, inputs[..n]);
      WeakExactly(km, defaults, inputs[..n], m);
      StepWeak(km, s, inputs[n], m);
      WeakStep(km, defaults, inputs, m);
    }
  }

  lemma WeakStep(km: Keymap, defaults: set<nat>, inputs: seq<Input>, m: nat)
    requires Simple(km) && inputs != []
    ensures var n := |inputs| - 1;
      (exists j: nat :: Lasts(km, defaults, inputs, m, j))
      <==> Gives(km, defaults, inputs, m, n)
           || ((exists j: nat :: Lasts(km, defaults, inputs[..n], m, j)) && !Ends(km, defaults, inputs, m, n))
  {
    var n := |inputs| - 1;
    LastsNext(km, defaults, inputs, m, n);
    if j: nat :| Lasts(km, defaults, inputs, m, j) {
      LastsNext(km, defaults, inputs, m, j);
    }
    if j: nat :| Lasts(km, defaults, inputs[..n], m, j) {
      LastsNext(km, defaults, inputs, m, j);
    }
  }

  /** Every weak modifier that is on was given after the last press that was seen. */
  lemma WeakIsSeenLast(km: Keymap, defaults: set<nat>, inputs: seq<Input>, m: nat) returns (j: nat)
    requires Simple(km) && m in Run(km, defaults, inputs).board.weakMods
    ensures j < |inputs| && Gives(km, defaults, inputs, m, j)
    ensures forall i :: j < i < |inputs| ==> inputs[i] != PressSeen
  {
    WeakExactly(km, defaults, inputs, m);
    j :| Lasts(km, defaults, inputs, m, j);
    forall i | j < i < |inputs|
      ensures inputs[i] != PressSeen
    {
      assert !Ends(km, defaults, inputs, m, i);
    }
  }
}
