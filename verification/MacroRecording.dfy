/** Recording and playing the two macros that share one buffer (quantum/dynamic_macro.h): the meaning,
    on sequences of key records. */
module MacroRecording {
  import opened TapRecords

  datatype Slot = One | Two

  /** Either both macros are stored, or one is being recorded and the other is stored. */
  datatype State =
    | Idle(first: seq<Record>, second: seq<Record>)
    | Recording(slot: Slot, taken: seq<Record>, other: seq<Record>)

  datatype Code = RecStart(slot: Slot) | Play(slot: Slot) | RecStop | OtherCode

  datatype Input = Input(code: Code, record: Record)

  /** What is asked of the rest of the firmware */
  datatype Act = ClearKeyboard | ClearLayers | Replay(record: Record)

  function StoredIn(s: State, slot: Slot): seq<Record>
    requires s.Idle?
  {
    if slot.One? then s.first else s.second
  }

  /** The stored macro that a state still has for a slot */
  predicate Keeps(s: State, slot: Slot, macro: seq<Record>) {
    match s
    case Idle(_, _) => StoredIn(s, slot) == macro
    case Recording(busy, _, other) => busy != slot && other == macro
  }

  function OtherSlot(slot: Slot): Slot {
    if slot.One? then Two else One
  }

  function Idling(slot: Slot, macro: seq<Record>, other: seq<Record>): State {
    if slot.One? then Idle(macro, other) else Idle(other, macro)
  }

  // ---------- the steps ----------

  /** dynamic_macro_record_key */
  function Take(taken: seq<Record>, room: nat, r: Record): seq<Record> {
    if !r.event.pressed && taken == [] then taken
    else if |taken| < room then taken + [r]
    else taken
  }

  /** Keys still held when the recording stops are not saved. */
  function Trim(rs: seq<Record>): seq<Record> {
    if rs != [] && rs[|rs| - 1].event.pressed then Trim(rs[..|rs| - 1]) else rs
  }

  function Replays(rs: seq<Record>): seq<Act> {
    if rs == [] then [] else Replays(rs[..|rs| - 1]) + [Replay(rs[|rs| - 1])]
  }

  lemma ReplaysNext(rs: seq<Record>, n: nat)
    requires n < |rs|
    ensures Replays(rs[..n + 1]) == Replays(rs[..n]) + [Replay(rs[n])]
  {
    assert rs[..n + 1][..n] == rs[..n];
  }

  function Playing(rs: seq<Record>): seq<Act> {
    [ClearKeyboard, ClearLayers] + Replays(rs) + [ClearKeyboard]
  }

  datatype Result = Result(state: State, acts: seq<Act>, passOn: bool)

  function Room(size: nat, other: seq<Record>): nat {
    if |other| <= size then size - |other| else 0
  }

  /** process_record_dynamic_macro */
  function Step(s: State, size: nat, input: Input): Result {
    match s
    case Idle(first, second) =>
      if input.record.event.pressed then Result(s, [], true)
      else (
        match input.code
        case RecStart(slot) =>
          Result(Recording(slot, [], StoredIn(s, OtherSlot(slot))), [ClearKeyboard, ClearLayers], false)
        case Play(slot) => Result(s, Playing(StoredIn(s, slot)), false)
        case RecStop => Result(s, [], true)
        case OtherCode => Result(s, [], true)
      )
    case Recording(slot, taken, other) =>
      match input.code
      case RecStop => Result(if input.record.event.pressed then Idling(slot, Trim(taken), other) else s, [], false)
      case Play(_) => Result(s, [], false)
      case RecStart(_) => Result(Recording(slot, Take(taken, Room(size, other), input.record), other), [], true)
      case OtherCode => Result(Recording(slot, Take(taken, Room(size, other), input.record), other), [], true)
  }

  function Run(s: State, size: nat, inputs: seq<Input>): State {
    if inputs == [] then s else Step(Run(s, size, inputs[..|inputs| - 1]), size, inputs[|inputs| - 1]).state
  }

  predicate Fits(s: State, size: nat) {
    match s
    case Idle(first, second) => |first| + |second| <= size
    case Recording(_, taken, other) => |taken| + |other| <= size
  }

  lemma {:induction false} TrimIsPrefix(rs: seq<Record>)
    ensures Trim(rs) <= rs
    ensures Trim(rs) == [] || !Trim(rs)[|Trim(rs)| - 1].event.pressed
    ensures forall i :: |Trim(rs)| <= i < |rs| ==> rs[i].event.pressed
  {
    if rs != [] && rs[|rs| - 1].event.pressed { TrimIsPrefix(rs[..|rs| - 1]); }
  }

  /** The two macros together never outgrow the buffer. */
  lemma {:induction false} AlwaysFits(s: State, size: nat, inputs: seq<Input>)
    requires Fits(s, size)
    ensures Fits(Run(s, size, inputs), size)
  {
    if inputs != [] {
      AlwaysFits(s, size, inputs[..|inputs| - 1]);
      var t := Run(s, size, inputs[..|inputs| - 1]);
      if t.Recording? { TrimIsPrefix(t.taken); }
    }
  }

  // ---------- what a recording stores ----------

  /** The records an input sequence offers to a recording */
  function Offered(inputs: seq<Input>): seq<Record> {
    if inputs == [] then []
    else
      var last := inputs[|inputs| - 1];
      var before := Offered(inputs[..|inputs| - 1]);
      if last.code.RecStop? || last.code.Play? then before else before + [last.record]
  }

  function DropReleases(rs: seq<Record>): seq<Record> {
    if rs != [] && !rs[0].event.pressed then DropReleases(rs[1..]) else rs
  }

  function Cut(rs: seq<Record>, n: nat): seq<Record> {
    if |rs| <= n then rs else rs[..n]
  }

  lemma {:induction false} DropReleasesAppend(rs: seq<Record>, r: Record)
    ensures DropReleases(rs + [r])
            == if DropReleases(rs) == [] && !r.event.pressed then [] else DropReleases(rs) + [r]
  {
    if rs == [] {
      assert rs + [r] == [r];
      assert [r][1..] == [];
    } else if !rs[0].event.pressed {
      assert (rs + [r])[1..] == rs[1..] + [r];
      DropReleasesAppend(rs[1..], r);
    }
  }

  lemma TakeCuts(rs: seq<Record>, n: nat, r: Record)
    ensures Take(Cut(rs, n), n, r) == Cut(if rs == [] && !r.event.pressed then [] else rs + [r], n)
  {
  }

  predicate Stops(i: Input) {
    i.code.RecStop? && i.record.event.pressed
  }

  lemma {:induction false} TakesOffered(slot: Slot, other: seq<Record>, size: nat, inputs: seq<Input>)
    requires forall i :: 0 <= i < |inputs| ==> !Stops(inputs[i])
    ensures Run(Recording(slot, [], other), size, inputs)
            == Recording(slot, Cut(DropReleases(Offered(inputs)), Room(size, other)), other)
  {
    if inputs != [] {
      var n := |inputs| - 1;
      TakesOffered(slot, other, size, inputs[..n]);
      DropReleasesAppend(Offered(inputs[..n]), inputs[n].record);
      TakeCuts(DropReleases(Offered(inputs[..n])), Room(size, other), inputs[n].record);
    }
  }

  lemma {:induction false} RunAppend(s: State, size: nat, a: seq<Input>, b: seq<Input>)
    ensures Run(s, size, a + b) == Run(Run(s, size, a), size, b)
  {
    if b == [] {
      assert a + b == a;
    } else {
      RunAppend(s, size, a, b[..|b| - 1]);
      assert (a + b)[..|a + b| - 1] == a + b[..|b| - 1];
    }
  }

  /** One recording, from the release of its start key to the press of the stop key: leading releases
      are dropped, the rest is cut to the room the other macro leaves, trailing presses are trimmed,
      and the other macro is unchanged. */
  lemma RecordingStores(s: State, size: nat, start: Input, inputs: seq<Input>, stop: Input)
    requires s.Idle? && start.code.RecStart? && !start.record.event.pressed && Stops(stop)
    requires forall i :: 0 <= i < |inputs| ==> !Stops(inputs[i])
    ensures var slot := start.code.slot; var other := StoredIn(s, OtherSlot(slot));
      Run(s, size, [start] + inputs + [stop])
      == Idling(slot, Trim(Cut(DropReleases(Offered(inputs)), Room(size, other))), other)
  {
    RunAppend(s, size, [start] + inputs, [stop]);
    RunAppend(s, size, [start], inputs);
    assert [start][..0] == [] && [stop][..0] == [];
    TakesOffered(start.code.slot, StoredIn(s, OtherSlot(start.code.slot)), size, inputs);
  }

  /** Input n starts a recording into the slot: its start key is released while nothing is recorded. */
  predicate StartsAt(s: State, size: nat, inputs: seq<Input>, slot: Slot, n: nat)
    requires n < |inputs|
  {
    && inputs[n].code == RecStart(slot) && !inputs[n].record.event.pressed
    && Run(s, size, inputs[..n]).Idle?
  }

  /** One input of any kind */
  lemma StepKeepsExactly(s: State, size: nat, input: Input, slot: Slot, macro: seq<Record>)
    requires Keeps(s, slot, macro)
    ensures Keeps(Step(s, size, input).state, slot, macro)
        <==> !(s.Idle? && input.code == RecStart(slot) && !input.record.event.pressed)
  {
  }

  lemma RunNext(s: State, size: nat, inputs: seq<Input>, n: nat)
    requires n < |inputs|
    ensures Run(s, size, inputs[..n + 1]) == Step(Run(s, size, inputs[..n]), size, inputs[n]).state
  {
    assert inputs[..n + 1][..n] == inputs[..n];
  }

  lemma {:induction false} KeptUpTo(s: State, size: nat, inputs: seq<Input>, slot: Slot, macro: seq<Record>, n: nat)
    requires Keeps(s, slot, macro) && n <= |inputs|
    requires forall k :: 0 <= k < n ==> !StartsAt(s, size, inputs, slot, k)
    ensures Keeps(Run(s, size, inputs[..n]), slot, macro)
  {
    if n == 0 {
      assert inputs[..0] == [];
    } else {
      KeptUpTo(s, size, inputs, slot, macro, n - 1);
      RunNext(s, size, inputs, n - 1);
      assert !StartsAt(s, size, inputs, slot, n - 1);
      StepKeepsExactly(Run(s, size, inputs[..n - 1]), size, inputs[n - 1], slot, macro);
    }
  }

  /** A stored macro is kept at every moment if and only if no recording into its own slot starts. */
  lemma MacroSurvivesExactly(s: State, size: nat, inputs: seq<Input>, slot: Slot, macro: seq<Record>)
    requires Keeps(s, slot, macro)
    ensures (forall n :: 0 <= n <= |inputs| ==> Keeps(Run(s, size, inputs[..n]), slot, macro))
        <==> (forall n :: 0 <= n < |inputs| ==> !StartsAt(s, size, inputs, slot, n))
  {
    if forall n :: 0 <= n < |inputs| ==> !StartsAt(s, size, inputs, slot, n) {
      forall n | 0 <= n <= |inputs|
        ensures Keeps(Run(s, size, inputs[..n]), slot, macro)
      {
        KeptUpTo(s, size, inputs, slot, macro, n);
      }
    } else {
      var n :| 0 <= n < |inputs| && StartsAt(s, size, inputs, slot, n);
      RunNext(s, size, inputs, n);
      if Keeps(Run(s, size, inputs[..n]), slot, macro) {
        StepKeepsExactly(Run(s, size, inputs[..n]), size, inputs[n], slot, macro);
      }
    }
  }

  /** Playing much later, with no recording into the slot in between, still replays the recording exactly,
      record by record. */
  lemma PlayReplays(s: State, size: nat, start: Input, inputs: seq<Input>, stop: Input, later: seq<Input>, play: Input)
    requires s.Idle? && start.code.RecStart? && !start.record.event.pressed && Stops(stop)
    requires forall i :: 0 <= i < |inputs| ==> !Stops(inputs[i])
    requires var mid := Run(s, size, [start] + inputs + [stop]);
      forall n :: 0 <= n < |later| ==> !StartsAt(mid, size, later, start.code.slot, n)
    requires play.code == Play(start.code.slot) && !play.record.event.pressed
    ensures var t := Run(s, size, [start] + inputs + [stop] + later);
      var other := StoredIn(s, OtherSlot(start.code.slot));
      t.Idle? ==>
        Step(t, size, play).acts == Playing(Trim(Cut(DropReleases(Offered(inputs)), Room(size, other))))
        && Step(t, size, play).state == t
  {
    var slot := start.code.slot;
    RecordingStores(s, size, start, inputs, stop);
    RunAppend(s, size, [start] + inputs + [stop], later);
    var mid := Run(s, size, [start] + inputs + [stop]);
    KeptUpTo(mid, size, later, slot, StoredIn(mid, slot), |later|);
    assert later[..|later|] == later;
  }
}
