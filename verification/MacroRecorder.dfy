/** The two-ended macro buffer of quantum/dynamic_macro.h. The first macro grows from the left end of
    the buffer, the second from the right; pointers are indices, and the end of a full second macro
    is the index before the buffer. */
module MacroRecorder {
  import opened MacroRecording
  import opened TapRecords

  class Recorder {
    const size: nat
    const buffer: array<Record>
    var macroEnd: int
    var rMacroEnd: int
    var macroPointer: int
    /** 0, or the macro that is being recorded */
    var macroId: int
    /** The layers, and how the handling of a record changes them */
    var layerState: set<nat>
    const layersAfter: (set<nat>, Record) -> set<nat>
    ghost var acts: seq<Act>

    ghost predicate Valid()
      reads this, buffer
    {
      && buffer.Length == size > 0
      && 0 <= macroEnd <= size && -1 <= rMacroEnd < size
      && (macroId == 0 ==> macroEnd <= rMacroEnd + 1)
      && (macroId == 1 ==> 0 <= macroPointer <= rMacroEnd + 1)
      && (macroId == 2 ==> macroEnd - 1 <= macroPointer < size)
      && 0 <= macroId <= 2
    }

    /** The records left of an index, and those right of an index from the right end */
    ghost function Left(end: int): seq<Record>
      reads this, buffer
      requires buffer.Length == size && 0 <= end <= size
    {
      buffer[..end]
    }

    ghost function Right(end: int): seq<Record>
      reads this, buffer
      requires buffer.Length == size && -1 <= end < size
    {
      var records := buffer[..];
      seq(size - 1 - end, i requires 0 <= i < size - 1 - end => records[size - 1 - i])
    }

    ghost function State(): State
      reads this, buffer
      requires Valid()
    {
      if macroId == 0 then Idle(Left(macroEnd), Right(rMacroEnd))
      else if macroId == 1 then Recording(One, Left(macroPointer), Right(rMacroEnd))
      else Recording(Two, Right(macroPointer), Left(macroEnd))
    }

    constructor (size: nat, layersAfter: (set<nat>, Record) -> set<nat>)
      requires size > 0
      ensures Valid() && fresh(buffer) && State() == Idle([], []) && acts == []
      ensures this.size == size && this.layersAfter == layersAfter
    {
      this.size, this.layersAfter := size, layersAfter;
      buffer := new Record[size](i => NO_RECORD);
      macroEnd, rMacroEnd, macroPointer, macroId := 0, size - 1, 0, 0;
      layerState := {};
      acts := [];
    }

    /** dynamic_macro_record_start */
    method RecordStart(start: int)
      modifies this`macroPointer, this`layerState, this`acts
      ensures macroPointer == start && layerState == {} && acts == old(acts) + [ClearKeyboard, ClearLayers]
    {
      layerState := {};
      acts := acts + [ClearKeyboard, ClearLayers];
      macroPointer := start;
    }

    /** A stored macro from one of the ends: its length, and its record at a place */
    ghost predicate StoredFrom(start: int, end: int, direction: int, macro: seq<Record>)
      reads this, buffer
      requires Valid()
    {
      (direction == 1 && start == 0 && end == macroEnd && macro == Left(macroEnd))
      || (direction == -1 && start == size - 1 && end == rMacroEnd && macro == Right(rMacroEnd))
    }

    static function Place(start: int, direction: int, i: nat): int {
      if direction == 1 then start + i else start - i
    }

    static lemma PlayedAll(t: seq<Act>, rs: seq<Record>)
      ensures t + [ClearKeyboard, ClearLayers] + Replays(rs) + [ClearKeyboard] == t + Playing(rs)
    {
    }

    lemma RecordAt(start: int, end: int, direction: int, macro: seq<Record>, i: nat)
      requires Valid() && StoredFrom(start, end, direction, macro) && i <= |macro|
      ensures Place(start, direction, i) == end <==> i == |macro|
      ensures i < |macro| ==>
        0 <= Place(start, direction, i) < size && buffer[Place(start, direction, i)] == macro[i]
        && Place(start, direction, i + 1) == Place(start, direction, i) + direction
    {
    }

    /** dynamic_macro_play */
    method PlayMacro(start: int, end: int, direction: int, ghost macro: seq<Record>)
      requires Valid() && macroId == 0 && StoredFrom(start, end, direction, macro)
      modifies this`layerState, this`acts
      ensures acts == old(acts) + Playing(macro) && layerState == old(layerState)
    {
      var saved := layerState;
      acts := acts + [ClearKeyboard, ClearLayers];
      layerState := {};
      var p := start;
      ghost var played, begun, sent: seq<Act> := 0, acts, [];
      while p != end
        invariant StoredFrom(start, end, direction, macro)
        invariant 0 <= played <= |macro| && p == Place(start, direction, played)
        invariant acts == begun + sent && sent == Replays(macro[..played])
        decreases |macro| - played
      {
        RecordAt(start, end, direction, macro, played);
        layerState := layersAfter(layerState, buffer[p]);
        acts := acts + [Replay(buffer[p])];
        ReplaysNext(macro, played);
        sent := sent + [Replay(macro[played])];
        p := p + direction;
        played := played + 1;
      }
      RecordAt(start, end, direction, macro, played);
      acts := acts + [ClearKeyboard];
      layerState := saved;
      assert macro[..played] == macro;
      PlayedAll(old(acts), macro);
    }

    /** dynamic_macro_record_key */
    method RecordKey(start: int, otherEnd: int, direction: int, record: Record)
      requires Valid()
      requires direction == 1 ==> macroId == 1 && start == 0 && otherEnd == rMacroEnd
      requires direction == -1 ==> macroId == 2 && start == size - 1 && otherEnd == macroEnd
      requires direction == 1 || direction == -1
      modifies this`macroPointer, buffer
      ensures Valid()
      ensures var s := old(State());
        State() == Recording(s.slot, Take(s.taken, Room(size, s.other), record), s.other)
    {
      if !record.event.pressed && macroPointer == start {
        return;
      }
      if macroPointer - direction != otherEnd {
        ghost var left, right := Left(macroEnd), Right(rMacroEnd);
        buffer[macroPointer] := record;
        macroPointer := macroPointer + direction;
        if direction == 1 {
          assert Left(macroPointer) == old(Left(macroPointer)) + [record];
          assert Right(rMacroEnd) == right;
        } else {
          assert Right(macroPointer) == old(Right(macroPointer)) + [record];
          assert Left(macroEnd) == left;
        }
      }
    }

    /** dynamic_macro_record_end: the end of the macro without its trailing presses */
    method RecordEnd(start: int, direction: int) returns (end: int)
      requires Valid()
      requires direction == 1 ==> macroId == 1 && start == 0
      requires direction == -1 ==> macroId == 2 && start == size - 1
      requires direction == 1 || direction == -1
      ensures direction == 1 ==> 0 <= end <= macroPointer && Left(end) == Trim(Left(macroPointer))
      ensures direction == -1 ==> macroPointer <= end < size && Right(end) == Trim(Right(macroPointer))
    {
      end := macroPointer;
      while end != start && buffer[end - direction].event.pressed
        invariant direction == 1 ==> 0 <= end <= macroPointer && Trim(Left(end)) == Trim(Left(macroPointer))
        invariant direction == -1 ==> macroPointer <= end < size && Trim(Right(end)) == Trim(Right(macroPointer))
        decreases if direction == 1 then end else size - end
      {
        if direction == 1 {
          assert Left(end)[..end - 1] == Left(end - 1);
        } else {
          assert Right(end)[..size - 2 - end] == Right(end + 1);
        }
        end := end - direction;
      }
    }

    /** process_record_dynamic_macro */
    method Process(code: Code, record: Record) returns (passOn: bool)
      requires Valid()
      modifies this, buffer
      ensures Valid()
      ensures var r := Step(old(State()), size, Input(code, record));
        State() == r.state && acts == old(acts) + r.acts && passOn == r.passOn
      ensures layerState == if old(macroId) == 0 && !record.event.pressed && code.RecStart? then {} else old(layerState)
    {
      if macroId == 0 {
        passOn := ProcessIdle(code, record);
      } else {
        passOn := ProcessRecording(code, record);
      }
    }

    /** Not recording: the keys act when they are released. */
    method ProcessIdle(code: Code, record: Record) returns (passOn: bool)
      requires Valid() && macroId == 0
      modifies this, buffer
      ensures Valid()
      ensures var r := Step(old(State()), size, Input(code, record));
        State() == r.state && acts == old(acts) + r.acts && passOn == r.passOn
      ensures layerState == if !record.event.pressed && code.RecStart? then {} else old(layerState)
    {
      if !record.event.pressed {
        match code
        case RecStart(slot) =>
          if slot.One? {
            RecordStart(0);
            macroId := 1;
          } else {
            RecordStart(size - 1);
            macroId := 2;
          }
          return false;
        case Play(slot) =>
          if slot.One? {
            PlayMacro(0, macroEnd, 1, Left(macroEnd));
          } else {
            PlayMacro(size - 1, rMacroEnd, -1, Right(rMacroEnd));
          }
          return false;
        case RecStop =>
        case OtherCode =>
      }
      return true;
    }

    /** Recording: the stop key ends it when it is pressed, the playing keys do nothing, all others are kept. */
    method ProcessRecording(code: Code, record: Record) returns (passOn: bool)
      requires Valid() && macroId != 0
      modifies this, buffer
      ensures Valid()
      ensures var r := Step(old(State()), size, Input(code, record));
        State() == r.state && acts == old(acts) + r.acts && passOn == r.passOn
      ensures layerState == old(layerState)
    {
      match code
      case RecStop =>
        if record.event.pressed {
          if macroId == 1 {
            macroEnd := RecordEnd(0, 1);
          } else {
            rMacroEnd := RecordEnd(size - 1, -1);
          }
          macroId := 0;
        }
        return false;
      case Play(_) =>
        return false;
      case RecStart(_) =>
        Keep(record);
        return true;
      case OtherCode =>
        Keep(record);
        return true;
    }

    method Keep(record: Record)
      requires Valid() && macroId != 0
      modifies this`macroPointer, buffer
      ensures Valid()
      ensures var s := old(State());
        State() == Recording(s.slot, Take(s.taken, Room(size, s.other), record), s.other)
    {
      if macroId == 1 {
        RecordKey(0, rMacroEnd, 1, record);
      } else {
        RecordKey(size - 1, macroEnd, -1, record);
      }
    }
  }
}
