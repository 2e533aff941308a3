/** Key events and key records, as quantum/keyboard.h and quantum/action.h define them. */
module TapRecords {

  type Time = t: int | 0 <= t < 0x1_0000

  datatype Key = Key(row: nat, col: nat)

  datatype Event = Event(key: Key, pressed: bool, time: Time)

  datatype Tap = Tap(count: nat, interrupted: bool)

  datatype Record = Record(event: Event, tap: Tap)

  const NO_TAP := Tap(0, false)
  const NO_RECORD := Record(Event(Key(0, 0), false, 0), NO_TAP)
  const TICK_KEY := Key(255, 255)

  predicate IsNoEvent(e: Event) {
    e.time == 0 || e.key == TICK_KEY
  }

  /** What the firmware feeds into the machine: keyboard_task makes every event's time odd,
      and a tick is not pressed. */
  predicate Fed(e: Event) {
    e.time != 0 && (e.key == TICK_KEY ==> !e.pressed)
  }

  /** 16-bit timer difference: wraps around. */
  function Elapsed(later: Time, earlier: Time): Time {
    (later - earlier) % 0x1_0000
  }

  /** An entry of the output: a record handed to process_record, a release made up by the
      machine, or the call of clear_keyboard after an overflow. */
  datatype Emit = Real(record: Record) | Synthetic(record: Record) | Cleared

  /** What the machine asks of the rest of the firmware. The answers may depend on everything
      emitted so far, because that determines the layers: is the key a tap key, must its
      release be held back, and how long is the tapping term. */
  datatype Env = Env(
    isTap: (seq<Emit>, Key) -> bool,
    retains: (seq<Emit>, Record) -> bool,
    term: (seq<Emit>, Record) -> nat)
}
