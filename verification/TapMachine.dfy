/** The static variables of quantum/action_tapping.c and the functions that update them in
    place: the ring buffer with its head and tail, and the tapping key. */
module TapMachine {
  import opened TapRecords
  import T = Tapping

  function Succ(i: nat): (j: nat)
    requires i < T.BUFFER_SIZE
    ensures j < T.BUFFER_SIZE
  {
    (i + 1) % T.BUFFER_SIZE
  }

  /** How many entries lie between tail and head. */
  function Used(head: nat, tail: nat): (n: nat)
    requires head < T.BUFFER_SIZE && tail < T.BUFFER_SIZE
    ensures n < T.BUFFER_SIZE
    ensures n == 0 <==> head == tail
    ensures head == (tail + n) % T.BUFFER_SIZE
  {
    if tail <= head then head - tail else head + T.BUFFER_SIZE - tail
  }

  /** The entries of the ring, oldest first. */
  function Ring(slots: seq<Record>, head: nat, tail: nat): (r: seq<Record>)
    requires |slots| == T.BUFFER_SIZE && head < T.BUFFER_SIZE && tail < T.BUFFER_SIZE
    ensures |r| == Used(head, tail)
  {
    seq(Used(head, tail), k requires 0 <= k < Used(head, tail) => slots[(tail + k) % T.BUFFER_SIZE])
  }

  lemma RingEnqueue(slots: seq<Record>, head: nat, tail: nat, r: Record)
    requires |slots| == T.BUFFER_SIZE && head < T.BUFFER_SIZE && tail < T.BUFFER_SIZE
    requires Succ(head) != tail
    ensures Ring(slots[head := r], Succ(head), tail) == Ring(slots, head, tail) + [r]
  {
  }

  lemma RingDequeue(slots: seq<Record>, head: nat, tail: nat)
    requires |slots| == T.BUFFER_SIZE && head < T.BUFFER_SIZE && tail < T.BUFFER_SIZE
    requires head != tail
    ensures Ring(slots, head, Succ(tail)) == Ring(slots, head, tail)[1..]
  {
  }

  lemma RingUpdate(slots: seq<Record>, head: nat, tail: nat, k: nat, r: Record)
    requires |slots| == T.BUFFER_SIZE && head < T.BUFFER_SIZE && tail < T.BUFFER_SIZE
    requires k < Used(head, tail)
    ensures Ring(slots[(tail + k) % T.BUFFER_SIZE := r], head, tail) == Ring(slots, head, tail)[k := r]
  {
  }

  /** Walking the ring: the slot of the k-th entry, and the next slot */
  lemma RingAt(slots: seq<Record>, head: nat, tail: nat, i: nat, k: nat)
    requires |slots| == T.BUFFER_SIZE && head < T.BUFFER_SIZE && tail < T.BUFFER_SIZE
    requires k <= Used(head, tail) && i == (tail + k) % T.BUFFER_SIZE
    ensures i == head <==> k == Used(head, tail)
    ensures k < Used(head, tail) ==>
      Ring(slots, head, tail)[k] == slots[i] && Succ(i) == (tail + k + 1) % T.BUFFER_SIZE
  {
  }

  class Machine {
    const env: Env
    const waitingBuffer: array<Record>
    var tappingKey: Record
    var head: nat
    var tail: nat
    /** Everything handed to the rest of the firmware. */
    var log: seq<Emit>

    ghost predicate Valid()
      reads this
    {
      waitingBuffer.Length == T.BUFFER_SIZE && head < T.BUFFER_SIZE && tail < T.BUFFER_SIZE
    }

    ghost function Buffer(): seq<Record>
      requires Valid()
      reads this, waitingBuffer
    {
      Ring(waitingBuffer[..], head, tail)
    }

    ghost function State(): T.State
      requires Valid()
      reads this, waitingBuffer
    {
      T.State(tappingKey, Buffer(), log)
    }

    constructor (env: Env)
      ensures Valid() && fresh(waitingBuffer) && this.env == env && State() == T.INIT
    {
      this.env := env;
      waitingBuffer := new Record[T.BUFFER_SIZE](_ => NO_RECORD);
      tappingKey := NO_RECORD;
      head, tail := 0, 0;
      log := [];
    }

    method ProcessRecord(r: Record)
      requires Valid()
      modifies this`log
      ensures Valid() && State() == T.Deliver(old(State()), r)
    {
      if !IsNoEvent(r.event) {
        log := log + [Real(r)];
      }
    }

    method WaitingBufferEnq(r: Record) returns (ok: bool)
      requires Valid()
      modifies this`head, waitingBuffer
      ensures Valid()
      ensures ok == (IsNoEvent(r.event) || !T.IsFull(old(Buffer())))
      ensures Buffer() == if ok && !IsNoEvent(r.event) then old(Buffer()) + [r] else old(Buffer())
    {
      if IsNoEvent(r.event) {
        return true;
      }
      if Succ(head) == tail {
        return false;
      }
      RingEnqueue(waitingBuffer[..], head, tail, r);
      ghost var slots := waitingBuffer[..];
      waitingBuffer[head] := r;
      assert waitingBuffer[..] == slots[head := r];
      head := Succ(head);
      return true;
    }

    method WaitingBufferClear()
      requires Valid()
      modifies this`head, this`tail
      ensures Valid() && Buffer() == []
    {
      head := 0;
      tail := 0;
    }

    method WaitingBufferTyped(e: Event) returns (typed: bool)
      requires Valid()
      ensures typed == T.Typed(Buffer(), e)
    {
      var i := tail;
      ghost var k := 0;
      RingAt(waitingBuffer[..], head, tail, i, k);
      while i != head
        invariant 0 <= k <= |Buffer()| && i == (tail + k) % T.BUFFER_SIZE
        invariant i == head <==> k == |Buffer()|
        invariant forall j :: 0 <= j < k ==>
                    !(Buffer()[j].event.key == e.key && Buffer()[j].event.pressed != e.pressed)
        decreases |Buffer()| - k
      {
        RingAt(waitingBuffer[..], head, tail, i, k);
        RingAt(waitingBuffer[..], head, tail, Succ(i), k + 1);
        if waitingBuffer[i].event.key == e.key && waitingBuffer[i].event.pressed != e.pressed {
          return true;
        }
        i := Succ(i);
        k := k + 1;
      }
      return false;
    }

    method CountTap(i: nat, ghost k: nat)
      requires Valid() && k < |Buffer()| && i == (tail + k) % T.BUFFER_SIZE
      modifies this`tappingKey, this`log, waitingBuffer
      ensures Valid()
      ensures var tk := T.WithCount(old(tappingKey), 1);
        State() == T.Deliver(T.State(tk, old(Buffer())[k := T.WithCount(old(Buffer())[k], 1)], old(log)), tk)
    {
      tappingKey := T.WithCount(tappingKey, 1);
      ghost var slots := waitingBuffer[..];
      RingUpdate(slots, head, tail, k, T.WithCount(waitingBuffer[i], 1));
      waitingBuffer[i] := T.WithCount(waitingBuffer[i], 1);
      assert waitingBuffer[..] == slots[i := waitingBuffer[i]];
      ProcessRecord(tappingKey);
    }

    /** Whether the k-th entry, in slot i, ends the tap; if not, the search goes on behind it. */
    method EndsAt(i: nat, ghost k: nat) returns (ends: bool)
      requires Valid() && k < |Buffer()| && i == (tail + k) % T.BUFFER_SIZE
      ensures ends == T.EndsTap(env, State(), k) && Succ(i) == (tail + k + 1) % T.BUFFER_SIZE
      ensures !ends ==> T.FindTap(env, State(), k) == T.FindTap(env, State(), k + 1)
      ensures ends ==> T.FindTap(env, State(), k) == k
    {
      RingAt(waitingBuffer[..], head, tail, i, k);
      ends := EndsTap(waitingBuffer[i].event);
    }

    /** The slot of the first release that ends the tap, or head. */
    method FindTapSlot() returns (i: nat, ghost k: nat)
      requires Valid()
      ensures k == T.FindTap(env, State(), 0) && i == (tail + k) % T.BUFFER_SIZE
      ensures i == head <==> k == |Buffer()|
    {
      i := tail;
      k := 0;
      RingAt(waitingBuffer[..], head, tail, i, k);
      while i != head
        invariant 0 <= k <= |Buffer()| && i == (tail + k) % T.BUFFER_SIZE
        invariant i == head <==> k == |Buffer()|
        invariant T.FindTap(env, State(), 0) == T.FindTap(env, State(), k)
        decreases |Buffer()| - k
      {
        var ends := EndsAt(i, k);
        if ends {
          return;
        }
        RingAt(waitingBuffer[..], head, tail, Succ(i), k + 1);
        i := Succ(i);
        k := k + 1;
      }
    }

    predicate EndsTap(e: Event)
      reads this
    {
      !IsNoEvent(tappingKey.event) && tappingKey.event.key == e.key && !e.pressed
      && Elapsed(e.time, tappingKey.event.time) < env.term(log, tappingKey)
    }

    method WaitingBufferScanTap()
      requires Valid()
      modifies this`tappingKey, this`log, waitingBuffer
      ensures Valid() && State() == T.ScanTap(env, old(State()))
    {
      if tappingKey.tap.count > 0 || !tappingKey.event.pressed {
        return;
      }
      var i, k := FindTapSlot();
      if i != head {
        CountTap(i, k);
      }
    }

    method ReleaseLastTapAndStart(r: Record)
      requires Valid()
      modifies this`tappingKey, this`log, waitingBuffer
      ensures Valid() && State() == T.StartTap(env, old(State()), r).st
    {
      if tappingKey.tap.count > 1 {
        log := log + [Synthetic(Record(Event(tappingKey.event.key, false, r.event.time), tappingKey.tap))];
      }
      tappingKey := r;
      WaitingBufferScanTap();
    }

    method ProcessUndecided(r: Record) returns (keyp: Record, consumed: bool)
      requires Valid()
      modifies this`tappingKey, this`log
      ensures Valid() && T.Outcome(State(), keyp, consumed) == T.ProcessUndecided(env, old(State()), r)
    {
      var e := r.event;
      keyp := r;
      var typed := WaitingBufferTyped(e);
      if !IsNoEvent(tappingKey.event) && tappingKey.event.key == e.key && !e.pressed {
        tappingKey := T.WithCount(tappingKey, 1);
        ProcessRecord(tappingKey);
        return r.(tap := tappingKey.tap), false;
      } else if !IsNoEvent(e) && !e.pressed && typed {
        ProcessRecord(tappingKey);
        tappingKey := NO_RECORD;
        return r, false;
      } else if !IsNoEvent(e) && !e.pressed && !typed {
        if env.retains(log, r) {
          return r, false;
        }
        ProcessRecord(r);
        return r, true;
      } else {
        if e.pressed {
          tappingKey := tappingKey.(tap := tappingKey.tap.(interrupted := true));
        }
        return r, false;
      }
    }

    method ProcessTapHeld(r: Record) returns (keyp: Record, consumed: bool)
      requires Valid()
      modifies this`tappingKey, this`log, waitingBuffer
      ensures Valid() && T.Outcome(State(), keyp, consumed) == T.ProcessTapHeld(env, old(State()), r)
    {
      var e := r.event;
      keyp, consumed := r, true;
      if !IsNoEvent(tappingKey.event) && tappingKey.event.key == e.key && !e.pressed {
        var within := Elapsed(e.time, tappingKey.event.time) < env.term(log, tappingKey);
        keyp := r.(tap := tappingKey.tap);
        ProcessRecord(keyp);
        tappingKey := if within then keyp else NO_RECORD;
      } else if env.isTap(log, e.key) && e.pressed {
        ReleaseLastTapAndStart(r);
      } else {
        ProcessRecord(r);
      }
    }

    method ProcessTapReleased(r: Record) returns (keyp: Record, consumed: bool)
      requires Valid()
      modifies this`tappingKey, this`log, waitingBuffer
      ensures Valid() && T.Outcome(State(), keyp, consumed) == T.ProcessTapReleased(env, old(State()), r)
    {
      var e := r.event;
      keyp, consumed := r, true;
      if Elapsed(e.time, tappingKey.event.time) < env.term(log, tappingKey) {
        if e.pressed {
          if tappingKey.event.key == e.key {
            if !tappingKey.tap.interrupted && tappingKey.tap.count > 0 {
              keyp := r.(tap := tappingKey.tap);
              if keyp.tap.count < 15 {
                keyp := T.WithCount(keyp, keyp.tap.count + 1);
              }
              ProcessRecord(keyp);
            }
            tappingKey := keyp;
          } else if env.isTap(log, e.key) {
            tappingKey := r;
            WaitingBufferScanTap();
          } else {
            tappingKey := tappingKey.(tap := tappingKey.tap.(interrupted := true));
            ProcessRecord(r);
          }
        } else {
          ProcessRecord(r);
        }
      } else {
        tappingKey := NO_RECORD;
        consumed := false;
      }
    }

    /** process_tapping; the changed record is handed back. */
    method ProcessTapping(r: Record) returns (keyp: Record, consumed: bool)
      requires Valid()
      modifies this`tappingKey, this`log, waitingBuffer
      ensures Valid() && T.Outcome(State(), keyp, consumed) == T.Process(env, old(State()), r)
    {
      keyp := r;
      if !IsNoEvent(tappingKey.event) && tappingKey.event.pressed {
        if tappingKey.tap.count > 0 {
          keyp, consumed := ProcessTapHeld(r);
        } else if Elapsed(r.event.time, tappingKey.event.time) < env.term(log, tappingKey) {
          keyp, consumed := ProcessUndecided(r);
        } else {
          ProcessRecord(tappingKey);
          tappingKey := NO_RECORD;
          consumed := false;
        }
      } else if !IsNoEvent(tappingKey.event) {
        keyp, consumed := ProcessTapReleased(r);
      } else if r.event.pressed && env.isTap(log, r.event.key) {
        tappingKey := r;
        WaitingBufferScanTap();
        consumed := true;
      } else {
        ProcessRecord(r);
        consumed := true;
      }
    }

    /** The oldest record is tried; it leaves the buffer or stays, changed, at its place. */
    method ProcessOldest() returns (consumed: bool)
      requires Valid() && tail != head
      modifies this, waitingBuffer
      ensures Valid()
      ensures var o := T.Process(env, old(State()), old(Buffer())[0]);
        && consumed == o.consumed && |o.st.buf| == |old(Buffer())|
        && State() == if consumed then o.st.(buf := o.st.buf[1..]) else o.st.(buf := o.st.buf[0 := o.keyp])
    {
      T.ProcessKeepsLength(env, State(), Buffer()[0]);
      assert waitingBuffer[tail] == Buffer()[0];
      var keyp;
      keyp, consumed := ProcessTapping(waitingBuffer[tail]);
      ghost var slots := waitingBuffer[..];
      if consumed {
        RingDequeue(slots, head, tail);
        tail := Succ(tail);
      } else {
        RingUpdate(slots, head, tail, 0, keyp);
        waitingBuffer[tail] := keyp;
        assert waitingBuffer[..] == slots[tail := keyp];
      }
    }

    method ProcessWaitingBuffer()
      requires Valid()
      modifies this, waitingBuffer
      ensures Valid() && State() == T.Drain(env, old(State()))
    {
      while tail != head
        invariant Valid() && T.Drain(env, State()) == T.Drain(env, old(State()))
        decreases |Buffer()|
      {
        var consumed := ProcessOldest();
        if !consumed {
          break;
        }
      }
    }

    /** action_tapping_process */
    method ActionTappingProcess(e: Event)
      requires Valid()
      modifies this, waitingBuffer
      ensures Valid() && State() == T.Step(env, old(State()), e)
    {
      var keyp, consumed := ProcessTapping(Record(e, NO_TAP));
      if !consumed {
        var ok := WaitingBufferEnq(keyp);
        if !ok {
          log := log + [Cleared];
          WaitingBufferClear();
          tappingKey := NO_RECORD;
        }
      }
      ProcessWaitingBuffer();
    }
  }
}
