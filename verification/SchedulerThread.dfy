/** scheduler_thread and schedule_task of host.c on arrays, proved to follow module Pipeline; and the
    numbers by which events and messages travel. */
module SchedulerThreads {
  import opened Lists
  import opened Slots
  import opened EventQueues
  import opened Pipeline

  // ----- numbers

  /** ((uint32_t) addr << 16) | value */
  function Pack(m: Msg): nat {
    m.addr * 0x1_0000 + m.val as nat
  }

  function Unpack(x: nat): Msg {
    Msg(x / 0x1_0000, (x % 0x1_0000) as bv16)
  }

  lemma UnpackPack(m: Msg)
    ensures Unpack(Pack(m)) == m
  {
    var v := m.val as nat;
    assert (m.addr * 0x1_0000 + v) / 0x1_0000 == m.addr;
    assert (m.addr * 0x1_0000 + v) % 0x1_0000 == v;
  }

  const READ_SLOT := 1
  const READ_EOF := 2
  const SPU_0_DONE := 4
  const SPU_0_IDLE := 10
  const WROTE_SLOT := 16
  const MOST_SPES := 6

  function Code(e: Event): (nat, nat) {
    match e
    case ReadSlot(slot) => (READ_SLOT, slot)
    case ReadEof => (READ_EOF, 0)
    case SpuDone(spe, msg) => (SPU_0_DONE + spe, Pack(msg))
    case SpuIdle(spe) => (SPU_0_IDLE + spe, 0)
    case WroteSlot(slot) => (WROTE_SLOT, slot)
  }

  function Decode(c: (nat, nat)): Option<Event> {
    if c.0 == READ_SLOT then Some(ReadSlot(c.1))
    else if c.0 == READ_EOF then Some(ReadEof)
    else if SPU_0_DONE <= c.0 < SPU_0_IDLE then Some(SpuDone(c.0 - SPU_0_DONE, Unpack(c.1)))
    else if SPU_0_IDLE <= c.0 < WROTE_SLOT then Some(SpuIdle(c.0 - SPU_0_IDLE))
    else if c.0 == WROTE_SLOT then Some(WroteSlot(c.1))
    else None
  }

  lemma DecodeCode(slots: nat, spes: nat, e: Event)
    requires EventOk(slots, spes, e) && spes <= MOST_SPES
    ensures Decode(Code(e)) == Some(e)
  {
    if e.SpuDone? { UnpackPack(e.msg); }
  }

  ghost predicate ToldApart(slots: nat, spes: nat, e: Event, f: Event) {
    EventOk(slots, spes, e) && EventOk(slots, spes, f) && Code(e) == Code(f) ==> e == f
  }

  /** Six SPEs are the most that the event numbers can tell apart. */
  lemma SixSpesAtMost(slots: nat, spes: nat)
    requires slots > 0
    ensures (forall e, f :: ToldApart(slots, spes, e, f)) <==> spes <= MOST_SPES
  {
    if spes <= MOST_SPES {
      forall e, f ensures ToldApart(slots, spes, e, f) {
        if EventOk(slots, spes, e) && EventOk(slots, spes, f) && Code(e) == Code(f) {
          DecodeCode(slots, spes, e);
          DecodeCode(slots, spes, f);
        }
      }
    } else {
      var e, f := SpuDone(MOST_SPES, Msg(0, 0)), SpuIdle(0);
      assert Pack(Msg(0, 0)) == 0;
      assert !ToldApart(slots, spes, e, f);
    }
  }

  // ----- the scheduler

  class Scheduler {
    const depth: nat
    const inState: array<SlotState>
    const outState: array<SlotState>
    const inBuf: array<bv16>
    const outBuf: array<bv16>
    const inSem: array<nat>
    const outSem: array<nat>
    const inbox: array<seq<Msg>>
    const mboxq: array<int>
    var nextSpe: nat
    var readq: int
    var workq: int
    var writeq: int
    var ackq: int
    var eof: bool
    var done: bool
    var dead: bool

    ghost function Now(): Desk
      reads this, inState, outState, inBuf, outBuf, inSem, outSem, inbox, mboxq
    {
      Desk(inState[..], outState[..], inBuf[..], outBuf[..], inSem[..], outSem[..], inbox[..], mboxq[..], nextSpe,
           readq, workq, writeq, ackq, eof, done, dead)
    }

    ghost predicate Separate() {
      && inState != outState && inBuf != outBuf && inSem != outSem
      && {inBuf as object, outBuf} !! {inState as object, outState} !! {inSem as object, outSem}
         !! {inbox as object} !! {mboxq as object}
      && 0 < inState.Length == outState.Length == inBuf.Length == outBuf.Length == inSem.Length == outSem.Length
      && 0 < inbox.Length == mboxq.Length
    }

    method ScheduleTask(addr: nat)
      requires Separate() && addr < inState.Length
      modifies this`workq, this`readq, this`nextSpe, mboxq, inbox, inState, outState
      ensures Now() == Pipeline.ScheduleTask(old(Now()), depth, addr)
    {
      if workq >= mboxq.Length * depth { return; }
      if inState[addr] != Runnable { return; }
      if outState[addr] != Empty { return; }
      var chosen := FreeSpe();
      if chosen != mboxq.Length {
        StartTask(addr, chosen);
      }
    }

    /** Look for an SPE with room in its mailbox, from the next in turn on. */
    method FreeSpe() returns (chosen: nat)
      requires Separate()
      ensures chosen <= mboxq.Length
      ensures FindSpe(mboxq[..], nextSpe, depth, 0) == if chosen < mboxq.Length then Some(chosen) else None
    {
      chosen := mboxq.Length;
      var i := 0;
      while i < mboxq.Length
        invariant i <= mboxq.Length && chosen == mboxq.Length
        invariant FindSpe(mboxq[..], nextSpe, depth, 0) == FindSpe(mboxq[..], nextSpe, depth, i)
      {
        if mboxq[(nextSpe + i) % mboxq.Length] < depth {
          chosen := (nextSpe + i) % mboxq.Length;
          break;
        }
        i := i + 1;
      }
    }

    method StartTask(addr: nat, chosen: nat)
      requires Separate() && addr < inState.Length && chosen < mboxq.Length
      modifies this`workq, this`readq, this`nextSpe, mboxq, inbox, inState, outState
      ensures Now() == Started(old(Now()), addr, chosen)
    {
      ghost var e := Started(Now(), addr, chosen);
      mboxq[chosen] := mboxq[chosen] + 1;
      workq := workq + 1;
      readq := readq - 1;
      inbox[chosen] := inbox[chosen] + [Msg(addr, inBuf[addr])];
      WrapIsMod(chosen, mboxq.Length);
      nextSpe := (chosen + 1) % mboxq.Length;
      inState[addr] := Running;
      outState[addr] := Running;
      assert mboxq[..] == e.mboxq && inbox[..] == e.inbox && inState[..] == e.inState && outState[..] == e.outState;
    }

    method TellAll()
      requires Separate()
      modifies inbox
      ensures inbox[..] == IdleToAll(old(inbox[..]), inState.Length)
    {
      var i := 0;
      while i < inbox.Length
        invariant i <= inbox.Length
        invariant forall j :: 0 <= j < i ==> inbox[j] == old(inbox[j]) + [Msg(inState.Length, 0)]
        invariant forall j :: i <= j < inbox.Length ==> inbox[j] == old(inbox[j])
      {
        inbox[i] := inbox[i] + [Msg(inState.Length, 0)];
        i := i + 1;
      }
      assert inbox[..] == IdleToAll(old(inbox[..]), inState.Length);
    }

    /** The part shared by READ_EOF and WROTE_SLOT. */
    method MaybeFirstRound()
      requires Separate()
      modifies this`ackq, this`dead, outState, outSem, inbox
      ensures Now() == Pipeline.MaybeFirstRound(old(Now()))
    {
      if !eof || readq != 0 || workq != 0 || writeq != 0 {
        return;
      }
      if ackq != 0 {
        dead := true;
        return;
      }
      var i := 0;
      while i < outState.Length
        modifies outState, outSem
        invariant i <= outState.Length
        invariant forall j :: 0 <= j < i ==> outState[j] == Eof && outSem[j] == old(outSem[j]) + 1
        invariant forall j :: i <= j < outState.Length ==>
          outState[j] == old(outState[j]) && outSem[j] == old(outSem[j])
      {
        outState[i] := Eof;
        outSem[i] := outSem[i] + 1;
        i := i + 1;
      }
      assert outState[..] == AllEof(outState.Length) && outSem[..] == Raised(old(outSem[..]));
      TellAll();
      ackq := ackq + mboxq.Length;
    }

    /** A result has come back: file it, and free the input slot. */
    method Collect(spe: nat, msg: Msg)
      requires Separate() && spe < mboxq.Length && msg.addr < inState.Length
      modifies this`workq, this`writeq, inState, outState, outBuf, inSem, outSem, mboxq
      ensures Now() == Collected(old(Now()), spe, msg)
    {
      var addr := msg.addr;
      workq := workq - 1;
      writeq := writeq + 1;
      mboxq[spe] := mboxq[spe] - 1;
      FileResult(addr, msg.val);
      Post(addr);
    }

    method FileResult(addr: nat, val: bv16)
      requires Separate() && addr < inState.Length
      modifies inState, outState, outBuf
      ensures outBuf[..] == old(outBuf[..])[addr := val] && inState[..] == old(inState[..])[addr := Empty]
      ensures outState[..] == old(outState[..])[addr := Flushing]
    {
      outBuf[addr] := val;
      inState[addr] := Empty;
      outState[addr] := Flushing;
    }

    /** Post the semaphores of both slots. */
    method Post(addr: nat)
      requires Separate() && addr < inState.Length
      modifies inSem, outSem
      ensures inSem[..] == old(inSem[..])[addr := old(inSem[addr]) + 1]
      ensures outSem[..] == old(outSem[..])[addr := old(outSem[addr]) + 1]
    {
      inSem[addr] := inSem[addr] + 1;
      outSem[addr] := outSem[addr] + 1;
    }

    /** Scan the other slots for one that is ready to run. */
    method ScanOthers(addr: nat)
      requires Separate() && addr < inState.Length
      modifies this`workq, this`readq, this`nextSpe, mboxq, inbox, inState, outState
      ensures Now() == ScanSlots(old(Now()), depth, addr, 1)
    {
      ghost var d := Now();
      var i := 1;
      while i < inState.Length
        invariant 1 <= i && Now() == d && ScanSlots(d, depth, addr, 1) == ScanSlots(d, depth, addr, i)
        decreases inState.Length - i
      {
        var slot := (i + addr) % inState.Length;
        if inState[slot] == Runnable && outState[slot] == Empty {
          ScheduleTask(slot);
          return;
        }
        i := i + 1;
      }
    }

    method DispatchEvent(event: Event)
      requires Separate() && EventOk(inState.Length, mboxq.Length, event)
      modifies this, inState, outState, outBuf, inSem, outSem, inbox, mboxq
      ensures Now() == Dispatch(old(Now()), depth, event)
    {
      match event
      case ReadSlot(slot) =>
        readq := readq + 1;
        inState[slot] := Runnable;
        assert Now() == Heard(old(Now()), slot);
        if outState[slot] == Empty && workq < mboxq.Length * depth {
          ScheduleTask(slot);
        }
      case SpuIdle(_) =>
        ackq := ackq - 1;
      case SpuDone(spe, msg) =>
        Collect(spe, msg);
        ScanOthers(msg.addr);
      case ReadEof =>
        eof := true;
        MaybeFirstRound();
      case WroteSlot(slot) =>
        writeq := writeq - 1;
        outState[slot] := Empty;
        assert Now() == Freed(old(Now()), slot);
        if inState[slot] == Runnable && workq < mboxq.Length * depth {
          ScheduleTask(slot);
        } else {
          MaybeFirstRound();
        }
    }

    /** One turn of the scheduler's loop. */
    method HandleEvent(event: Event, running: int)
      requires Separate() && EventOk(inState.Length, mboxq.Length, event)
      modifies this, inState, outState, outBuf, inSem, outSem, inbox, mboxq
      ensures Now() == Handle(old(Now()), depth, event, running)
    {
      DispatchEvent(event);
      if eof && readq == 0 && workq == 0 && writeq == 0 && ackq == 0 {
        if running != 0 {
          return;
        }
        TellAll();
        done := true;
      }
    }

    /** Take an event off the queue and handle it. */
    method Turn(q: EventQueue, running: int, ghost event: Event)
      requires Separate() && q.Valid() && q.full > 0 && mboxq.Length <= MOST_SPES
      requires {q.tasks as object, q.args, q}
            !! {inState as object, outState, outBuf, inSem, outSem, inbox, mboxq, this}
      requires EventOk(inState.Length, mboxq.Length, event) && q.contents[0] == Code(event)
      modifies this, q, inState, outState, outBuf, inSem, outSem, inbox, mboxq
      ensures q.Valid() && q.contents == old(q.contents)[1..]
      ensures Now() == Handle(old(Now()), depth, event, running)
    {
      var task, arg := q.Shift();
      DecodeCode(inState.Length, mboxq.Length, event);
      HandleEvent(Decode((task, arg)).value, running);
    }
  }
}
