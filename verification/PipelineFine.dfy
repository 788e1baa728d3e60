/** The pipeline with the scheduler's handling of an event taken apart.  What the handling of an event writes to
    memory that other threads see, the semaphores it posts and the messages it sends are single steps here, and
    the other threads run between them.  Every such run is, seen from outside the handling of events, a run of
    module Pipeline. */
module PipelineFine {
  import opened Pipeline

  // ----- memory that the scheduler shares with other threads

  datatype Memory = Memory(outState: seq<SlotState>, inBuf: seq<bv16>, outBuf: seq<bv16>, inSem: seq<nat>,
                           outSem: seq<nat>, inbox: seq<seq<Msg>>)
  {
    predicate Sized(slots: nat, spes: nat) {
      |outState| == |inBuf| == |outBuf| == |inSem| == |outSem| == slots && |inbox| == spes
    }
  }

  function Shared(d: Desk): Memory {
    Memory(d.outState, d.inBuf, d.outBuf, d.inSem, d.outSem, d.inbox)
  }

  function With(d: Desk, m: Memory): Desk {
    d.(outState := m.outState, inBuf := m.inBuf, outBuf := m.outBuf, inSem := m.inSem, outSem := m.outSem,
       inbox := m.inbox)
  }

  /** One access: a result stored, an output slot marked, a semaphore posted, a message sent.  The value of a slot
      is read when it is sent. */
  datatype Op =
    | StoreOut(slot: nat, val: bv16)
    | MarkOut(slot: nat, state: SlotState)
    | PostIn(slot: nat)
    | PostOut(slot: nat)
    | SendSlot(spe: nat, slot: nat)
    | SendIdle(spe: nat)

  predicate OpOk(slots: nat, spes: nat, op: Op) {
    match op
    case SendSlot(c, a) => c < spes && a < slots
    case SendIdle(c) => c < spes
    case _ => op.slot < slots
  }

  predicate AllOk(slots: nat, spes: nat, ops: seq<Op>) {
    forall p :: 0 <= p < |ops| ==> OpOk(slots, spes, ops[p])
  }

  function Sent(m: Memory, c: nat, msg: Msg): Memory
    requires c < |m.inbox|
  {
    m.(inbox := m.inbox[c := m.inbox[c] + [msg]])
  }

  function Do(slots: nat, spes: nat, m: Memory, op: Op): (r: Memory)
    requires m.Sized(slots, spes) && OpOk(slots, spes, op)
    ensures r.Sized(slots, spes)
  {
    match op
    case StoreOut(a, v) => m.(outBuf := m.outBuf[a := v])
    case MarkOut(a, s) => m.(outState := m.outState[a := s])
    case PostIn(a) => m.(inSem := m.inSem[a := m.inSem[a] + 1])
    case PostOut(a) => m.(outSem := m.outSem[a := m.outSem[a] + 1])
    case SendSlot(c, a) => Sent(m, c, Msg(a, m.inBuf[a]))
    case SendIdle(c) => Sent(m, c, Msg(slots, 0))
  }

  function Run(slots: nat, spes: nat, m: Memory, ops: seq<Op>): (r: Memory)
    requires m.Sized(slots, spes) && AllOk(slots, spes, ops)
    ensures r.Sized(slots, spes)
    decreases |ops|
  {
    if ops == [] then m else Run(slots, spes, Do(slots, spes, m, ops[0]), ops[1..])
  }

  lemma RunFirst(slots: nat, spes: nat, m: Memory, op: Op, ops: seq<Op>)
    requires m.Sized(slots, spes) && OpOk(slots, spes, op) && AllOk(slots, spes, ops)
    ensures AllOk(slots, spes, [op] + ops)
    ensures Run(slots, spes, m, [op] + ops) == Run(slots, spes, Do(slots, spes, m, op), ops)
  {
    assert ([op] + ops)[1..] == ops;
  }

  lemma {:induction false} RunBoth(slots: nat, spes: nat, m: Memory, a: seq<Op>, b: seq<Op>)
    requires m.Sized(slots, spes) && AllOk(slots, spes, a) && AllOk(slots, spes, b)
    ensures AllOk(slots, spes, a + b)
    ensures Run(slots, spes, m, a + b) == Run(slots, spes, Run(slots, spes, m, a), b)
    decreases |a|
  {
    if a == [] {
      assert a + b == b;
    } else {
      assert (a + b)[1..] == a[1..] + b;
      RunBoth(slots, spes, Do(slots, spes, m, a[0]), a[1..], b);
    }
  }

  // ----- what the handling of an event does, in the order of the code

  function PlanTask(d: Desk, depth: nat, slot: nat): (ops: seq<Op>)
    requires d.Shape() && slot < d.Slots()
    ensures AllOk(d.Slots(), d.Spes(), ops)
  {
    if d.workq >= d.Spes() * depth || !d.Schedulable(slot) then []
    else match FindSpe(d.mboxq, d.nextSpe, depth, 0)
      case None => []
      case Some(c) => [SendSlot(c, slot), MarkOut(slot, Running)]
  }

  function PlanScan(d: Desk, depth: nat, slot: nat, i: nat): (ops: seq<Op>)
    requires d.Shape() && slot < d.Slots() && 0 < i
    ensures AllOk(d.Slots(), d.Spes(), ops)
    decreases d.Slots() - i
  {
    if i >= d.Slots() then []
    else if d.Schedulable((i + slot) % d.Slots()) then PlanTask(d, depth, (i + slot) % d.Slots())
    else PlanScan(d, depth, slot, i + 1)
  }

  function PlanRead(d: Desk, depth: nat, slot: nat): (ops: seq<Op>)
    requires d.Shape() && slot < d.Slots()
    ensures AllOk(d.Slots(), d.Spes(), ops)
  {
    var d1 := Heard(d, slot);
    if d1.outState[slot] == Empty && d1.workq < d.Spes() * depth then PlanTask(d1, depth, slot) else []
  }

  function CollectOps(msg: Msg): seq<Op> {
    var a := msg.addr;
    [StoreOut(a, msg.val), MarkOut(a, Flushing), PostIn(a), PostOut(a)]
  }

  function PlanDone(d: Desk, depth: nat, spe: nat, msg: Msg): (ops: seq<Op>)
    requires d.Shape() && spe < d.Spes() && msg.addr < d.Slots()
    ensures AllOk(d.Slots(), d.Spes(), ops)
  {
    CollectOps(msg) + PlanScan(Collected(d, spe, msg), depth, msg.addr, 1)
  }

  /** An end mark for each output slot from i on, and a post. */
  function EofOps(slots: nat, spes: nat, i: nat): (ops: seq<Op>)
    requires i <= slots
    ensures AllOk(slots, spes, ops)
    decreases slots - i
  {
    if i == slots then [] else [MarkOut(i, Eof), PostOut(i)] + EofOps(slots, spes, i + 1)
  }

  /** An idle message for each SPE from c on. */
  function IdleOps(slots: nat, spes: nat, c: nat): (ops: seq<Op>)
    requires c <= spes
    ensures |ops| == spes - c && AllOk(slots, spes, ops)
    decreases spes - c
  {
    if c == spes then [] else [SendIdle(c)] + IdleOps(slots, spes, c + 1)
  }

  function PlanRound(d: Desk): (ops: seq<Op>)
    requires d.Shape()
    ensures AllOk(d.Slots(), d.Spes(), ops)
  {
    if d.eof && d.Idle() && d.ackq == 0 then EofOps(d.Slots(), d.Spes(), 0) + IdleOps(d.Slots(), d.Spes(), 0) else []
  }

  function PlanWrote(d: Desk, depth: nat, slot: nat): (ops: seq<Op>)
    requires d.Shape() && slot < d.Slots()
    ensures AllOk(d.Slots(), d.Spes(), ops)
  {
    var d1 := Freed(d, slot);
    [MarkOut(slot, Empty)]
    + if d1.inState[slot] == Runnable && d1.workq < d.Spes() * depth then PlanTask(d1, depth, slot) else PlanRound(d1)
  }

  function Plan(d: Desk, depth: nat, e: Event): (ops: seq<Op>)
    requires d.Shape() && EventOk(d.Slots(), d.Spes(), e)
    ensures AllOk(d.Slots(), d.Spes(), ops)
  {
    match e
    case ReadSlot(slot) => PlanRead(d, depth, slot)
    case ReadEof => PlanRound(d.(eof := true))
    case SpuDone(spe, msg) => PlanDone(d, depth, spe, msg)
    case SpuIdle(spe) => []
    case WroteSlot(slot) => PlanWrote(d, depth, slot)
  }

  // ----- the plan does to the shared memory what the handling does

  ghost predicate Does(d: Desk, ops: seq<Op>, r: Desk)
    requires d.Shape() && AllOk(d.Slots(), d.Spes(), ops)
  {
    Run(d.Slots(), d.Spes(), Shared(d), ops) == Shared(r)
  }

  lemma TwoOps(slots: nat, spes: nat, m: Memory, x: Op, y: Op)
    requires m.Sized(slots, spes) && OpOk(slots, spes, x) && OpOk(slots, spes, y)
    ensures Run(slots, spes, m, [x, y]) == Do(slots, spes, Do(slots, spes, m, x), y)
  {
    RunFirst(slots, spes, m, x, [y]);
    RunFirst(slots, spes, Do(slots, spes, m, x), y, []);
    assert [x] + [y] == [x, y] && [y] + [] == [y];
  }

  lemma TaskDoes(d: Desk, depth: nat, slot: nat)
    requires d.Shape() && slot < d.Slots()
    ensures Does(d, PlanTask(d, depth, slot), ScheduleTask(d, depth, slot))
  {
    var ops := PlanTask(d, depth, slot);
    if ops != [] { TwoOps(d.Slots(), d.Spes(), Shared(d), ops[0], ops[1]); }
  }

  lemma {:induction false} ScanDoes(d: Desk, depth: nat, slot: nat, i: nat)
    requires d.Shape() && slot < d.Slots() && 0 < i
    ensures Does(d, PlanScan(d, depth, slot, i), ScanSlots(d, depth, slot, i))
    decreases d.Slots() - i
  {
    if i < d.Slots() {
      if d.Schedulable((i + slot) % d.Slots()) {
        TaskDoes(d, depth, (i + slot) % d.Slots());
      } else {
        ScanDoes(d, depth, slot, i + 1);
      }
    }
  }

  lemma CollectDoes(d: Desk, spe: nat, msg: Msg)
    requires d.Shape() && spe < d.Spes() && msg.addr < d.Slots()
    ensures Does(d, CollectOps(msg), Collected(d, spe, msg))
  {
    var slots, spes, ops := d.Slots(), d.Spes(), CollectOps(msg);
    assert ops == ops[..2] + ops[2..] && ops[..2] == [ops[0], ops[1]] && ops[2..] == [ops[2], ops[3]];
    RunBoth(slots, spes, Shared(d), ops[..2], ops[2..]);
    TwoOps(slots, spes, Shared(d), ops[0], ops[1]);
    TwoOps(slots, spes, Run(slots, spes, Shared(d), ops[..2]), ops[2], ops[3]);
  }

  lemma DoneDoes(d: Desk, depth: nat, spe: nat, msg: Msg)
    requires d.Shape() && spe < d.Spes() && msg.addr < d.Slots()
    ensures Does(d, PlanDone(d, depth, spe, msg), OnDone(d, depth, spe, msg))
  {
    var g := Collected(d, spe, msg);
    CollectDoes(d, spe, msg);
    ScanDoes(g, depth, msg.addr, 1);
    RunBoth(d.Slots(), d.Spes(), Shared(d), CollectOps(msg), PlanScan(g, depth, msg.addr, 1));
  }

  /** The last output slots end-marked and posted. */
  function EofFrom(m: Memory, i: nat): Memory {
    m.(outState := seq(|m.outState|, k requires 0 <= k < |m.outState| => if k < i then m.outState[k] else Eof),
       outSem := seq(|m.outSem|, k requires 0 <= k < |m.outSem| => if k < i then m.outSem[k] else m.outSem[k] + 1))
  }

  lemma {:induction false} EofDoes(slots: nat, spes: nat, m: Memory, i: nat)
    requires m.Sized(slots, spes) && i <= slots
    ensures Run(slots, spes, m, EofOps(slots, spes, i)) == EofFrom(m, i)
    decreases slots - i
  {
    if i == slots {
      assert m.outState == EofFrom(m, i).outState && m.outSem == EofFrom(m, i).outSem;
    } else {
      var x, y := MarkOut(i, Eof), PostOut(i);
      var g := Do(slots, spes, Do(slots, spes, m, x), y);
      EofDoes(slots, spes, g, i + 1);
      RunBoth(slots, spes, m, [x, y], EofOps(slots, spes, i + 1));
      TwoOps(slots, spes, m, x, y);
      assert EofFrom(g, i + 1).outState == EofFrom(m, i).outState && EofFrom(g, i + 1).outSem == EofFrom(m, i).outSem;
    }
  }

  function IdleFrom(slots: nat, m: Memory, c: nat): Memory {
    m.(inbox := seq(|m.inbox|, k requires 0 <= k < |m.inbox| =>
                      if k < c then m.inbox[k] else m.inbox[k] + [Msg(slots, 0)]))
  }

  lemma {:induction false} IdleDoes(slots: nat, spes: nat, m: Memory, c: nat)
    requires m.Sized(slots, spes) && c <= spes
    ensures Run(slots, spes, m, IdleOps(slots, spes, c)) == IdleFrom(slots, m, c)
    decreases spes - c
  {
    if c == spes {
      assert m.inbox == IdleFrom(slots, m, c).inbox;
    } else {
      var ops, g := IdleOps(slots, spes, c), Do(slots, spes, m, SendIdle(c));
      assert ops[1..] == IdleOps(slots, spes, c + 1);
      IdleDoes(slots, spes, g, c + 1);
      assert IdleFrom(slots, g, c + 1).inbox == IdleFrom(slots, m, c).inbox;
    }
  }

  lemma TellDoes(d: Desk)
    requires d.Shape()
    ensures Does(d, IdleOps(d.Slots(), d.Spes(), 0), TellAll(d))
  {
    IdleDoes(d.Slots(), d.Spes(), Shared(d), 0);
    assert IdleFrom(d.Slots(), Shared(d), 0).inbox == IdleToAll(d.inbox, d.Slots());
  }

  lemma RoundDoes(d: Desk)
    requires d.Shape()
    ensures Does(d, PlanRound(d), MaybeFirstRound(d))
  {
    if d.eof && d.Idle() && d.ackq == 0 {
      var slots, spes := d.Slots(), d.Spes();
      var g := d.(outState := AllEof(slots), outSem := Raised(d.outSem), ackq := d.ackq + spes);
      EofDoes(slots, spes, Shared(d), 0);
      assert EofFrom(Shared(d), 0).outState == g.outState && EofFrom(Shared(d), 0).outSem == g.outSem;
      TellDoes(g);
      RunBoth(slots, spes, Shared(d), EofOps(slots, spes, 0), IdleOps(slots, spes, 0));
    }
  }

  lemma WroteDoes(d: Desk, depth: nat, slot: nat)
    requires d.Shape() && slot < d.Slots()
    ensures Does(d, PlanWrote(d, depth, slot), OnWrote(d, depth, slot))
  {
    var d1, mark := Freed(d, slot), [MarkOut(slot, Empty)];
    assert mark[1..] == [];
    assert Does(d, mark, d1);
    if d1.inState[slot] == Runnable && d1.workq < d.Spes() * depth {
      TaskDoes(d1, depth, slot);
      RunBoth(d.Slots(), d.Spes(), Shared(d), mark, PlanTask(d1, depth, slot));
    } else {
      RoundDoes(d1);
      RunBoth(d.Slots(), d.Spes(), Shared(d), mark, PlanRound(d1));
    }
  }

  lemma PlanDoes(d: Desk, depth: nat, e: Event)
    requires d.Shape() && EventOk(d.Slots(), d.Spes(), e)
    ensures Does(d, Plan(d, depth, e), Dispatch(d, depth, e))
  {
    match e
    case ReadSlot(slot) =>
      if Plan(d, depth, e) != [] { TaskDoes(Heard(d, slot), depth, slot); }
    case ReadEof => RoundDoes(d.(eof := true));
    case SpuDone(spe, msg) => DoneDoes(d, depth, spe, msg);
    case SpuIdle(spe) =>
    case WroteSlot(slot) => WroteDoes(d, depth, slot);
  }
}
