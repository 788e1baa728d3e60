/** Steps of the pipeline in which other threads run while the scheduler handles an event. */
module PipelineFineSteps {
  import opened Slots
  import opened Pipeline
  import opened PipelineInv
  import opened PipelineTheorems
  import opened PipelineFine

  // ----- states and steps

  /** todo: what is left of the handling of an event; closing: the bottom of the scheduler's loop is still to come.
      The scheduler's own variables change at once when it takes an event; no other thread looks at them. */
  datatype Fine = Fine(h: Host, todo: seq<Op>, closing: bool) {
    predicate Shape() {
      h.Shape() && AllOk(h.desk.Slots(), h.desk.Spes(), todo)
    }
  }

  /** The last test of the loop. */
  predicate Closes(d: Desk, running: int) {
    d.eof && d.Idle() && d.ackq == 0 && running == 0
  }

  datatype FineStep = Take | Access | Close | Other(s: Step)

  predicate FineEnabled(f: Fine, s: FineStep)
    requires f.Shape()
  {
    match s
    case Take => f.todo == [] && !f.closing && Enabled(f.h, Schedule)
    case Access => f.todo != []
    case Close => f.todo == [] && f.closing
    case Other(s) => s != Schedule && Enabled(f.h, s)
  }

  /** event_queue_shift, and what the handling does to the scheduler's own variables. */
  function TakenBy(h: Host): Fine
    requires h.Shape() && h.queue != []
  {
    assert EventAt(h.desk.Slots(), h.desk.Spes(), h.queue, 0);
    var d, e := h.desk, h.queue[0];
    Fine(h.(queue := h.queue[1..], desk := With(Dispatch(d, h.depth, e), Shared(d))), Plan(d, h.depth, e), true)
  }

  function Accessed(f: Fine): Fine
    requires f.Shape() && f.todo != []
  {
    var d := f.h.desk;
    var m := Do(d.Slots(), d.Spes(), Shared(d), f.todo[0]);
    Fine(f.h.(desk := With(d, m)), f.todo[1..], f.closing)
  }

  function ClosedBy(f: Fine): Fine
    requires f.Shape()
  {
    var d := f.h.desk;
    if Closes(d, f.h.running) then
      Fine(f.h.(desk := d.(done := true)), IdleOps(d.Slots(), d.Spes(), 0), false)
    else Fine(f.h, [], false)
  }

  function FineNext(f: Fine, s: FineStep): Fine
    requires f.Shape() && FineEnabled(f, s)
  {
    match s
    case Take => TakenBy(f.h)
    case Access => Accessed(f)
    case Close => ClosedBy(f)
    case Other(s) => f.(h := Next(f.h, s))
  }

  // ----- the state as it is when the handling is over

  predicate WillClose(f: Fine) {
    f.closing && Closes(f.h.desk, f.h.running)
  }

  function ToDo(f: Fine): (ops: seq<Op>)
    requires f.Shape()
    ensures AllOk(f.h.desk.Slots(), f.h.desk.Spes(), ops)
  {
    f.todo + if WillClose(f) then IdleOps(f.h.desk.Slots(), f.h.desk.Spes(), 0) else []
  }

  function Final(d: Desk, ops: seq<Op>, done: bool): Desk
    requires d.Shape() && AllOk(d.Slots(), d.Spes(), ops)
  {
    With(d.(done := d.done || done), Run(d.Slots(), d.Spes(), Shared(d), ops))
  }

  function Whole(f: Fine): Host
    requires f.Shape()
  {
    f.h.(desk := Final(f.h.desk, ToDo(f), WillClose(f)))
  }

  lemma TakeWhole(h: Host)
    requires h.Shape() && h.queue != []
    ensures TakenBy(h).Shape() && Whole(TakenBy(h)) == Scheduled(h)
  {
    assert EventAt(h.desk.Slots(), h.desk.Spes(), h.queue, 0);
    var d, e, f := h.desk, h.queue[0], TakenBy(h);
    forall p: nat | p < |f.h.queue|
      ensures EventAt(d.Slots(), d.Spes(), f.h.queue, p)
    {
      assert EventAt(d.Slots(), d.Spes(), h.queue, p + 1);
    }
    PlanDoes(d, h.depth, e);
    var g := Dispatch(d, h.depth, e);
    if Closes(g, h.running) {
      TellDoes(g);
      RunBoth(d.Slots(), d.Spes(), Shared(d), f.todo, IdleOps(d.Slots(), d.Spes(), 0));
    } else {
      assert ToDo(f) == f.todo;
    }
  }

  lemma AccessWhole(f: Fine)
    requires f.Shape() && f.todo != []
    ensures Accessed(f).Shape() && Whole(Accessed(f)) == Whole(f)
  {
    var g := Accessed(f);
    assert ToDo(f) == [f.todo[0]] + ToDo(g);
    assert Shared(g.h.desk) == Do(f.h.desk.Slots(), f.h.desk.Spes(), Shared(f.h.desk), f.todo[0]);
    RunFirst(f.h.desk.Slots(), f.h.desk.Spes(), Shared(f.h.desk), f.todo[0], ToDo(g));
  }

  lemma CloseWhole(f: Fine)
    requires f.Shape() && f.todo == [] && f.closing
    ensures ClosedBy(f).Shape() && Whole(ClosedBy(f)) == Whole(f)
  {
    var g := ClosedBy(f);
    assert ToDo(f) == ToDo(g) == g.todo;
    assert Shared(g.h.desk) == Shared(f.h.desk);
  }

  // ----- accesses and steps of other threads

  /** The access concerns this output slot. */
  predicate Touches(op: Op, a: nat) {
    (op.StoreOut? || op.MarkOut? || op.PostOut?) && op.slot == a
  }

  predicate Untouched(ops: seq<Op>, a: nat) {
    forall p :: 0 <= p < |ops| ==> !Touches(ops[p], a)
  }

  predicate NotSent(ops: seq<Op>, a: nat) {
    forall p :: 0 <= p < |ops| ==> !(ops[p].SendSlot? && ops[p].slot == a)
  }

  function InWaited(m: Memory, a: nat): Memory
    requires a < |m.inSem| && m.inSem[a] > 0
  {
    m.(inSem := m.inSem[a := m.inSem[a] - 1])
  }

  lemma {:induction false} InWaitedLater(slots: nat, spes: nat, m: Memory, ops: seq<Op>, a: nat)
    requires m.Sized(slots, spes) && AllOk(slots, spes, ops) && a < slots && m.inSem[a] > 0
    ensures var w := Run(slots, spes, m, ops);
      w.inSem[a] > 0 && Run(slots, spes, InWaited(m, a), ops) == InWaited(w, a)
    decreases |ops|
  {
    if ops != [] {
      var g := Do(slots, spes, m, ops[0]);
      InWaitedLater(slots, spes, g, ops[1..], a);
      assert Do(slots, spes, InWaited(m, a), ops[0]) == InWaited(g, a);
    }
  }

  function OutWaited(m: Memory, a: nat): Memory
    requires a < |m.outSem| && m.outSem[a] > 0
  {
    m.(outSem := m.outSem[a := m.outSem[a] - 1])
  }

  lemma {:induction false} OutWaitedLater(slots: nat, spes: nat, m: Memory, ops: seq<Op>, a: nat)
    requires m.Sized(slots, spes) && AllOk(slots, spes, ops) && a < slots && m.outSem[a] > 0
    ensures var w := Run(slots, spes, m, ops);
      w.outSem[a] > 0 && Run(slots, spes, OutWaited(m, a), ops) == OutWaited(w, a)
    decreases |ops|
  {
    if ops != [] {
      var g := Do(slots, spes, m, ops[0]);
      OutWaitedLater(slots, spes, g, ops[1..], a);
      assert Do(slots, spes, OutWaited(m, a), ops[0]) == OutWaited(g, a);
    }
  }

  function Filled(m: Memory, a: nat, v: bv16): Memory
    requires a < |m.inBuf|
  {
    m.(inBuf := m.inBuf[a := v])
  }

  lemma {:induction false} FilledLater(slots: nat, spes: nat, m: Memory, ops: seq<Op>, a: nat, v: bv16)
    requires m.Sized(slots, spes) && AllOk(slots, spes, ops) && a < slots && NotSent(ops, a)
    ensures Run(slots, spes, Filled(m, a, v), ops) == Filled(Run(slots, spes, m, ops), a, v)
    decreases |ops|
  {
    if ops != [] {
      var g := Do(slots, spes, m, ops[0]);
      FilledLater(slots, spes, g, ops[1..], a, v);
      assert Do(slots, spes, Filled(m, a, v), ops[0]) == Filled(g, a, v);
    }
  }

  function FirstOut(m: Memory, c: nat): Memory
    requires c < |m.inbox| && m.inbox[c] != []
  {
    m.(inbox := m.inbox[c := m.inbox[c][1..]])
  }

  lemma {:induction false} FirstOutLater(slots: nat, spes: nat, m: Memory, ops: seq<Op>, c: nat)
    requires m.Sized(slots, spes) && AllOk(slots, spes, ops) && c < spes && m.inbox[c] != []
    ensures var w := Run(slots, spes, m, ops);
      && w.inbox[c] != [] && w.inbox[c][0] == m.inbox[c][0]
      && Run(slots, spes, FirstOut(m, c), ops) == FirstOut(w, c)
    decreases |ops|
  {
    if ops != [] {
      var g := Do(slots, spes, m, ops[0]);
      FirstOutLater(slots, spes, g, ops[1..], c);
      var x, y := Do(slots, spes, FirstOut(m, c), ops[0]), FirstOut(g, c);
      if (ops[0].SendSlot? || ops[0].SendIdle?) && ops[0].spe == c { assert x.inbox[c] == y.inbox[c]; }
      assert x.inbox == y.inbox;
    }
  }

  lemma {:induction false} UntouchedKept(slots: nat, spes: nat, m: Memory, ops: seq<Op>, a: nat)
    requires m.Sized(slots, spes) && AllOk(slots, spes, ops) && a < slots && Untouched(ops, a)
    ensures var w := Run(slots, spes, m, ops); w.outBuf[a] == m.outBuf[a] && w.outState[a] == m.outState[a]
    decreases |ops|
  {
    if ops != [] { UntouchedKept(slots, spes, Do(slots, spes, m, ops[0]), ops[1..], a); }
  }

  lemma {:induction false} PostsCount(slots: nat, spes: nat, m: Memory, ops: seq<Op>, a: nat)
    requires m.Sized(slots, spes) && AllOk(slots, spes, ops) && a < slots
    ensures Run(slots, spes, m, ops).outSem[a] >= m.outSem[a] + if PostOut(a) in ops then 1 else 0
    decreases |ops|
  {
    if ops != [] {
      PostsCount(slots, spes, Do(slots, spes, m, ops[0]), ops[1..], a);
      assert PostOut(a) in ops ==> ops[0] == PostOut(a) || PostOut(a) in ops[1..];
    }
  }

  lemma {:induction false} InboxGrows(slots: nat, spes: nat, m: Memory, ops: seq<Op>, c: nat)
    requires m.Sized(slots, spes) && AllOk(slots, spes, ops) && c < spes
    ensures |Run(slots, spes, m, ops).inbox[c]| >= |m.inbox[c]|
    decreases |ops|
  {
    if ops != [] { InboxGrows(slots, spes, Do(slots, spes, m, ops[0]), ops[1..], c); }
  }

  lemma IdleTouchesNothing(slots: nat, spes: nat, c: nat, p: nat)
    requires c <= spes && p < |IdleOps(slots, spes, c)|
    ensures IdleOps(slots, spes, c)[p].SendIdle?
    decreases spes - c
  {
    if p > 0 {
      assert IdleOps(slots, spes, c)[1..] == IdleOps(slots, spes, c + 1);
      IdleTouchesNothing(slots, spes, c + 1, p - 1);
    }
  }

  // ----- what the writer sees, in a state between events

  /** The slot whose result the writer is about to copy waits to be written, and is not posted again. */
  lemma WriterSlot(h: Host, n: int)
    requires Sound(h, n) && h.writer == WriterCopy
    ensures h.Shape()
    ensures RoundsSent(h.desk) == 0 ==>
      h.desk.outState[h.writeHead] == Flushing && h.desk.outSem[h.writeHead] == 0 && |h.out| < |h.input|
    ensures RoundsSent(h.desk) > 0 ==> h.desk.outState[h.writeHead] == Eof
  {
    var t :| Inv(h, t) && Progress(h, t) == n;
    ShapeOf(h, t);
    RoundShown(h, t);
    if t.round {
      EofEverywhere(h, t, h.writeHead);
    } else {
      WriterSlotAt(h, t);
    }
  }

  lemma EofEverywhere(h: Host, t: Tags, a: nat)
    requires Inv(h, t) && h.Shape() && t.round && a < h.desk.Slots()
    ensures h.desk.outState[a] == Eof
  {
    var k := SlotIn(t.wd, a, h.desk.Slots());
    assert OutStateOk(h.desk.Slots(), t.st, t.round, h.desk.outState, k);
  }

  lemma WriterSlotAt(h: Host, t: Tags)
    requires Inv(h, t) && h.Shape() && !t.round && h.writer == WriterCopy
    ensures h.desk.outState[h.writeHead] == Flushing && h.desk.outSem[h.writeHead] == 0 && |h.out| < |h.input|
  {
    var slots, k := h.desk.Slots(), |h.out|;
    assert IsFinished(t.st, k) && Launched(t.st, t.wd, slots, k);
    assert OutStateOk(slots, t.st, t.round, h.desk.outState, k);
    assert OutSemOk(slots, t.st, t.round, h.desk.outSem, k + slots);
    assert k + slots < |t.st| ==> Launched(t.st, t.wd, slots, k + slots);
    assert SlotOf(k + slots, slots) == SlotOf(k, slots);
  }

  /** The slot that the writer waits for has been posted once at most. */
  lemma WriterWaits(h: Host, n: int)
    requires Sound(h, n) && h.writer == WriterWait
    ensures h.Shape() && h.desk.outSem[h.writeHead] <= 1
  {
    var t :| Inv(h, t) && Progress(h, t) == n;
    ShapeOf(h, t);
    assert OutSemOk(h.desk.Slots(), t.st, t.round, h.desk.outSem, |h.out|);
  }

  // ----- what is in the plans

  /** A result that is stored or marked is posted after that; other marks leave the slot empty or running. */
  ghost predicate SettledAt(ops: seq<Op>, outState: seq<SlotState>, p: nat)
    requires p < |ops|
  {
    && (ops[p].StoreOut? ==> PostOut(ops[p].slot) in ops[p..])
    && (ops[p].MarkOut? ==> PostOut(ops[p].slot) in ops[p..] || FreeOrRunning(outState, ops[p].slot))
  }

  predicate FreeOrRunning(outState: seq<SlotState>, a: nat) {
    a < |outState| && (outState[a] == Empty || outState[a] == Running)
  }

  ghost predicate Settled(ops: seq<Op>, outState: seq<SlotState>) {
    forall p: nat :: p < |ops| ==> SettledAt(ops, outState, p)
  }

  ghost predicate SendsRunning(ops: seq<Op>, inState: seq<SlotState>) {
    forall p: nat :: p < |ops| ==> SendRunning(ops[p], inState)
  }

  ghost predicate SendRunning(op: Op, inState: seq<SlotState>) {
    op.SendSlot? ==> op.slot < |inState| && inState[op.slot] == Running
  }

  lemma SettledBoth(a: seq<Op>, b: seq<Op>, outState: seq<SlotState>)
    requires forall p: nat :: p < |a| ==> SettledAt(a + b, outState, p)
    requires Settled(b, outState)
    ensures Settled(a + b, outState)
  {
    forall p: nat | p < |a + b| ensures SettledAt(a + b, outState, p) {
      if p >= |a| {
        assert (a + b)[p..] == b[p - |a|..];
        assert SettledAt(b, outState, p - |a|);
      }
    }
  }

  lemma SettledFirst(a: seq<Op>, b: seq<Op>, outState: seq<SlotState>)
    requires Settled(a, outState) && Settled(b, outState)
    ensures Settled(a + b, outState)
  {
    forall p: nat | p < |a| ensures SettledAt(a + b, outState, p) {
      assert SettledAt(a, outState, p);
      assert (a + b)[p..] == a[p..] + b;
    }
    SettledBoth(a, b, outState);
  }

  lemma TaskSettled(d: Desk, depth: nat, slot: nat)
    requires d.Shape() && slot < d.Slots()
    ensures var r := ScheduleTask(d, depth, slot);
      Settled(PlanTask(d, depth, slot), r.outState) && SendsRunning(PlanTask(d, depth, slot), r.inState)
  {
  }

  lemma {:induction false} ScanSettled(d: Desk, depth: nat, slot: nat, i: nat)
    requires d.Shape() && slot < d.Slots() && 0 < i
    ensures var r := ScanSlots(d, depth, slot, i);
      Settled(PlanScan(d, depth, slot, i), r.outState) && SendsRunning(PlanScan(d, depth, slot, i), r.inState)
    decreases d.Slots() - i
  {
    if i < d.Slots() {
      if d.Schedulable((i + slot) % d.Slots()) {
        TaskSettled(d, depth, (i + slot) % d.Slots());
      } else {
        ScanSettled(d, depth, slot, i + 1);
      }
    }
  }

  lemma {:induction false} EofSettled(slots: nat, spes: nat, i: nat, outState: seq<SlotState>)
    requires i <= slots
    ensures Settled(EofOps(slots, spes, i), outState)
    decreases slots - i
  {
    if i < slots {
      EofSettled(slots, spes, i + 1, outState);
      var a, b := [MarkOut(i, Eof), PostOut(i)], EofOps(slots, spes, i + 1);
      assert (a + b)[1] == PostOut(i);
      SettledBoth(a, b, outState);
    }
  }

  lemma {:induction false} EofPosts(slots: nat, spes: nat, i: nat, a: nat)
    requires i <= a < slots
    ensures PostOut(a) in EofOps(slots, spes, i)
    decreases slots - i
  {
    if i < a { EofPosts(slots, spes, i + 1, a); }
  }

  lemma {:induction false} EofSends(slots: nat, spes: nat, i: nat, p: nat)
    requires i <= slots && p < |EofOps(slots, spes, i)|
    ensures !EofOps(slots, spes, i)[p].SendSlot?
    decreases slots - i
  {
    if p >= 2 { EofSends(slots, spes, i + 1, p - 2); }
  }

  lemma IdleSettled(slots: nat, spes: nat, outState: seq<SlotState>)
    ensures Settled(IdleOps(slots, spes, 0), outState)
  {
    var ops := IdleOps(slots, spes, 0);
    forall p: nat | p < |ops| ensures SettledAt(ops, outState, p) { IdleTouchesNothing(slots, spes, 0, p); }
  }

  lemma RoundSettled(d: Desk, outState: seq<SlotState>, inState: seq<SlotState>)
    requires d.Shape()
    ensures Settled(PlanRound(d), outState) && SendsRunning(PlanRound(d), inState)
  {
    if PlanRound(d) != [] {
      var slots, spes := d.Slots(), d.Spes();
      var a, b := EofOps(slots, spes, 0), IdleOps(slots, spes, 0);
      EofSettled(slots, spes, 0, outState);
      IdleSettled(slots, spes, outState);
      SettledFirst(a, b, outState);
      forall p: nat | p < |a + b| ensures SendRunning((a + b)[p], inState) {
        if p < |a| { EofSends(slots, spes, 0, p); } else { IdleTouchesNothing(slots, spes, 0, p - |a|); }
      }
    }
  }

  lemma DoneSettled(d: Desk, depth: nat, spe: nat, msg: Msg)
    requires d.Shape() && spe < d.Spes() && msg.addr < d.Slots()
    ensures var r := OnDone(d, depth, spe, msg);
      Settled(PlanDone(d, depth, spe, msg), r.outState) && SendsRunning(PlanDone(d, depth, spe, msg), r.inState)
  {
    var g, r := Collected(d, spe, msg), OnDone(d, depth, spe, msg);
    var a, b := CollectOps(msg), PlanScan(g, depth, msg.addr, 1);
    ScanSettled(g, depth, msg.addr, 1);
    forall p: nat | p < |a| ensures SettledAt(a + b, r.outState, p) {
      assert (a + b)[p..][3 - p] == PostOut(msg.addr);
    }
    SettledBoth(a, b, r.outState);
    forall p: nat | p < |a + b| ensures SendRunning((a + b)[p], r.inState) {
      if p >= |a| { assert SendRunning(b[p - |a|], r.inState); }
    }
  }

  lemma WroteSettled(d: Desk, depth: nat, slot: nat)
    requires d.Shape() && slot < d.Slots()
    ensures var r := OnWrote(d, depth, slot);
      Settled(PlanWrote(d, depth, slot), r.outState) && SendsRunning(PlanWrote(d, depth, slot), r.inState)
  {
    var d1, r := Freed(d, slot), OnWrote(d, depth, slot);
    var a, b := [MarkOut(slot, Empty)], PlanWrote(d, depth, slot)[1..];
    if d1.inState[slot] == Runnable && d1.workq < d.Spes() * depth {
      TaskSettled(d1, depth, slot);
      assert b == PlanTask(d1, depth, slot);
    } else {
      RoundSettled(d1, r.outState, r.inState);
      assert b == PlanRound(d1);
      if b != [] {
        EofPosts(d.Slots(), d.Spes(), 0, slot);
        assert PostOut(slot) in (a + b)[0..];
      }
    }
    SettledBoth(a, b, r.outState);
    assert a + b == PlanWrote(d, depth, slot);
    forall p: nat | p < |a + b| ensures SendRunning((a + b)[p], r.inState) {
      if p > 0 { assert SendRunning(b[p - 1], r.inState); }
    }
  }

  lemma PlanSettled(d: Desk, depth: nat, e: Event)
    requires d.Shape() && EventOk(d.Slots(), d.Spes(), e)
    ensures var r := Dispatch(d, depth, e);
      Settled(Plan(d, depth, e), r.outState) && SendsRunning(Plan(d, depth, e), r.inState)
  {
    match e
    case ReadSlot(slot) => if Plan(d, depth, e) != [] { TaskSettled(Heard(d, slot), depth, slot); }
    case ReadEof =>
      var g := d.(eof := true);
      RoundSettled(g, MaybeFirstRound(g).outState, MaybeFirstRound(g).inState);
    case SpuDone(spe, msg) => DoneSettled(d, depth, spe, msg);
    case SpuIdle(spe) =>
    case WroteSlot(slot) => WroteSettled(d, depth, slot);
  }

  /** After the first round has started, no event leads to a post to the writer. */
  lemma NoPosts(h: Host, n: int, a: nat)
    requires Sound(h, n) && h.queue != [] && !h.desk.done && h.Shape() && RoundsSent(h.desk) > 0
    requires EventOk(h.desk.Slots(), h.desk.Spes(), h.queue[0])
    ensures PostOut(a) !in Plan(h.desk, h.depth, h.queue[0])
  {
    var d, e := h.desk, h.queue[0];
    ShutdownInOrder(h, n);
    if e.SpuDone? {
      ResultOverwritesNothing(h, n);
      var t :| Inv(h, t) && Progress(h, t) == n;
      RoundShown(h, t);
      EofEverywhere(h, t, e.msg.addr);
      assert false;
    }
  }

  // ----- the invariant

  /** What is left to do does not interfere with what the writer is copying; a slot that is to be sent runs; the
      scheduler does not close while SPEs run. */
  ghost predicate Calm(f: Fine, outState: seq<SlotState>) {
    && (f.h.writer == WriterCopy ==> Untouched(f.todo, f.h.writeHead))
    && Settled(f.todo, outState) && SendsRunning(f.todo, f.h.desk.inState)
    && (f.closing && f.h.desk.eof && f.h.desk.Idle() && f.h.desk.ackq == 0 ==> f.h.running == 0)
  }

  ghost predicate FineSound(f: Fine, n: int) {
    f.Shape() && Sound(Whole(f), n) && Calm(f, Whole(f).desk.outState)
  }

  lemma PostsLeft(f: Fine, a: nat)
    requires f.Shape() && a < f.h.desk.Slots()
    ensures Whole(f).desk.outSem[a] >= f.h.desk.outSem[a] + if PostOut(a) in f.todo then 1 else 0
  {
    PostsCount(f.h.desk.Slots(), f.h.desk.Spes(), Shared(f.h.desk), ToDo(f), a);
    assert PostOut(a) in ToDo(f) || PostOut(a) !in f.todo;
  }

  /** An access that is still to come does not concern the slot that the writer copies from. */
  lemma WriterClear(f: Fine, n: int)
    requires f.Shape() && Sound(Whole(f), n) && f.h.writer == WriterCopy
    requires Settled(f.todo, Whole(f).desk.outState)
    requires RoundsSent(Whole(f).desk) == 0 || forall a :: PostOut(a) !in f.todo
    ensures Untouched(f.todo, f.h.writeHead)
  {
    var w, a := Whole(f), f.h.writeHead;
    WriterSlot(w, n);
    PostsLeft(f, a);
    forall p | 0 <= p < |f.todo| ensures !Touches(f.todo[p], a) {
      assert SettledAt(f.todo, w.desk.outState, p);
      assert forall x :: x in f.todo[p..] ==> x in f.todo;
    }
  }

  lemma NotYetWritten(h: Host, n: int, w: Host, k: int)
    requires Sound(h, n) && h.writer == WriterCopy && h.Shape() && RoundsSent(h.desk) == 0
    requires Sound(w, k) && w.out == h.out && w.input == h.input
    ensures w.Shape() && RoundsSent(w.desk) == 0
  {
    WriterSlot(h, n);
    ShutdownInOrder(w, k);
  }

  lemma TakeCalm(h: Host, n: int)
    requires Sound(h, n) && h.Shape() && Enabled(h, Schedule)
    ensures FineSound(TakenBy(h), n + 1)
  {
    var f, d, e := TakenBy(h), h.desk, h.queue[0];
    assert EventAt(d.Slots(), d.Spes(), h.queue, 0);
    TakeWhole(h);
    StepKeeps(h, Schedule, n);
    PlanSettled(d, h.depth, e);
    var w := Whole(f);
    assert w.desk.outState == Dispatch(d, h.depth, e).outState;
    ShutdownInOrder(w, n + 1);
    if h.writer == WriterCopy {
      if RoundsSent(d) == 0 {
        NotYetWritten(h, n, w, n + 1);
      } else {
        forall a ensures PostOut(a) !in f.todo { NoPosts(h, n, a); }
      }
      WriterClear(f, n + 1);
    }
  }

  lemma AccessCalm(f: Fine, n: int)
    requires FineSound(f, n) && f.todo != []
    ensures FineSound(Accessed(f), n)
  {
    var g, os := Accessed(f), Whole(f).desk.outState;
    AccessWhole(f);
    forall p: nat | p < |g.todo|
      ensures SettledAt(g.todo, os, p) && SendRunning(g.todo[p], g.h.desk.inState)
    {
      assert SettledAt(f.todo, os, p + 1) && SendRunning(f.todo[p + 1], f.h.desk.inState);
      assert f.todo[1..][p..] == f.todo[p + 1..];
    }
  }

  lemma CloseCalm(f: Fine, n: int)
    requires FineSound(f, n) && f.todo == [] && f.closing
    ensures FineSound(ClosedBy(f), n)
  {
    var g, os := ClosedBy(f), Whole(f).desk.outState;
    CloseWhole(f);
    forall p: nat | p < |g.todo|
      ensures SettledAt(g.todo, os, p) && SendRunning(g.todo[p], g.h.desk.inState) && g.todo[p].SendIdle?
    {
      IdleTouchesNothing(f.h.desk.Slots(), f.h.desk.Spes(), 0, p);
    }
  }

  // ----- a step of another thread is that step of the whole

  /** The two states differ in shared memory only, and by that of the second. */
  ghost predicate SameThreads(h: Host, w: Host) {
    && h.depth == w.depth && h.space == w.space && h.input == w.input && h.queue == w.queue && h.spe == w.spe
    && h.outbox == w.outbox && h.running == w.running && h.hand == w.hand && h.reader == w.reader && h.i == w.i
    && h.readHead == w.readHead && h.writer == w.writer && h.writeHead == w.writeHead && h.out == w.out
  }

  lemma SameShape(h: Host, w: Host)
    requires SameThreads(h, w) && w.Shape() && h.desk.Shape()
    requires h.desk.Slots() == w.desk.Slots() && h.desk.Spes() == w.desk.Spes()
    ensures h.Shape()
  {
    forall p: nat | p < |h.queue| ensures EventAt(h.desk.Slots(), h.desk.Spes(), h.queue, p) {
      assert EventAt(w.desk.Slots(), w.desk.Spes(), w.queue, p);
    }
  }

  /** The same step in f and in the whole of f. */
  ghost predicate Mirrors(f: Fine, s: Step)
    requires f.Shape()
  {
    && Whole(f).Shape() && Enabled(f.h, s) && Enabled(Whole(f), s)
    && var g := f.(h := Next(f.h, s));
    && g.h.desk.Shape() && AllOk(g.h.desk.Slots(), g.h.desk.Spes(), g.todo)
    && SameThreads(g.h, Next(Whole(f), s)) && g.h.desk.Slots() == f.h.desk.Slots() && g.h.desk.Spes() == f.h.desk.Spes()
    && (g.Shape() ==> Whole(g) == Next(Whole(f), s))
  }

  lemma QuietMirrors(f: Fine, s: Step)
    requires f.Shape() && Whole(f).Shape() && Enabled(f.h, s)
    requires s.ReadAnnounce? || s.ReadFinish? || s.SpeReply? || s.SpeAck? || s.EventAnnounce? || s.WriteAnnounce?
    ensures Mirrors(f, s)
  {
    var g := f.(h := Next(f.h, s));
    assert g.h.desk == f.h.desk;
    if g.Shape() { assert ToDo(g) == ToDo(f); }
  }

  lemma NoticeMirrors(f: Fine, i: nat)
    requires f.Shape() && Whole(f).Shape() && Enabled(f.h, EventTake(i)) && Calm(f, Whole(f).desk.outState)
    ensures Mirrors(f, EventTake(i))
  {
    var g := f.(h := Next(f.h, EventTake(i)));
    if g.Shape() {
      assert WillClose(g) == WillClose(f) == false;
      assert ToDo(g) == ToDo(f);
    }
  }

  lemma ReadLockMirrors(f: Fine)
    requires f.Shape() && Whole(f).Shape() && Enabled(f.h, ReadLock)
    ensures Mirrors(f, ReadLock)
  {
    var d, g := f.h.desk, f.(h := Next(f.h, ReadLock));
    InWaitedLater(d.Slots(), d.Spes(), Shared(d), ToDo(f), f.h.readHead);
    assert Shared(g.h.desk) == InWaited(Shared(d), f.h.readHead);
    if g.Shape() { assert ToDo(g) == ToDo(f); }
  }

  lemma WriteLockMirrors(f: Fine)
    requires f.Shape() && Whole(f).Shape() && Enabled(f.h, WriteLock)
    ensures Mirrors(f, WriteLock)
  {
    var d, g := f.h.desk, f.(h := Next(f.h, WriteLock));
    OutWaitedLater(d.Slots(), d.Spes(), Shared(d), ToDo(f), f.h.writeHead);
    assert Shared(g.h.desk) == OutWaited(Shared(d), f.h.writeHead);
    if g.Shape() { assert ToDo(g) == ToDo(f); }
  }

  lemma TookMirrors(f: Fine, s: Step)
    requires f.Shape() && Whole(f).Shape() && Enabled(f.h, s) && (s.SpeTake? || s.SpeTakeResting?)
    ensures Mirrors(f, s)
  {
    var d, g := f.h.desk, f.(h := Next(f.h, s));
    FirstOutLater(d.Slots(), d.Spes(), Shared(d), ToDo(f), s.spe);
    assert Shared(g.h.desk) == FirstOut(Shared(d), s.spe);
    if g.Shape() { assert ToDo(g) == ToDo(f); }
  }

  lemma NotSentLater(f: Fine, a: nat)
    requires f.Shape() && NotSent(f.todo, a)
    ensures NotSent(ToDo(f), a)
  {
    var slots, spes := f.h.desk.Slots(), f.h.desk.Spes();
    forall p | 0 <= p < |ToDo(f)| ensures !(ToDo(f)[p].SendSlot? && ToDo(f)[p].slot == a) {
      if p >= |f.todo| { IdleTouchesNothing(slots, spes, 0, p - |f.todo|); }
    }
  }

  lemma UntouchedLater(f: Fine, a: nat)
    requires f.Shape() && Untouched(f.todo, a)
    ensures Untouched(ToDo(f), a)
  {
    var slots, spes := f.h.desk.Slots(), f.h.desk.Spes();
    forall p | 0 <= p < |ToDo(f)| ensures !Touches(ToDo(f)[p], a) {
      if p >= |f.todo| { IdleTouchesNothing(slots, spes, 0, p - |f.todo|); }
    }
  }

  lemma ReadStoreMirrors(f: Fine, n: int)
    requires FineSound(f, n) && Whole(f).Shape() && Enabled(f.h, ReadStore)
    ensures Mirrors(f, ReadStore)
  {
    var d, g, a, v := f.h.desk, f.(h := Next(f.h, ReadStore)), f.h.readHead, f.h.input[f.h.i];
    ReaderOverwritesNothing(Whole(f), n);
    forall p | 0 <= p < |f.todo| ensures !(f.todo[p].SendSlot? && f.todo[p].slot == a) {
      assert SendRunning(f.todo[p], d.inState);
    }
    NotSentLater(f, a);
    FilledLater(d.Slots(), d.Spes(), Shared(d), ToDo(f), a, v);
    assert Shared(g.h.desk) == Filled(Shared(d), a, v);
    if g.Shape() { assert ToDo(g) == ToDo(f); }
  }

  lemma WriteCopyMirrors(f: Fine, n: int)
    requires FineSound(f, n) && Whole(f).Shape() && Enabled(f.h, WriteCopy)
    ensures Mirrors(f, WriteCopy)
  {
    var d, g := f.h.desk, f.(h := Next(f.h, WriteCopy));
    UntouchedLater(f, f.h.writeHead);
    UntouchedKept(d.Slots(), d.Spes(), Shared(d), ToDo(f), f.h.writeHead);
    if g.Shape() { assert ToDo(g) == ToDo(f); }
  }

  lemma StepMirrors(f: Fine, s: Step, n: int)
    requires FineSound(f, n) && s != Schedule && Enabled(f.h, s)
    ensures Mirrors(f, s)
  {
    StepKeeps(Whole(f), s, n);
    match s
    case ReadLock => ReadLockMirrors(f);
    case ReadStore => ReadStoreMirrors(f, n);
    case WriteLock => WriteLockMirrors(f);
    case WriteCopy => WriteCopyMirrors(f, n);
    case SpeTake(i) => TookMirrors(f, s);
    case SpeTakeResting(i) => TookMirrors(f, s);
    case EventTake(i) => NoticeMirrors(f, i);
    case Schedule =>
    case _ => QuietMirrors(f, s);
  }

  /** The writer has just acquired a slot: nothing that is left to do concerns it. */
  lemma LockedClear(f: Fine, g: Fine, n: int)
    requires g.Shape() && Sound(Whole(g), n + 1) && g.h.writer == WriterCopy && g.todo == f.todo
    requires Settled(g.todo, Whole(g).desk.outState) && PostOut(g.h.writeHead) !in g.todo
    ensures Untouched(g.todo, g.h.writeHead)
  {
    var w, a := Whole(g), g.h.writeHead;
    WriterSlot(w, n + 1);
    forall p | 0 <= p < |g.todo| ensures !Touches(g.todo[p], a) {
      assert SettledAt(g.todo, w.desk.outState, p);
      assert forall x :: x in g.todo[p..] ==> x in g.todo;
    }
  }

  lemma LockCalm(f: Fine, g: Fine, n: int)
    requires FineSound(f, n) && Enabled(f.h, WriteLock) && g == f.(h := WriteLocked(f.h))
    requires g.Shape() && Sound(Whole(g), n + 1) && Whole(g).desk.outState == Whole(f).desk.outState
    ensures Untouched(g.todo, g.h.writeHead)
  {
    WriterWaits(Whole(f), n);
    PostsLeft(f, f.h.writeHead);
    LockedClear(f, g, n);
  }

  /** Only the acquisition of a slot makes the writer copy. */
  lemma OtherWriter(h: Host, s: Step)
    requires h.Shape() && Enabled(h, s) && s != WriteLock && Next(h, s).writer == WriterCopy
    ensures h.writer == WriterCopy && Next(h, s).writeHead == h.writeHead
  {
  }

  lemma OtherShape(f: Fine, s: Step, n: int)
    requires FineSound(f, n) && s != Schedule && Enabled(f.h, s)
    ensures Whole(f).Shape() && Enabled(Whole(f), s)
    ensures var g := f.(h := Next(f.h, s)); g.Shape() && Whole(g) == Next(Whole(f), s) && Sound(Whole(g), n + 1)
  {
    var g := f.(h := Next(f.h, s));
    StepMirrors(f, s, n);
    StepKeeps(Whole(f), s, n);
    var w := Next(Whole(f), s);
    StepKeeps(w, s, n + 1);
    SameShape(g.h, w);
  }

  lemma SameMarks(h: Host, s: Step)
    requires h.Shape() && Enabled(h, s) && s != Schedule
    ensures Next(h, s).desk.outState == h.desk.outState && Next(h, s).desk.inState == h.desk.inState
  {
  }

  lemma OtherClear(f: Fine, s: Step, n: int)
    requires FineSound(f, n) && s != Schedule && Enabled(f.h, s)
    requires var g := f.(h := Next(f.h, s));
      && g.Shape() && Sound(Whole(g), n + 1) && Whole(g).desk.outState == Whole(f).desk.outState
    ensures var h := Next(f.h, s); h.writer == WriterCopy ==> Untouched(f.todo, h.writeHead)
  {
    if Next(f.h, s).writer == WriterCopy {
      if s == WriteLock { LockCalm(f, f.(h := Next(f.h, s)), n); } else { OtherWriter(f.h, s); }
    }
  }

  /** A step of another thread: of the whole it is the same step, and what is left to do stays harmless. */
  lemma OtherCalm(f: Fine, s: Step, n: int)
    requires FineSound(f, n) && s != Schedule && Enabled(f.h, s)
    ensures FineSound(f.(h := Next(f.h, s)), n + 1)
    ensures Whole(f).Shape() && Enabled(Whole(f), s) && Whole(f.(h := Next(f.h, s))) == Next(Whole(f), s)
  {
    OtherShape(f, s, n);
    SameMarks(Whole(f), s);
    SameMarks(f.h, s);
    OtherClear(f, s, n);
    StillClosing(f, s);
  }

  lemma StillClosing(f: Fine, s: Step)
    requires f.Shape() && s != Schedule && Enabled(f.h, s)
    ensures var d, g := f.h.desk, Next(f.h, s);
      && g.desk.eof == d.eof && g.desk.Idle() == d.Idle() && g.desk.ackq == d.ackq
      && (f.h.running == 0 ==> g.running == 0)
  {
  }
}
