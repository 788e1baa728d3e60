/** Written slots, and the two rounds of the shutdown. */
module PipelineShutdown {
  import opened Slots
  import opened Pipeline
  import opened PipelineInv
  import opened PipelineThreads
  import opened PipelineScheduler
  import opened PipelineEvents

  // ----- WROTE_SLOT

  function FreedTags(t: Tags): Tags
    requires t.q != []
  {
    t.(wd := t.wd + 1, q := t.q[1..])
  }

  lemma FreedFlow(n: nat, q: seq<Tag>, rd: nat, i: nat, wd: nat, announced: int, reader: ReaderPc, eof: bool)
    requires FlowOk(q, rd, i, wd, announced) && EofOk(n, q, rd, i, reader, eof) && q != [] && q[0].TWrote?
    ensures q[0].k == wd < announced
    ensures FlowOk(q[1..], rd, i, wd + 1, announced) && EofOk(n, q[1..], rd, i, reader, eof)
  {
    assert q == [q[0]] + q[1..];
    assert Wrotes(q)[1..] == Wrotes(q[1..]);
    assert TEof in q[1..] <==> TEof in q;
  }

  lemma FreedOrder(slots: nat, n: nat, st: seq<Stage>, wd: nat, announced: int, out: nat, taken: nat, i: nat,
                   acquired: nat)
    requires OrderOk(slots, n, st, wd, announced, out, taken, i, acquired) && wd < announced
    ensures OrderOk(slots, n, st, wd + 1, announced, out, taken, i, acquired) && IsFinished(st, wd)
  {
    var wd' := wd + 1;
    assert IsFinished(st, wd);
    forall j: nat | j < |st| ensures Launched(st, wd', slots, j) { assert Launched(st, wd, slots, j); }
  }

  lemma FreedStates(slots: nat, st: seq<Stage>, wd: nat, outState: seq<SlotState>)
    requires OutStatesOk(slots, st, false, wd, outState) && IsFinished(st, wd)
    requires forall j :: 0 <= j < |st| ==> Launched(st, wd, slots, j)
    ensures outState[SlotOf(wd, slots)] == Flushing
    ensures OutStatesOk(slots, st, false, wd + 1, outState[SlotOf(wd, slots) := Empty])
  {
    var outState' := outState[SlotOf(wd, slots) := Empty];
    assert OutStateOk(slots, st, false, outState, wd);
    forall j: nat | wd + 1 <= j < wd + 1 + slots ensures OutStateOk(slots, st, false, outState', j) {
      if j < wd + slots {
        assert OutStateOk(slots, st, false, outState, j);
        SlotsDiffer(wd, j, slots);
      } else {
        assert j - slots == wd && SlotOf(j, slots) == SlotOf(wd, slots);
        assert j < |st| ==> Launched(st, wd, slots, j);
      }
    }
  }

  lemma FreedMessages(h: Host, t: Tags, d: Desk)
    requires MessagesFine(h, t) && t.q != [] && t.q[0].TWrote?
    requires d.Slots() == h.desk.Slots() && d.inbox == h.desk.inbox && d.mboxq == h.desk.mboxq
    ensures h.queue != [] && MessagesFine(Taking(h, d), FreedTags(t))
  {
    PoppedQueue(h.desk.Slots(), h.input, t.st, t.w.rest, t.q, h.queue);
    PoppedLoads(h.depth, h.desk.mboxq, t.w, t.hd, t.q);
    PoppedAcks(t.w.rest, t.hd, t.q);
  }

  lemma FreedSlots(h: Host, t: Tags)
    requires h.desk.Shape() && h.queue != [] && t.q != [] && SlotsFine(h, t) && Ordered(h, t) && t.wd < Announced(h)
    requires !t.round
    ensures var slot := SlotOf(t.wd, h.desk.Slots());
      && h.desk.outState[slot] == Flushing
      && SlotsFine(Taking(h, Freed(h.desk, slot)), FreedTags(t))
      && Ordered(Taking(h, Freed(h.desk, slot)), FreedTags(t))
  {
    FreedOrder(h.desk.Slots(), |h.input|, t.st, t.wd, Announced(h), |h.out|, Taken(h, t.round), h.i, Acquired(h));
    FreedStates(h.desk.Slots(), t.st, t.wd, h.desk.outState);
  }

  lemma FreedCounts(h: Host, t: Tags, slot: nat)
    requires h.desk.Shape() && h.queue != [] && t.q != [] && CountsFine(h, t) && !t.round
    requires slot < h.desk.Slots() && h.desk.outState[slot] == Flushing
    ensures CountsFine(Taking(h, Freed(h.desk, slot)), FreedTags(t))
  {
    StateUpdate(h.desk.outState, slot, Empty, Flushing);
  }

  lemma FreedEntry(h: Host, t: Tags)
    requires MessagesFine(h, t) && t.q != [] && t.q[0].TWrote?
    ensures h.queue != [] && 0 < h.desk.Slots() && h.queue[0] == WroteSlot(SlotOf(t.q[0].k, h.desk.Slots()))
  {
    assert EntryAt(h.desk.Slots(), h.input, t.st, t.w.rest, t.q, h.queue, 0);
  }

  lemma FreedGroups(h: Host, t: Tags)
    requires Core(h, t) && t.q != [] && t.q[0].TWrote? && t.wd < Announced(h) && h.queue != []
    ensures var slot := SlotOf(t.wd, h.desk.Slots()); var g := Taking(h, Freed(h.desk, slot));
      && !t.round && SlotsFine(g, FreedTags(t)) && Ordered(g, FreedTags(t)) && MessagesFine(g, FreedTags(t))
      && CountsFine(g, FreedTags(t))
  {
    FreedSlots(h, t);
    FreedMessages(h, t, Freed(h.desk, SlotOf(t.wd, h.desk.Slots())));
    FreedCounts(h, t, SlotOf(t.wd, h.desk.Slots()));
  }

  lemma FreedControl(h: Host, t: Tags, d: Desk)
    requires h.queue != [] && t.q != [] && t.q[0].TWrote? && d.eof == h.desk.eof
    requires FlowOk(t.q, |t.st|, h.i, t.wd, Announced(h)) && EofOk(|h.input|, t.q, |t.st|, h.i, h.reader, h.desk.eof)
    ensures var g, u := Taking(h, d), FreedTags(t);
      && Progress(g, u) == Progress(h, t) + 1
      && FlowOk(u.q, |u.st|, g.i, u.wd, Announced(g)) && EofOk(|g.input|, u.q, |u.st|, g.i, g.reader, g.desk.eof)
  {
    FreedFlow(|h.input|, t.q, |t.st|, h.i, t.wd, Announced(h), h.reader, h.desk.eof);
  }

  lemma FreedParts(h: Host, t: Tags)
    requires Core(h, t) && t.q != [] && t.q[0].TWrote? && t.wd < Announced(h) && h.queue != []
    ensures Steady(Taking(h, Freed(h.desk, SlotOf(t.wd, h.desk.Slots()))), false, Progress(h, t) + 1)
  {
    FreedGroups(h, t);
    var g := Taking(h, Freed(h.desk, SlotOf(t.wd, h.desk.Slots())));
    FreedControl(h, t, g.desk);
    SameFixed(h, g);
    Assemble(g, FreedTags(t), Progress(h, t) + 1);
  }

  lemma FreedSteady(h: Host, t: Tags)
    requires Core(h, t) && t.q != [] && t.q[0].TWrote?
    ensures h.queue != [] && h.queue[0].WroteSlot? && h.queue[0].slot < h.desk.Slots()
    ensures Steady(Taking(h, Freed(h.desk, h.queue[0].slot)), false, Progress(h, t) + 1)
  {
    FreedFlow(|h.input|, t.q, |t.st|, h.i, t.wd, Announced(h), h.reader, h.desk.eof);
    FreedEntry(h, t);
    FreedParts(h, t);
  }

  // ----- the first round of the shutdown

  /** When nothing is being read, worked on or written, all elements so far are finished and written. */
  lemma IdleMeansWritten(h: Host, t: Tags)
    requires Core(h, t) && h.desk.Idle() && !t.round
    ensures t.wd == |t.st| == |h.out| && h.writer != WriterPush && h.writer != WriterCopy
  {
    var d, slots := h.desk, h.desk.Slots();
    forall k: nat | k < |t.st| ensures IsFinished(t.st, k) {
      if t.st[k] != Finished {
        assert k + slots < Acquired(h) ==> IsFinished(t.st, k);
        assert InStateOk(slots, t.st, d.inState, k + slots);
        StateCounted(d.inState, SlotOf(k + slots, slots), InOf(t.st[k]));
      }
    }
    if t.wd < |t.st| {
      assert IsFinished(t.st, t.wd) && OutStateOk(slots, t.st, t.round, d.outState, t.wd);
      StateCounted(d.outState, SlotOf(t.wd, slots), Flushing);
    }
  }

  lemma {:induction false} AllRest(rest: seq<Rest>, r: Rest)
    requires forall s :: 0 <= s < |rest| ==> rest[s] == r
    ensures CountAwaited(rest) == if Awaited(r) then |rest| else 0
    ensures CountActive(rest) == if Active(r) then |rest| else 0
    ensures RestSum(rest) == |rest| * RestRank(r)
  {
    if rest != [] {
      assert |rest| * RestRank(r) == (|rest| - 1) * RestRank(r) + RestRank(r);
      AllRest(rest[..|rest| - 1], r);
    }
  }

  lemma {:induction false} NoneAwaited(rest: seq<Rest>, s: nat)
    requires CountAwaited(rest) == 0 && s < |rest|
    ensures !Awaited(rest[s])
  {
    if s < |rest| - 1 { NoneAwaited(rest[..|rest| - 1], s); }
  }

  /** Nobody holds a request. */
  lemma NothingHeld(h: Host, t: Tags, s: nat)
    requires MessagesFine(h, t) && Sum(h.desk.mboxq) == 0 && s < |h.desk.mboxq|
    ensures t.w.ids[s] == [] && t.w.wk[s].None? && t.w.ob[s].None? && InHandOf(t.hd, s) == 0
  {
    forall j: nat | j < |h.desk.mboxq| ensures AtLeast(h.desk.mboxq, 0, j) {
      assert LoadFine(h.depth, h.desk.mboxq, t.w, t.hd, t.q, j);
    }
    assert LoadFine(h.depth, h.desk.mboxq, t.w, t.hd, t.q, s);
    SumBounds(h.desk.mboxq, s);
  }

  function Restful(t: Tags, r: Rest): Tags {
    t.(round := true, w := t.w.(rest := seq(|t.w.rest|, s => r)))
  }

  lemma ToldMessages(h: Host, t: Tags, d: Desk)
    requires MessagesFine(h, t) && h.desk.Shape() && |h.spe| == |h.outbox| == h.desk.Spes() && Sum(h.desk.mboxq) == 0
    requires forall s :: 0 <= s < |t.w.rest| ==> RestOk(false, false, t.w.rest[s])
    requires d.Slots() == h.desk.Slots() && d.inbox == TellAll(h.desk).inbox && d.mboxq == h.desk.mboxq
    ensures MessagesFine(h.(desk := d), Restful(t, Told))
  {
    var slots, u, g := h.desk.Slots(), Restful(t, Told), h.(desk := d);
    forall s: nat | s < |h.spe|
      ensures SpeFine(slots, g.input, g.spe, g.desk.inbox, g.outbox, u.w, s) && HeldFine(u.st, u.w, s)
      ensures LoadFine(h.depth, d.mboxq, u.w, u.hd, u.q, s)
    {
      assert SpeFine(slots, h.input, h.spe, h.desk.inbox, h.outbox, t.w, s) && HeldFine(t.st, t.w, s);
      assert LoadFine(h.depth, h.desk.mboxq, t.w, t.hd, t.q, s) && RestOk(false, false, t.w.rest[s]);
      NothingHeld(h, t, s);
    }
    forall s | 0 <= s < |t.w.rest| ensures t.w.rest[s] == Normal { assert RestOk(false, false, t.w.rest[s]); }
    forall p: nat | p < |t.q| ensures EntryAt(slots, h.input, t.st, u.w.rest, t.q, h.queue, p) {
      assert EntryAt(slots, h.input, t.st, t.w.rest, t.q, h.queue, p);
    }
    if t.hd.Some? && t.hd.value.TDone? {
      NothingHeld(h, t, t.hd.value.spe);
    }
    forall s: nat | s < |u.w.rest| ensures AckAt(u.w.rest, u.hd, u.q, s) {}
  }

  lemma FirstRoundSlots(h: Host, t: Tags)
    requires h.desk.Shape() && SlotsFine(h, t) && Ordered(h, t) && !t.round && t.wd == |t.st| == |h.out|
    requires h.writer != WriterPush && h.writer != WriterCopy && h.writer != WriterDone
    ensures var g, u := h.(desk := FirstRound(h.desk)), Restful(t, Told); SlotsFine(g, u) && Ordered(g, u)
  {
    var d, slots := h.desk, h.desk.Slots();
    var outState', outSem' := FirstRound(d).outState, FirstRound(d).outSem;
    forall k: nat | t.wd <= k < t.wd + slots ensures OutStateOk(slots, t.st, true, outState', k) {}
    forall k: nat | |h.out| <= k < |h.out| + slots ensures OutSemOk(slots, t.st, true, outSem', k) {
      assert OutSemOk(slots, t.st, false, d.outSem, k);
    }
  }

  lemma FirstRoundCounts(h: Host, t: Tags)
    requires h.desk.Shape() && CountsFine(h, t) && !t.round && h.desk.eof && h.desk.Idle()
    requires |t.w.rest| == h.desk.Spes()
    requires t.wd == |h.input| == |t.st|
    ensures h.desk.ackq == 0 && CountsFine(h.(desk := FirstRound(h.desk)), Restful(t, Told))
  {
    var d, rest := h.desk, t.w.rest;
    forall s | 0 <= s < |rest| ensures rest[s] == Normal { assert RestOk(false, d.done, rest[s]); }
    AllRest(rest, Normal);
    AllRest(Restful(t, Told).w.rest, Told);
    StateAbsent(FirstRound(d).outState, Flushing);
  }

  lemma FirstRoundProgress(h: Host, t: Tags)
    requires h.desk.Shape() && CountsFine(h, t) && !t.round && h.desk.ackq == 0
    ensures Progress(h.(desk := FirstRound(h.desk)), Restful(t, Told)) == Progress(h, t)
    ensures forall s :: 0 <= s < |t.w.rest| ==> RestOk(false, false, t.w.rest[s])
  {
    forall s | 0 <= s < |t.w.rest| ensures t.w.rest[s] == Normal { assert RestOk(false, h.desk.done, t.w.rest[s]); }
    AllRest(t.w.rest, Normal);
    AllRest(Restful(t, Told).w.rest, Told);
  }

  lemma FirstRoundSteady(h: Host, n: int)
    requires Steady(h, false, n) && h.desk.Shape() && h.desk.eof && h.desk.Idle()
    ensures h.desk.ackq == 0 && Steady(h.(desk := FirstRound(h.desk)), true, n)
  {
    var t :| Core(h, t) && t.round == false && Progress(h, t) == n;
    IdleMeansWritten(h, t);
    FirstRoundCounts(h, t);
    FirstRoundSlots(h, t);
    FirstRoundProgress(h, t);
    ToldMessages(h, t, FirstRound(h.desk));
    SameFixed(h, h.(desk := FirstRound(h.desk)));
    Assemble(h.(desk := FirstRound(h.desk)), Restful(t, Told), n);
  }

  /** The tail shared by READ_EOF and WROTE_SLOT. */
  lemma MaybeFirstRoundKeeps(h: Host, n: int)
    requires Steady(h, false, n) && Balanced(h.desk, h.depth) && !h.desk.done
    ensures var d := MaybeFirstRound(h.desk); Closing(d, h.running) == d && Sound(h.(desk := d), n)
  {
    var d := MaybeFirstRound(h.desk);
    if h.desk.eof && h.desk.Idle() {
      FirstRoundSteady(h, n);
      forall j: nat | j < d.Slots() ensures NoneLeft(d.inState, d.outState, j) {}
      Conclude(h.(desk := d), true, n);
    } else {
      assert h.(desk := d) == h;
      Conclude(h, false, n);
    }
  }

  lemma FreedBalance(d: Desk, depth: nat, slot: nat)
    requires Balanced(d, depth) && slot < d.Slots()
    ensures ConservingBut(Freed(d, slot), depth, slot)
    ensures d.inState[slot] != Runnable || d.workq >= d.Spes() * depth ==> Balanced(Freed(d, slot), depth)
  {
    var e := Freed(d, slot);
    if d.workq < d.Spes() * depth {
      forall j: nat | j < d.Slots() && (j != slot || d.inState[slot] != Runnable)
        ensures NoneLeft(e.inState, e.outState, j)
      {
        if j != slot { assert NoneLeft(d.inState, d.outState, j); }
      }
    }
  }

  /** The slot that a WROTE_SLOT event has freed is given to an SPE. */
  lemma FreedStarts(h: Host, g: Host, slot: nat, n: int)
    requires h.Shape() && h.queue != [] && h.queue[0] == WroteSlot(slot) && slot < h.desk.Slots()
    requires g == Taking(h, Freed(h.desk, slot)) && Steady(g, false, n)
    requires g.desk.inState[slot] == Runnable && g.desk.workq < g.desk.Spes() * g.depth && !g.desk.done
    requires ConservingBut(g.desk, h.depth, slot)
    ensures Sound(Scheduled(h), n)
  {
    var c := TaskSteady(g, slot, n);
    StartedBalance(g.desk, h.depth, slot, c);
    assert Scheduled(h) == Begun(g, slot, c);
    Conclude(Begun(g, slot, c), false, n);
  }

  /** The slot that a WROTE_SLOT event has freed has nothing to do. */
  lemma FreedRests(h: Host, g: Host, slot: nat, n: int)
    requires h.Shape() && h.queue != [] && h.queue[0] == WroteSlot(slot) && slot < h.desk.Slots()
    requires g == Taking(h, Freed(h.desk, slot)) && Steady(g, false, n)
    requires g.desk.inState[slot] != Runnable || g.desk.workq >= g.desk.Spes() * g.depth
    requires Balanced(g.desk, g.depth) && !g.desk.done
    ensures Sound(Scheduled(h), n)
  {
    MaybeFirstRoundKeeps(g, n);
    assert Scheduled(h) == g.(desk := MaybeFirstRound(g.desk));
  }

  lemma OnWroteKeeps(h: Host, t: Tags)
    requires Inv(h, t) && h.Shape() && t.q != [] && t.q[0].TWrote? && !h.desk.done
    ensures h.queue != [] && Sound(Scheduled(h), Progress(h, t) + 1)
  {
    FreedSteady(h, t);
    var slot := h.queue[0].slot;
    var g := Taking(h, Freed(h.desk, slot));
    FreedBalance(h.desk, h.depth, slot);
    if g.desk.inState[slot] == Runnable && g.desk.workq < g.desk.Spes() * g.depth {
      FreedStarts(h, g, slot, Progress(h, t) + 1);
    } else {
      FreedRests(h, g, slot, Progress(h, t) + 1);
    }
  }

  // ----- READ_EOF

  lemma {:induction false} NoReads(q: seq<Tag>)
    requires forall p :: 0 <= p < |q| ==> !q[p].TRead?
    ensures Reads(q) == []
  {
    if q != [] { NoReads(q[1..]); }
  }

  lemma EndedFlow(slots: nat, input: seq<bv16>, st: seq<Stage>, rest: seq<Rest>, q: seq<Tag>, queue: seq<Event>,
                  n: nat, i: nat, wd: nat, announced: int, reader: ReaderPc, eof: bool)
    requires QueueOk(slots, input, st, rest, q, queue)
    requires FlowOk(q, |st|, i, wd, announced) && EofOk(n, q, |st|, i, reader, eof) && q != [] && q[0] == TEof
    ensures !eof && FlowOk(q[1..], |st|, i, wd, announced) && EofOk(n, q[1..], |st|, i, reader, true)
  {
    assert q[0] in q;
    var r := q[1..];
    forall p | 0 <= p < |r| ensures !r[p].TRead? && r[p] != TEof { assert PairAt(q, 0, p + 1); }
    NoReads(r);
    assert q == [q[0]] + r;
  }

  function EndedTags(t: Tags): Tags
    requires t.q != []
  {
    t.(q := t.q[1..])
  }

  lemma EndedMessages(h: Host, t: Tags)
    requires MessagesFine(h, t) && h.desk.Shape() && t.q != [] && t.q[0] == TEof
    ensures h.queue != [] && MessagesFine(Taking(h, h.desk.(eof := true)), EndedTags(t))
  {
    PoppedQueue(h.desk.Slots(), h.input, t.st, t.w.rest, t.q, h.queue);
    PoppedLoads(h.depth, h.desk.mboxq, t.w, t.hd, t.q);
    PoppedAcks(t.w.rest, t.hd, t.q);
  }

  lemma EndedControl(h: Host, t: Tags)
    requires Core(h, t) && t.q != [] && t.q[0] == TEof && h.queue != []
    ensures h.queue[0] == ReadEof && !t.round && !h.desk.eof && |t.st| == |h.input|
    ensures var g, u := Taking(h, h.desk.(eof := true)), EndedTags(t);
      && Progress(g, u) == Progress(h, t) + 1
      && FlowOk(u.q, |u.st|, g.i, u.wd, Announced(g)) && EofOk(|g.input|, u.q, |u.st|, g.i, g.reader, g.desk.eof)
  {
    assert EntryAt(h.desk.Slots(), h.input, t.st, t.w.rest, t.q, h.queue, 0);
    EndedFlow(h.desk.Slots(), h.input, t.st, t.w.rest, t.q, h.queue, |h.input|, h.i, t.wd, Announced(h), h.reader,
              h.desk.eof);
  }

  lemma EndedSteady(h: Host, t: Tags)
    requires Core(h, t) && t.q != [] && t.q[0] == TEof
    ensures h.queue != [] && h.queue[0] == ReadEof && !t.round
    ensures Steady(Taking(h, h.desk.(eof := true)), false, Progress(h, t) + 1)
  {
    EndedMessages(h, t);
    EndedControl(h, t);
    SameFixed(h, Taking(h, h.desk.(eof := true)));
    Assemble(Taking(h, h.desk.(eof := true)), EndedTags(t), Progress(h, t) + 1);
  }

  lemma OnEofKeeps(h: Host, t: Tags)
    requires Inv(h, t) && h.Shape() && t.q != [] && t.q[0] == TEof && !h.desk.done
    ensures h.queue != [] && Sound(Scheduled(h), Progress(h, t) + 1)
  {
    EndedSteady(h, t);
    var g := Taking(h, h.desk.(eof := true));
    MaybeFirstRoundKeeps(g, Progress(h, t) + 1);
    assert Scheduled(h) == g.(desk := OnEof(h.desk));
  }

  // ----- acknowledgements, and the second round

  function QuietTags(t: Tags): Tags
    requires t.q != [] && t.q[0].TIdle? && t.q[0].spe < |t.w.rest|
  {
    t.(q := t.q[1..], w := t.w.(rest := t.w.rest[t.q[0].spe := Quiet]))
  }

  lemma QuietMessages(h: Host, t: Tags, d: Desk)
    requires MessagesFine(h, t) && t.q != [] && t.q[0].TIdle?
    requires d.Slots() == h.desk.Slots() && d.inbox == h.desk.inbox && d.mboxq == h.desk.mboxq
    ensures h.queue != [] && t.q[0].spe < |t.w.rest| && t.w.rest[t.q[0].spe] == AckReported
    ensures MessagesFine(Taking(h, d), QuietTags(t))
  {
    var slots, s0, q' := h.desk.Slots(), t.q[0].spe, t.q[1..];
    PoppedQueue(slots, h.input, t.st, t.w.rest, t.q, h.queue);
    PoppedLoads(h.depth, h.desk.mboxq, t.w, t.hd, t.q);
    var u := QuietTags(t);
    forall p: nat | p < |q'| ensures EntryAt(slots, h.input, t.st, u.w.rest, q', h.queue[1..], p) {
      assert EntryAt(slots, h.input, t.st, t.w.rest, q', h.queue[1..], p) && PairAt(t.q, 0, p + 1);
    }
    forall s: nat | s < |h.spe|
      ensures SpeFine(slots, h.input, h.spe, h.desk.inbox, h.outbox, u.w, s) && HeldFine(u.st, u.w, s)
      ensures LoadFine(h.depth, h.desk.mboxq, u.w, u.hd, u.q, s)
    {
      assert SpeFine(slots, h.input, h.spe, h.desk.inbox, h.outbox, t.w, s) && HeldFine(t.st, t.w, s);
      assert LoadFine(h.depth, h.desk.mboxq, t.w, t.hd, q', s);
    }
    assert t.q == [t.q[0]] + q';
    forall s: nat | s < |u.w.rest| ensures AckAt(u.w.rest, u.hd, u.q, s) { assert AckAt(t.w.rest, t.hd, t.q, s); }
  }

  lemma QuietCounts(h: Host, t: Tags)
    requires CountsFine(h, t) && h.queue != [] && t.q != [] && t.q[0].TIdle? && t.q[0].spe < |t.w.rest|
    requires t.w.rest[t.q[0].spe] == AckReported
    ensures t.round && CountsFine(Taking(h, h.desk.(ackq := h.desk.ackq - 1)), QuietTags(t))
    ensures RestSum(QuietTags(t).w.rest) == RestSum(t.w.rest) + 1
  {
    assert RestOk(t.round, h.desk.done, t.w.rest[t.q[0].spe]);
    ActiveUpdate(t.w.rest, t.q[0].spe, Quiet);
    RestUpdate(t.w.rest, t.q[0].spe, Quiet);
  }

  lemma QuietControl(h: Host, t: Tags)
    requires FlowOk(t.q, |t.st|, h.i, t.wd, Announced(h)) && EofOk(|h.input|, t.q, |t.st|, h.i, h.reader, h.desk.eof)
    requires h.queue != [] && t.q != [] && t.q[0].TIdle? && t.q[0].spe < |t.w.rest|
    ensures var g, u := Taking(h, h.desk.(ackq := h.desk.ackq - 1)), QuietTags(t);
      FlowOk(u.q, |u.st|, g.i, u.wd, Announced(g)) && EofOk(|g.input|, u.q, |u.st|, g.i, g.reader, g.desk.eof)
  {
    PoppedFlow(|h.input|, t.q, |t.st|, h.i, t.wd, Announced(h), h.reader, h.desk.eof);
  }

  lemma QuietSteady(h: Host, t: Tags)
    requires Core(h, t) && t.q != [] && t.q[0].TIdle? && !h.desk.done
    ensures h.queue != [] && h.queue[0].SpuIdle? && t.round
    ensures Steady(Taking(h, h.desk.(ackq := h.desk.ackq - 1)), true, Progress(h, t) + 1)
  {
    var d := h.desk.(ackq := h.desk.ackq - 1);
    PoppedQueue(h.desk.Slots(), h.input, t.st, t.w.rest, t.q, h.queue);
    QuietMessages(h, t, d);
    QuietCounts(h, t);
    QuietControl(h, t);
    SameFixed(h, Taking(h, d));
    Assemble(Taking(h, d), QuietTags(t), Progress(h, t) + 1);
  }

  lemma SecondRoundMessages(h: Host, t: Tags, d: Desk)
    requires MessagesFine(h, t) && h.desk.Shape() && |h.spe| == |h.outbox| == h.desk.Spes()
    requires forall s :: 0 <= s < |t.w.rest| ==> t.w.rest[s] == Quiet
    requires d.Slots() == h.desk.Slots() && d.inbox == TellAll(h.desk).inbox && d.mboxq == h.desk.mboxq
    ensures MessagesFine(h.(desk := d), Restful(t, ToldAgain))
  {
    var slots, u, g := h.desk.Slots(), Restful(t, ToldAgain), h.(desk := d);
    forall s: nat | s < |h.spe|
      ensures SpeFine(slots, g.input, g.spe, g.desk.inbox, g.outbox, u.w, s) && HeldFine(u.st, u.w, s)
      ensures LoadFine(h.depth, d.mboxq, u.w, u.hd, u.q, s)
    {
      assert SpeFine(slots, h.input, h.spe, h.desk.inbox, h.outbox, t.w, s) && HeldFine(t.st, t.w, s);
      assert LoadFine(h.depth, h.desk.mboxq, t.w, t.hd, t.q, s);
    }
    forall p: nat | p < |t.q| ensures EntryAt(slots, h.input, t.st, u.w.rest, t.q, h.queue, p) {
      assert EntryAt(slots, h.input, t.st, t.w.rest, t.q, h.queue, p);
    }
    forall s: nat | s < |u.w.rest| ensures AckAt(u.w.rest, u.hd, u.q, s) {}
  }

  function Finale(h: Host): Host
    requires h.desk.Shape()
  {
    h.(desk := TellAll(h.desk).(done := true))
  }

  lemma AllQuiet(rest: seq<Rest>)
    requires CountAwaited(rest) == 0 && forall s :: 0 <= s < |rest| ==> RestOk(true, false, rest[s])
    ensures CountActive(rest) == 0 && forall s :: 0 <= s < |rest| ==> rest[s] == Quiet
    ensures RestSum(rest) == |rest| * 5
  {
    forall s | 0 <= s < |rest| ensures rest[s] == Quiet {
      assert RestOk(true, false, rest[s]);
      NoneAwaited(rest, s);
    }
    AllRest(rest, Quiet);
  }

  lemma SecondRoundGroups(h: Host, t: Tags)
    requires Core(h, t) && t.round && !h.desk.done && h.desk.ackq == 0
    ensures h.desk.eof && h.desk.Idle() && h.running == 0
    ensures var g, u := Finale(h), Restful(t, ToldAgain);
      SlotsFine(g, u) && Ordered(g, u) && MessagesFine(g, u) && CountsFine(g, u)
  {
    AllQuiet(t.w.rest);
    AllRest(Restful(t, ToldAgain).w.rest, ToldAgain);
    SecondRoundMessages(h, t, TellAll(h.desk).(done := true));
  }

  lemma SecondRoundProgress(h: Host, t: Tags)
    requires h.desk.Shape() && CountAwaited(t.w.rest) == 0
    requires forall s :: 0 <= s < |t.w.rest| ==> RestOk(true, false, t.w.rest[s])
    ensures Progress(Finale(h), Restful(t, ToldAgain)) == Progress(h, t)
  {
    AllQuiet(t.w.rest);
    AllRest(Restful(t, ToldAgain).w.rest, ToldAgain);
  }

  /** Once the last acknowledgement is in, no SPE is running, and the second idle messages go out. */
  lemma SecondRoundSteady(h: Host, n: int)
    requires Steady(h, true, n) && h.desk.Shape() && !h.desk.done && h.desk.ackq == 0
    ensures h.desk.eof && h.desk.Idle() && h.running == 0 && Steady(Finale(h), true, n)
  {
    var t :| Core(h, t) && t.round == true && Progress(h, t) == n;
    SecondRoundGroups(h, t);
    SecondRoundProgress(h, t);
    SameFixed(h, Finale(h));
    Assemble(Finale(h), Restful(t, ToldAgain), n);
  }

  lemma AwaitedLeft(h: Host, n: int)
    requires Steady(h, true, n)
    ensures h.desk.ackq >= 0
  {
    var t :| Core(h, t) && t.round == true && Progress(h, t) == n;
  }

  lemma ClosingKeeps(h: Host, n: int)
    requires Steady(h, true, n) && Balanced(h.desk, h.depth) && !h.desk.done
    ensures Sound(h.(desk := Closing(h.desk, h.running)), n)
  {
    AwaitedLeft(h, n);
    if h.desk.ackq == 0 {
      SecondRoundSteady(h, n);
      Conclude(h.(desk := Closing(h.desk, h.running)), true, n);
    } else {
      assert h.(desk := Closing(h.desk, h.running)) == h;
      Conclude(h, true, n);
    }
  }

  lemma OnIdleKeeps(h: Host, t: Tags)
    requires Inv(h, t) && h.Shape() && t.q != [] && t.q[0].TIdle? && !h.desk.done
    ensures h.queue != [] && Sound(Scheduled(h), Progress(h, t) + 1)
  {
    QuietSteady(h, t);
    var g := Taking(h, h.desk.(ackq := h.desk.ackq - 1));
    assert Scheduled(h) == g.(desk := Closing(g.desk, g.running));
    ClosingKeeps(g, Progress(h, t) + 1);
  }
}
