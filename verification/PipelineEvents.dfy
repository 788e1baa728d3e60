/** The scheduler's other events: a task is done, a slot was written, end of file, acknowledgements. */
module PipelineEvents {
  import opened Lists
  import opened Slots
  import opened Pipeline
  import opened PipelineInv
  import opened PipelineThreads
  import opened PipelineSpes
  import opened PipelineScheduler

  // ----- SPU_DONE

  function DoneTags(t: Tags): Tags
    requires t.q != [] && t.q[0].TDone? && t.q[0].k < |t.st|
  {
    t.(st := t.st[t.q[0].k := Finished], q := t.q[1..])
  }

  /** An element in progress is within reach of both windows of slots. */
  lemma InReach(slots: nat, n: nat, st: seq<Stage>, wd: nat, announced: int, out: nat, taken: nat, i: nat,
                acquired: nat, k: nat)
    requires OrderOk(slots, n, st, wd, announced, out, taken, i, acquired) && k < |st| && Underway(st[k])
    ensures taken <= k < wd + slots && acquired <= k + slots
  {
    assert Launched(st, wd, slots, k);
    assert k < taken ==> IsFinished(st, k);
    assert k + slots < acquired ==> IsFinished(st, k);
  }

  lemma DoneSems(slots: nat, st: seq<Stage>, acquired: nat, inSem: seq<nat>, taken: nat, outSem: seq<nat>, k: nat)
    requires InSemsOk(slots, st, acquired, inSem) && OutSemsOk(slots, st, false, taken, outSem)
    requires k < |st| && Underway(st[k]) && acquired <= k + slots && taken <= k < taken + slots && k < acquired
    ensures var a := SlotOf(k, slots);
      && InSemsOk(slots, st[k := Finished], acquired, inSem[a := inSem[a] + 1])
      && OutSemsOk(slots, st[k := Finished], false, taken, outSem[a := outSem[a] + 1])
  {
    var st', a := st[k := Finished], SlotOf(k, slots);
    var inSem', outSem' := inSem[a := inSem[a] + 1], outSem[a := outSem[a] + 1];
    assert SlotOf(k + slots, slots) == a;
    assert InSemOk(slots, st, inSem, k + slots) && OutSemOk(slots, st, false, outSem, k);
    forall j: nat | acquired <= j < acquired + slots ensures InSemOk(slots, st', inSem', j) {
      assert InSemOk(slots, st, inSem, j);
      if j < k + slots { SlotsDiffer(j, k + slots, slots); } else if j > k + slots { SlotsDiffer(k + slots, j, slots); }
    }
    forall j: nat | taken <= j < taken + slots ensures OutSemOk(slots, st', false, outSem', j) {
      assert OutSemOk(slots, st, false, outSem, j);
      if j < k { SlotsDiffer(j, k, slots); } else if j > k { SlotsDiffer(k, j, slots); }
    }
  }

  lemma DoneBufs(slots: nat, input: seq<bv16>, st: seq<Stage>, stored: nat, inBuf: seq<bv16>, from: nat,
                 outBuf: seq<bv16>, wd: nat, k: nat)
    requires InBufsOk(slots, input, st, stored, inBuf) && OutBufsOk(slots, input, st, from, outBuf)
    requires k < |st| && Underway(st[k]) && wd <= from <= k < wd + slots
    requires forall j :: 0 <= j < |st| ==> Launched(st, wd, slots, j)
    ensures InBufsOk(slots, input, st[k := Finished], stored, inBuf)
    ensures OutBufsOk(slots, input, st[k := Finished], from, outBuf[SlotOf(k, slots) := Swapped(input[k])])
  {
    var st', outBuf' := st[k := Finished], outBuf[SlotOf(k, slots) := Swapped(input[k])];
    forall j: nat | j < stored
      ensures InBufOk(slots, input, st', inBuf, j)
    {
      assert InBufOk(slots, input, st, inBuf, j);
    }
    forall j: nat | from <= j < |st'| ensures OutBufOk(slots, input, st', outBuf', j) {
      assert OutBufOk(slots, input, st, outBuf, j) && Launched(st, wd, slots, j);
      if IsFinished(st, j) {
        if j < k { SlotsDiffer(j, k, slots); } else { SlotsDiffer(k, j, slots); }
      }
    }
  }

  lemma DoneOrder(slots: nat, n: nat, st: seq<Stage>, wd: nat, announced: int, out: nat, taken: nat, i: nat,
                  acquired: nat, k: nat)
    requires OrderOk(slots, n, st, wd, announced, out, taken, i, acquired) && k < |st| && Underway(st[k])
    ensures OrderOk(slots, n, st[k := Finished], wd, announced, out, taken, i, acquired)
  {
    var st' := st[k := Finished];
    var low := if acquired < slots then 0 else acquired - slots;
    forall j: nat | j < taken || j < low ensures IsFinished(st', j) { assert IsFinished(st, j); }
    forall j: nat | j < |st'| ensures Launched(st', wd, slots, j) { assert Launched(st, wd, slots, j); }
  }

  lemma DoneSlots(h: Host, t: Tags, k: nat, spe: nat, msg: Msg)
    requires h.desk.Shape() && SlotsFine(h, t) && Ordered(h, t) && k < |t.st| && Underway(t.st[k]) && !t.round
    requires spe < h.desk.Spes() && k < |h.input| && msg == Answered(h.desk.Slots(), h.input, k) && h.queue != []
    requires t.q != [] && t.q[0] == TDone(spe, k)
    ensures h.desk.inState[msg.addr] == h.desk.outState[msg.addr] == Running
    ensures SlotsFine(Taking(h, Collected(h.desk, spe, msg)), DoneTags(t))
    ensures Ordered(Taking(h, Collected(h.desk, spe, msg)), DoneTags(t))
  {
    var d, slots := h.desk, h.desk.Slots();
    InReach(slots, |h.input|, t.st, t.wd, Announced(h), |h.out|, Taken(h, t.round), h.i, Acquired(h), k);
    DoneOrder(slots, |h.input|, t.st, t.wd, Announced(h), |h.out|, Taken(h, t.round), h.i, Acquired(h), k);
    ShownStates(slots, t.st, t.round, t.wd, d.inState, d.outState, k, Finished);
    DoneSems(slots, t.st, Acquired(h), d.inSem, Taken(h, t.round), d.outSem, k);
    DoneBufs(slots, h.input, t.st, StoredUpTo(h), d.inBuf, |h.out|, d.outBuf, t.wd, k);
  }

  /** The entry is the only one of its element, so the others still stand for their stages. */
  lemma DoneMessages(h: Host, t: Tags, d: Desk)
    requires MessagesFine(h, t) && t.q != [] && t.q[0].TDone?
    requires d.Slots() == h.desk.Slots() && d.inbox == h.desk.inbox && t.q[0].spe < |h.desk.mboxq|
    requires d.mboxq == h.desk.mboxq[t.q[0].spe := h.desk.mboxq[t.q[0].spe] - 1]
    ensures h.queue != [] && t.q[0].k < |t.st| && t.st[t.q[0].k] == Reported(t.q[0].spe)
    ensures MessagesFine(Taking(h, d), DoneTags(t))
  {
    var slots := h.desk.Slots();
    PoppedQueue(slots, h.input, t.st, t.w.rest, t.q, h.queue);
    var k, s0, q', st' := t.q[0].k, t.q[0].spe, t.q[1..], t.st[t.q[0].k := Finished];
    forall p: nat | p < |q'| ensures EntryAt(slots, h.input, st', t.w.rest, q', h.queue[1..], p) {
      assert EntryAt(slots, h.input, t.st, t.w.rest, q', h.queue[1..], p) && PairAt(t.q, 0, p + 1);
    }
    forall s: nat | s < |t.w.ids| ensures HeldFine(st', t.w, s) && LoadFine(h.depth, d.mboxq, t.w, t.hd, q', s) {
      assert HeldFine(t.st, t.w, s) && LoadFine(h.depth, h.desk.mboxq, t.w, t.hd, t.q, s);
      MovedHeld(t.st, t.w, k, Finished, s);
    }
    PoppedAcks(t.w.rest, t.hd, t.q);
  }

  lemma PoppedFlow(n: nat, q: seq<Tag>, rd: nat, i: nat, wd: nat, announced: int, reader: ReaderPc, eof: bool)
    requires FlowOk(q, rd, i, wd, announced) && EofOk(n, q, rd, i, reader, eof) && q != []
    requires q[0].TDone? || q[0].TIdle?
    ensures FlowOk(q[1..], rd, i, wd, announced) && EofOk(n, q[1..], rd, i, reader, eof)
  {
    assert q == [q[0]] + q[1..];
    assert TEof in q[1..] <==> TEof in q;
  }

  lemma DoneCounts(h: Host, t: Tags, k: nat, spe: nat, msg: Msg)
    requires h.desk.Shape() && CountsFine(h, t) && h.queue != [] && !t.round && spe < h.desk.Spes()
    requires msg.addr < h.desk.Slots()
    requires h.desk.inState[msg.addr] == h.desk.outState[msg.addr] == Running
    requires t.q != [] && t.q[0] == TDone(spe, k) && k < |t.st|
    ensures CountsFine(Taking(h, Collected(h.desk, spe, msg)), DoneTags(t)) && Collected(h.desk, spe, msg).writeq > 0
  {
    var d, a := h.desk, msg.addr;
    StateUpdate(d.inState, a, Empty, Runnable);
    StateUpdate(d.inState, a, Empty, Running);
    StateUpdate(d.outState, a, Flushing, Flushing);
    SumUpdate(d.mboxq, spe, d.mboxq[spe] - 1);
  }

  /** What the first entry of the queue says; and the shutdown has not begun, since not all elements
      are finished. */
  lemma DoneEntry(h: Host, t: Tags)
    requires h.desk.Shape() && MessagesFine(h, t) && Ordered(h, t) && t.q != [] && t.q[0].TDone?
    requires t.round ==> t.wd == |t.st|
    ensures h.queue != [] && t.q[0].k < |t.st| && t.st[t.q[0].k] == Reported(t.q[0].spe) && !t.round
    ensures t.q[0].spe < |t.w.rest| == |h.spe| && t.q[0].k < |h.input|
    ensures h.queue[0] == SpuDone(t.q[0].spe, Answered(h.desk.Slots(), h.input, t.q[0].k))
  {
    assert EntryAt(h.desk.Slots(), h.input, t.st, t.w.rest, t.q, h.queue, 0);
    assert t.q[0].k < t.wd ==> IsFinished(t.st, t.q[0].k);
  }

  lemma DoneProgress(h: Host, t: Tags, d: Desk)
    requires h.queue != [] && t.q != [] && t.q[0].TDone? && t.q[0].k < |t.st| && t.st[t.q[0].k].Reported?
    requires d.eof == h.desk.eof
    ensures Progress(Taking(h, d), DoneTags(t)) == Progress(h, t) + 1
  {
    RankUpdate(t.st, t.q[0].k, Finished);
  }

  lemma DoneControl(h: Host, t: Tags, d: Desk)
    requires h.queue != [] && t.q != [] && t.q[0].TDone? && t.q[0].k < |t.st| && t.st[t.q[0].k].Reported?
    requires FlowOk(t.q, |t.st|, h.i, t.wd, Announced(h)) && EofOk(|h.input|, t.q, |t.st|, h.i, h.reader, h.desk.eof)
    requires d.eof == h.desk.eof
    ensures var g, u := Taking(h, d), DoneTags(t);
      && Progress(g, u) == Progress(h, t) + 1
      && FlowOk(u.q, |u.st|, g.i, u.wd, Announced(g)) && EofOk(|g.input|, u.q, |u.st|, g.i, g.reader, g.desk.eof)
  {
    PoppedFlow(|h.input|, t.q, |t.st|, h.i, t.wd, Announced(h), h.reader, h.desk.eof);
    DoneProgress(h, t, d);
  }

  lemma DoneGroups(h: Host, t: Tags)
    requires Core(h, t) && t.q != [] && t.q[0].TDone?
    ensures h.queue != [] && t.q[0].k < |t.st| && t.q[0].spe < h.desk.Spes() && t.q[0].k < |h.input| && !t.round
    ensures h.queue[0] == SpuDone(t.q[0].spe, Answered(h.desk.Slots(), h.input, t.q[0].k)) && t.st[t.q[0].k].Reported?
    ensures var g := Taking(h, Collected(h.desk, t.q[0].spe, Answered(h.desk.Slots(), h.input, t.q[0].k)));
      && MessagesFine(g, DoneTags(t)) && SlotsFine(g, DoneTags(t)) && Ordered(g, DoneTags(t))
      && CountsFine(g, DoneTags(t))
      && g.desk.writeq > 0
  {
    DoneEntry(h, t);
    var k, spe, msg := t.q[0].k, t.q[0].spe, h.queue[0].msg;
    DoneMessages(h, t, Collected(h.desk, spe, msg));
    DoneSlots(h, t, k, spe, msg);
    DoneCounts(h, t, k, spe, msg);
  }

  lemma DoneSteady(h: Host, t: Tags)
    requires Core(h, t) && t.q != [] && t.q[0].TDone?
    ensures h.queue != [] && h.queue[0].SpuDone? && EventOk(h.desk.Slots(), h.desk.Spes(), h.queue[0]) && !t.round
    ensures var d := Collected(h.desk, h.queue[0].spe, h.queue[0].msg);
      Steady(Taking(h, d), false, Progress(h, t) + 1) && d.writeq > 0
  {
    DoneGroups(h, t);
    var d := Collected(h.desk, h.queue[0].spe, h.queue[0].msg);
    DoneControl(h, t, d);
    SameFixed(h, Taking(h, d));
    Assemble(Taking(h, d), DoneTags(t), Progress(h, t) + 1);
  }

  // ----- the scan after a task is done

  /** The scan starts work on some schedulable slot other than its own, if there is one. */
  lemma {:induction false} ScanOutcome(d: Desk, depth: nat, slot: nat, i: nat) returns (found: Option<nat>)
    requires d.Shape() && slot < d.Slots() && 0 < i
    ensures found.Some? ==> found.value < d.Slots() && d.Schedulable(found.value)
    ensures found.Some? ==> ScanSlots(d, depth, slot, i) == ScheduleTask(d, depth, found.value)
    ensures found.None? ==> ScanSlots(d, depth, slot, i) == d
    ensures found.None? ==> forall k: nat :: i <= k < d.Slots() ==> NotSchedulable(d, slot, k)
    decreases d.Slots() - i
  {
    if i >= d.Slots() {
      found := None;
    } else if d.Schedulable((i + slot) % d.Slots()) {
      found := Some((i + slot) % d.Slots());
    } else {
      found := ScanOutcome(d, depth, slot, i + 1);
      if found.None? {
        forall k: nat | i <= k < d.Slots() ensures NotSchedulable(d, slot, k) {
          if k == i { assert !d.Schedulable((k + slot) % d.Slots()); }
        }
      }
    }
  }

  ghost predicate NotSchedulable(d: Desk, slot: nat, k: nat)
    requires d.Shape()
  {
    !d.Schedulable((k + slot) % d.Slots())
  }

  lemma ScanMissesNone(d: Desk, slot: nat)
    requires d.Shape() && slot < d.Slots() && d.inState[slot] == Empty
    requires forall k: nat :: 1 <= k < d.Slots() ==> NotSchedulable(d, slot, k)
    ensures forall j :: 0 <= j < d.Slots() ==> NoneLeft(d.inState, d.outState, j)
  {
    forall j: nat | j < d.Slots() ensures NoneLeft(d.inState, d.outState, j) {
      if j != slot {
        var k := ScanReaches(slot, j, d.Slots());
        assert NotSchedulable(d, slot, k);
      }
    }
  }

  /** Before a task was done, nothing was left to schedule or all mailboxes were full.  So when the
      scan finds something, one task is enough to fill them again. */
  lemma CollectedBalance(d: Desk, depth: nat, spe: nat, msg: Msg, slot: nat)
    requires Balanced(d, depth) && spe < d.Spes() && msg.addr < d.Slots() && d.workq <= d.Spes() * depth
    requires slot < d.Slots() && Collected(d, spe, msg).Schedulable(slot)
    ensures d.workq == d.Spes() * depth
  {
    assert d.workq < d.Spes() * depth ==> NoneLeft(d.inState, d.outState, slot);
  }

  lemma OnDoneKeeps(h: Host, t: Tags)
    requires Inv(h, t) && h.Shape() && t.q != [] && t.q[0].TDone? && !h.desk.done
    ensures h.queue != [] && Sound(Scheduled(h), Progress(h, t) + 1)
  {
    DoneSteady(h, t);
    WorkAtMost(h, t);
    var spe, msg := h.queue[0].spe, h.queue[0].msg;
    var e := Collected(h.desk, spe, msg);
    var g := Taking(h, e);
    var found := ScanOutcome(e, h.depth, msg.addr, 1);
    if found.Some? {
      CollectedBalance(h.desk, h.depth, spe, msg, found.value);
      var c := TaskSteady(g, found.value, Progress(h, t) + 1);
    } else {
      ScanMissesNone(e, msg.addr);
    }
    var d := OnDone(h.desk, h.depth, spe, msg);
    assert Scheduled(h) == Taking(h, d);
    Conclude(Taking(h, d), false, Progress(h, t) + 1);
  }
}
