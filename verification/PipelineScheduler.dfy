/** The invariant of the pipeline is kept by the scheduler. */
module PipelineScheduler {
  import opened Lists
  import opened Slots
  import opened Pipeline
  import opened PipelineInv
  import opened PipelineThreads
  import opened PipelineSpes

  // ----- counting

  lemma {:induction false} StateUpdate(s: seq<SlotState>, j: nat, x: SlotState, y: SlotState)
    requires j < |s|
    ensures CountState(s[j := x], y) == CountState(s, y) + (if x == y then 1 else 0) - (if s[j] == y then 1 else 0)
  {
    var t := s[j := x];
    if j < |s| - 1 {
      assert t[..|t| - 1] == s[..|s| - 1][j := x];
      StateUpdate(s[..|s| - 1], j, x, y);
    } else {
      assert t[..|t| - 1] == s[..|s| - 1];
    }
  }

  lemma {:induction false} StateCounted(s: seq<SlotState>, j: nat, x: SlotState)
    requires j < |s| && s[j] == x
    ensures CountState(s, x) > 0
  {
    if j < |s| - 1 { StateCounted(s[..|s| - 1], j, x); }
  }

  lemma {:induction false} StateAbsent(s: seq<SlotState>, x: SlotState)
    requires forall j :: 0 <= j < |s| ==> s[j] != x
    ensures CountState(s, x) == 0
  {
    if s != [] { StateAbsent(s[..|s| - 1], x); }
  }

  lemma {:induction false} SumUpdate(s: seq<int>, j: nat, x: int)
    requires j < |s|
    ensures Sum(s[j := x]) == Sum(s) + x - s[j]
  {
    var t := s[j := x];
    if j < |s| - 1 {
      assert t[..|t| - 1] == s[..|s| - 1][j := x];
      SumUpdate(s[..|s| - 1], j, x);
    } else {
      assert t[..|t| - 1] == s[..|s| - 1];
    }
  }

  ghost predicate AtLeast(s: seq<int>, low: int, j: nat)
    requires j < |s|
  {
    s[j] >= low
  }

  lemma {:induction false} SumAtLeast(s: seq<int>, low: int)
    requires forall j :: 0 <= j < |s| ==> AtLeast(s, low, j)
    ensures Sum(s) >= |s| * low
  {
    if s != [] {
      var n := |s| - 1;
      forall j: nat | j < n ensures AtLeast(s[..n], low, j) { assert AtLeast(s, low, j); }
      SumAtLeast(s[..n], low);
      assert AtLeast(s, low, n);
      assert |s| * low == n * low + low;
    }
  }

  lemma {:induction false} SumBounds(s: seq<int>, j: nat)
    requires j < |s| && forall i :: 0 <= i < |s| ==> AtLeast(s, 0, i)
    ensures 0 <= s[j] <= Sum(s)
  {
    var n := |s| - 1;
    assert AtLeast(s, 0, j) && AtLeast(s, 0, n);
    forall i: nat | i < n ensures AtLeast(s[..n], 0, i) { assert AtLeast(s, 0, i); }
    SumAtLeast(s[..n], 0);
    if j < n { SumBounds(s[..n], j); }
  }

  ghost predicate AtMost(s: seq<int>, high: int, j: nat)
    requires j < |s|
  {
    s[j] <= high
  }

  lemma {:induction false} SumAtMost(s: seq<int>, high: int)
    requires forall j :: 0 <= j < |s| ==> AtMost(s, high, j)
    ensures Sum(s) <= |s| * high
  {
    if s != [] {
      var n := |s| - 1;
      forall j: nat | j < n ensures AtMost(s[..n], high, j) { assert AtMost(s, high, j); }
      SumAtMost(s[..n], high);
      assert AtMost(s, high, n);
      assert |s| * high == n * high + high;
    }
  }

  /** No mailbox is ever asked to hold more than its depth. */
  lemma WorkAtMost(h: Host, t: Tags)
    requires Core(h, t)
    ensures h.desk.workq <= h.desk.Spes() * h.depth
  {
    forall s: nat | s < h.desk.Spes() ensures AtMost(h.desk.mboxq, h.depth, s) {
      assert LoadFine(h.depth, h.desk.mboxq, t.w, t.hd, t.q, s);
    }
    SumAtMost(h.desk.mboxq, h.depth);
  }

  // ----- the scan for an SPE finds one when one has room

  lemma {:induction false} FindSpeSkips(mboxq: seq<int>, next: nat, depth: nat, i: nat, k: nat)
    requires mboxq != [] && i <= k < |mboxq| && FindSpe(mboxq, next, depth, i).None?
    ensures mboxq[(next + k) % |mboxq|] >= depth
    decreases k - i
  {
    if i < k { FindSpeSkips(mboxq, next, depth, i + 1, k); }
  }

  lemma FindSpeFinds(mboxq: seq<int>, next: nat, depth: nat)
    requires next < |mboxq| && Sum(mboxq) < |mboxq| * depth
    ensures FindSpe(mboxq, next, depth, 0).Some?
  {
    if FindSpe(mboxq, next, depth, 0).None? {
      forall j: nat | j < |mboxq| ensures AtLeast(mboxq, depth, j) {
        var i := ScanReaches(next, j, |mboxq|);
        FindSpeSkips(mboxq, next, depth, 0, i);
      }
      SumAtLeast(mboxq, depth);
    }
  }

  // ----- starting work on a slot

  /** Some record of tags fits, but perhaps work could be scheduled. */
  ghost predicate Steady(h: Host, round: bool, n: int) {
    exists t :: Core(h, t) && t.round == round && Progress(h, t) == n
  }

  /** The scheduler does not touch the positions of the reader and the writer. */
  ghost predicate SamePositions(h: Host, g: Host) {
    && g.desk.Shape() && g.desk.Slots() == h.desk.Slots() && g.desk.Spes() == h.desk.Spes() && !g.desk.dead
    && g.desk.nextSpe < g.desk.Spes() && |g.spe| == |h.spe| && |g.outbox| == |h.outbox| && g.depth == h.depth
    && g.space == h.space
    && g.input == h.input && g.i == h.i && g.out == h.out && g.reader == h.reader && g.writer == h.writer
    && g.readHead == h.readHead && g.writeHead == h.writeHead
  }

  lemma SameFixed(h: Host, g: Host)
    requires Fixed(h) && SamePositions(h, g)
    ensures Fixed(g)
  {
  }

  /** All parts of the invariant. */
  ghost predicate Parts(h: Host, t: Tags, n: int) {
    && Fixed(h) && Ordered(h, t) && Progress(h, t) == n
    && FlowOk(t.q, |t.st|, h.i, t.wd, Announced(h)) && EofOk(|h.input|, t.q, |t.st|, h.i, h.reader, h.desk.eof)
    && SlotsFine(h, t) && MessagesFine(h, t) && CountsFine(h, t)
  }

  lemma Assemble(h: Host, t: Tags, n: int)
    requires Parts(h, t, n)
    ensures Steady(h, t.round, n)
  {
    var fits := Core(h, t);
  }

  /** The element in a schedulable slot, and that its output slot is free for it. */
  lemma ReadyElement(slots: nat, n: nat, st: seq<Stage>, wd: nat, announced: int, out: nat, taken: nat, i: nat,
                     acquired: nat,
                     round: bool, inState: seq<SlotState>, outState: seq<SlotState>, slot: nat) returns (k: nat)
    requires OrderOk(slots, n, st, wd, announced, out, taken, i, acquired)
    requires InStatesOk(slots, st, inState) && OutStatesOk(slots, st, round, wd, outState)
    requires slot < slots && inState[slot] == Runnable && outState[slot] == Empty
    ensures !round && k < |st| <= k + slots && st[k] == Ready && SlotOf(k, slots) == slot && taken <= k < wd + slots
  {
    var k1 := SlotIn(|st|, slot, slots);
    assert InStateOk(slots, st, inState, k1);
    k := k1 - slots;
    assert SlotOf(k, slots) == slot;
    var k2 := SlotIn(wd, slot, slots);
    assert OutStateOk(slots, st, round, outState, k2);
    assert k < taken ==> IsFinished(st, k);
    if k2 < k < k2 + slots { SlotsDiffer(k2, k, slots); }
    assert wd + slots <= k ==> IsFinished(st, k2);
  }

  function StartedTags(t: Tags, k: nat, c: nat): Tags
    requires k < |t.st| && c < |t.w.ids|
  {
    t.(st := t.st[k := Sent(c)], w := t.w.(ids := t.w.ids[c := t.w.ids[c] + [k]]))
  }

  lemma StartedOrder(slots: nat, n: nat, st: seq<Stage>, wd: nat, announced: int, out: nat, taken: nat, i: nat,
                     acquired: nat, k: nat, g: Stage)
    requires OrderOk(slots, n, st, wd, announced, out, taken, i, acquired)
    requires k < |st| && st[k] != Finished && k < wd + slots
    ensures OrderOk(slots, n, st[k := g], wd, announced, out, taken, i, acquired)
  {
    var st' := st[k := g];
    var low := if acquired < slots then 0 else acquired - slots;
    forall j: nat | j < taken || j < low ensures IsFinished(st', j) { assert IsFinished(st, j); }
    forall j: nat | j < |st'| ensures Launched(st', wd, slots, j) { assert Launched(st, wd, slots, j); }
  }

  /** One element moves on, and the slots it uses show it. */
  lemma ShownStates(slots: nat, st: seq<Stage>, round: bool, wd: nat, inState: seq<SlotState>, outState: seq<SlotState>,
                    k: nat, g: Stage)
    requires InStatesOk(slots, st, inState) && OutStatesOk(slots, st, round, wd, outState) && !round
    requires k < |st| <= k + slots && wd <= k < wd + slots
    ensures inState[SlotOf(k, slots)] == InOf(st[k]) && outState[SlotOf(k, slots)] == OutOf(st[k])
    ensures InStatesOk(slots, st[k := g], inState[SlotOf(k, slots) := InOf(g)])
    ensures OutStatesOk(slots, st[k := g], round, wd, outState[SlotOf(k, slots) := OutOf(g)])
  {
    var st', a := st[k := g], SlotOf(k, slots);
    var inState', outState' := inState[a := InOf(g)], outState[a := OutOf(g)];
    assert SlotOf(k + slots, slots) == a;
    assert InStateOk(slots, st, inState, k + slots) && OutStateOk(slots, st, round, outState, k);
    forall j: nat | |st'| <= j < |st'| + slots ensures InStateOk(slots, st', inState', j) {
      assert InStateOk(slots, st, inState, j);
      if j < k + slots { SlotsDiffer(j, k + slots, slots); } else if j > k + slots { SlotsDiffer(k + slots, j, slots); }
    }
    forall j: nat | wd <= j < wd + slots ensures OutStateOk(slots, st', round, outState', j) {
      assert OutStateOk(slots, st, round, outState, j);
      if j < k { SlotsDiffer(j, k, slots); } else if j > k { SlotsDiffer(k, j, slots); }
    }
  }

  lemma StartedSems(slots: nat, st: seq<Stage>, acquired: nat, inSem: seq<nat>, round: bool, taken: nat,
                    outSem: seq<nat>, k: nat, g: Stage)
    requires InSemsOk(slots, st, acquired, inSem) && k < |st| && st[k] != Finished && g != Finished
    ensures InSemsOk(slots, st[k := g], acquired, inSem)
    ensures OutSemsOk(slots, st, round, taken, outSem) ==> OutSemsOk(slots, st[k := g], round, taken, outSem)
  {
    var st' := st[k := g];
    forall j: nat | acquired <= j < acquired + slots ensures InSemOk(slots, st', inSem, j) {
      assert InSemOk(slots, st, inSem, j);
    }
    if OutSemsOk(slots, st, round, taken, outSem) {
      forall j: nat | taken <= j < taken + slots ensures OutSemOk(slots, st', round, outSem, j) {
        assert OutSemOk(slots, st, round, outSem, j);
      }
    }
  }

  lemma StartedBufs(slots: nat, input: seq<bv16>, st: seq<Stage>, stored: nat, inBuf: seq<bv16>, from: nat,
                    outBuf: seq<bv16>, k: nat, c: nat)
    requires InBufsOk(slots, input, st, stored, inBuf) && OutBufsOk(slots, input, st, from, outBuf)
    requires k < |st| <= stored && st[k] == Ready
    ensures k < |input| && Msg(SlotOf(k, slots), inBuf[SlotOf(k, slots)]) == Asked(slots, input, k)
    ensures InBufsOk(slots, input, st[k := Sent(c)], stored, inBuf)
    ensures OutBufsOk(slots, input, st[k := Sent(c)], from, outBuf)
  {
    var st' := st[k := Sent(c)];
    assert InBufOk(slots, input, st, inBuf, k);
    forall j: nat | j < stored
      ensures InBufOk(slots, input, st', inBuf, j)
    {
      assert InBufOk(slots, input, st, inBuf, j);
    }
    forall j: nat | from <= j < |st'|
      ensures OutBufOk(slots, input, st', outBuf, j)
    {
      assert OutBufOk(slots, input, st, outBuf, j);
    }
  }

  lemma StartedSpe(slots: nat, input: seq<bv16>, ids: seq<nat>, inbox: seq<Msg>, k: nat)
    requires slots > 0 && Requests(slots, input, ids, inbox) && k < |input|
    ensures Requests(slots, input, ids + [k], inbox + [Asked(slots, input, k)])
  {
    var ids', inbox' := ids + [k], inbox + [Asked(slots, input, k)];
    forall a: nat | a < |ids'| ensures RequestAt(slots, input, ids', inbox', a) {
      if a < |ids| { assert RequestAt(slots, input, ids, inbox, a); }
    }
  }

  lemma StartedHeld(st: seq<Stage>, s: nat, ids: seq<nat>, wk: Option<nat>, ob: Option<nat>, k: nat)
    requires HeldOk(st, s, ids, wk, ob) && k < |st| && st[k] == Ready
    ensures HeldOk(st[k := Sent(s)], s, ids + [k], wk, ob)
  {
    var st', ids' := st[k := Sent(s)], ids + [k];
    forall a: nat | a < |ids'| ensures SentAt(st', s, ids', a) {
      if a < |ids| { assert SentAt(st, s, ids, a); }
    }
    forall a: nat, b: nat | a < |ids'| && b < |ids'| ensures Distinct(ids', a, b) {
      if a < |ids| { assert SentAt(st, s, ids, a); }
      if b < |ids| { assert SentAt(st, s, ids, b); }
      if a < |ids| && b < |ids| { assert Distinct(ids, a, b); }
    }
  }

  lemma StartedMessages(h: Host, t: Tags, k: nat, c: nat)
    requires MessagesFine(h, t) && h.desk.Shape() && |h.spe| == |h.outbox| == h.desk.Spes() && c < |h.spe|
    requires h.desk.mboxq[c] < h.depth && t.w.rest[c] == Normal
    requires k < |t.st| && t.st[k] == Ready && k < |h.input|
    requires var slot := SlotOf(k, h.desk.Slots()); Msg(slot, h.desk.inBuf[slot]) == Asked(h.desk.Slots(), h.input, k)
    ensures MessagesFine(Begun(h, SlotOf(k, h.desk.Slots()), c), StartedTags(t, k, c))
  {
    var slots, d := h.desk.Slots(), h.desk;
    var g, u := Begun(h, SlotOf(k, slots), c), StartedTags(t, k, c);
    forall s: nat | s < |g.spe|
      ensures SpeFine(slots, g.input, g.spe, g.desk.inbox, g.outbox, u.w, s) && HeldFine(u.st, u.w, s)
      ensures LoadFine(h.depth, g.desk.mboxq, u.w, u.hd, u.q, s)
    {
      assert SpeFine(slots, h.input, h.spe, d.inbox, h.outbox, t.w, s) && HeldFine(t.st, t.w, s);
      assert LoadFine(h.depth, d.mboxq, t.w, t.hd, t.q, s);
      if s == c {
        StartedSpe(slots, h.input, t.w.ids[c], d.inbox[c], k);
        StartedHeld(t.st, c, t.w.ids[c], t.w.wk[c], t.w.ob[c], k);
      } else {
        MovedHeld(t.st, t.w, k, Sent(c), s);
      }
    }
    MovedQueue(slots, h.input, t.st, t.w.rest, t.q, h.queue, k, Sent(c));
  }

  lemma StartedCounters(d: Desk, slot: nat, c: nat)
    requires d.Shape() && slot < d.Slots() && c < d.Spes() && d.Schedulable(slot)
    requires CountersOk(d.inState, d.outState, d.mboxq, d.readq, d.workq, d.writeq)
    ensures var e := Started(d, slot, c); CountersOk(e.inState, e.outState, e.mboxq, e.readq, e.workq, e.writeq)
  {
    StateUpdate(d.inState, slot, Running, Runnable);
    StateUpdate(d.inState, slot, Running, Running);
    StateUpdate(d.outState, slot, Running, Flushing);
    SumUpdate(d.mboxq, c, d.mboxq[c] + 1);
  }

  function Begun(h: Host, slot: nat, c: nat): Host
    requires h.desk.Shape() && slot < h.desk.Slots() && c < h.desk.Spes()
  {
    h.(desk := Started(h.desk, slot, c))
  }

  ghost predicate Ordered(h: Host, t: Tags) {
    OrderOk(h.desk.Slots(), |h.input|, t.st, t.wd, Announced(h), |h.out|, Taken(h, t.round), h.i, Acquired(h))
  }

  lemma StartedSlots(h: Host, t: Tags, slot: nat, c: nat) returns (k: nat)
    requires h.desk.Shape() && SlotsFine(h, t) && Ordered(h, t) && slot < h.desk.Slots() && h.desk.Schedulable(slot)
    requires c < h.desk.Spes() == |t.w.ids|
    ensures k < |t.st| && t.st[k] == Ready && k < |h.input| && SlotOf(k, h.desk.Slots()) == slot
    ensures SlotsFine(Begun(h, slot, c), StartedTags(t, k, c)) && Ordered(Begun(h, slot, c), StartedTags(t, k, c))
    ensures Msg(slot, h.desk.inBuf[slot]) == Asked(h.desk.Slots(), h.input, k)
  {
    var d, slots := h.desk, h.desk.Slots();
    k := ReadyElement(slots, |h.input|, t.st, t.wd, Announced(h), |h.out|, Taken(h, t.round), h.i, Acquired(h), t.round,
                      d.inState, d.outState, slot);
    StartedOrder(slots, |h.input|, t.st, t.wd, Announced(h), |h.out|, Taken(h, t.round), h.i, Acquired(h), k, Sent(c));
    ShownStates(slots, t.st, t.round, t.wd, d.inState, d.outState, k, Sent(c));
    StartedSems(slots, t.st, Acquired(h), d.inSem, t.round, Taken(h, t.round), d.outSem, k, Sent(c));
    StartedBufs(slots, h.input, t.st, StoredUpTo(h), d.inBuf, |h.out|, d.outBuf, k, c);
  }

  lemma StartedCounts(h: Host, t: Tags, slot: nat, k: nat, c: nat)
    requires h.desk.Shape() && CountsFine(h, t) && slot < h.desk.Slots() && h.desk.Schedulable(slot) && !t.round
    requires c < h.desk.Spes() == |t.w.ids| && k < |t.st|
    ensures CountsFine(Begun(h, slot, c), StartedTags(t, k, c))
  {
    StartedCounters(h.desk, slot, c);
  }

  lemma StartedProgress(h: Host, t: Tags, slot: nat, k: nat, c: nat)
    requires h.desk.Shape() && slot < h.desk.Slots() && c < h.desk.Spes() == |t.w.ids| && k < |t.st| && t.st[k] == Ready
    ensures Progress(Begun(h, slot, c), StartedTags(t, k, c)) == Progress(h, t)
  {
    RankUpdate(t.st, k, Sent(c));
  }

  lemma StartSteady(h: Host, slot: nat, c: nat, n: int)
    requires Steady(h, false, n) && h.desk.Shape() && slot < h.desk.Slots() && c < h.desk.Spes()
    requires h.desk.Schedulable(slot) && h.desk.mboxq[c] < h.depth
    ensures Steady(Begun(h, slot, c), false, n)
  {
    var t :| Core(h, t) && t.round == false && Progress(h, t) == n;
    var k := StartedSlots(h, t, slot, c);
    assert RestOk(t.round, h.desk.done, t.w.rest[c]);
    StartedMessages(h, t, k, c);
    StartedCounts(h, t, slot, k, c);
    StartedProgress(h, t, slot, k, c);
    var fits := Core(Begun(h, slot, c), StartedTags(t, k, c));
  }

  // ----- the first entry of the queue

  /** The state after the scheduler took an event and worked on its records as far as d. */
  function Taking(h: Host, d: Desk): Host
    requires h.queue != []
  {
    h.(queue := h.queue[1..], desk := d)
  }

  lemma PoppedQueue(slots: nat, input: seq<bv16>, st: seq<Stage>, rest: seq<Rest>, q: seq<Tag>, queue: seq<Event>)
    requires QueueOk(slots, input, st, rest, q, queue) && q != []
    ensures EntryOk(slots, input, st, rest, q[0], queue[0])
    ensures QueueOk(slots, input, st, rest, q[1..], queue[1..])
  {
    var q', queue' := q[1..], queue[1..];
    assert EntryAt(slots, input, st, rest, q, queue, 0);
    forall p: nat | p < |q'| ensures EntryAt(slots, input, st, rest, q', queue', p) {
      assert EntryAt(slots, input, st, rest, q, queue, p + 1);
    }
    forall p: nat, r: nat | p < |q'| && r < |q'| ensures PairAt(q', p, r) {
      assert PairAt(q, p + 1, r + 1);
    }
  }

  /** More stages at the end, or a different stage for an element that no message stands for. */
  lemma RestagedMessages(slots: nat, input: seq<bv16>, st: seq<Stage>, st': seq<Stage>, rest: seq<Rest>, q: seq<Tag>,
                         queue: seq<Event>,
                         hd: Option<Tag>, hand: Option<Event>, w: Held)
    requires QueueOk(slots, input, st, rest, q, queue) && HandOk(slots, input, st, rest, hd, hand) && HeldsFine(st, w)
    requires |st| <= |st'| && forall k :: 0 <= k < |st| ==> SameStage(st, st', k)
    ensures QueueOk(slots, input, st', rest, q, queue) && HandOk(slots, input, st', rest, hd, hand) && HeldsFine(st', w)
  {
    forall p: nat | p < |q| ensures EntryAt(slots, input, st', rest, q, queue, p) {
      assert EntryAt(slots, input, st, rest, q, queue, p);
      if q[p].TDone? { assert SameStage(st, st', q[p].k); }
    }
    if hd.Some? && hd.value.TDone? { assert SameStage(st, st', hd.value.k); }
    forall s: nat | s < |w.ids| ensures HeldFine(st', w, s) {
      assert HeldFine(st, w, s);
      var ids := w.ids[s];
      forall a: nat | a < |ids| ensures SentAt(st', s, ids, a) {
        assert SentAt(st, s, ids, a) && SameStage(st, st', ids[a]);
      }
      if w.wk[s].Some? { assert SameStage(st, st', w.wk[s].value); }
      if w.ob[s].Some? { assert SameStage(st, st', w.ob[s].value); }
    }
  }

  ghost predicate SameStage(st: seq<Stage>, st': seq<Stage>, k: nat)
    requires k < |st| <= |st'|
  {
    st'[k] == st[k]
  }

  // ----- READ_SLOT

  function HeardTags(t: Tags): Tags
    requires t.q != []
  {
    t.(st := t.st + [Ready], q := t.q[1..])
  }

  lemma HeardOrder(slots: nat, n: nat, st: seq<Stage>, wd: nat, announced: int, out: nat, taken: nat, i: nat,
                   acquired: nat)
    requires OrderOk(slots, n, st, wd, announced, out, taken, i, acquired) && |st| < i
    ensures OrderOk(slots, n, st + [Ready], wd, announced, out, taken, i, acquired)
    ensures |st| >= slots ==> IsFinished(st, |st| - slots)
  {
    var st' := st + [Ready];
    var low := if acquired < slots then 0 else acquired - slots;
    forall j: nat | j < taken || j < low ensures IsFinished(st', j) { assert IsFinished(st, j); }
    forall j: nat | j < |st'| ensures Launched(st', wd, slots, j) {
      if j < |st| { assert Launched(st, wd, slots, j); }
    }
  }

  lemma HeardStates(slots: nat, st: seq<Stage>, round: bool, wd: nat, inState: seq<SlotState>, outState: seq<SlotState>)
    requires InStatesOk(slots, st, inState) && OutStatesOk(slots, st, round, wd, outState)
    requires |st| >= slots ==> IsFinished(st, |st| - slots)
    ensures inState[SlotOf(|st|, slots)] == Empty
    ensures InStatesOk(slots, st + [Ready], inState[SlotOf(|st|, slots) := Runnable])
    ensures OutStatesOk(slots, st + [Ready], round, wd, outState)
  {
    var rd, st' := |st|, st + [Ready];
    var a := SlotOf(rd, slots);
    var inState' := inState[a := Runnable];
    assert InStateOk(slots, st, inState, rd);
    forall j: nat | |st'| <= j < |st'| + slots ensures InStateOk(slots, st', inState', j) {
      if j < rd + slots {
        assert InStateOk(slots, st, inState, j);
        SlotsDiffer(rd, j, slots);
      } else {
        assert j - slots == rd && SlotOf(j, slots) == SlotOf(rd, slots);
      }
    }
    forall j: nat | wd <= j < wd + slots ensures OutStateOk(slots, st', round, outState, j) {
      assert OutStateOk(slots, st, round, outState, j);
    }
  }

  lemma HeardSems(slots: nat, st: seq<Stage>, acquired: nat, inSem: seq<nat>, round: bool, taken: nat, outSem: seq<nat>)
    requires InSemsOk(slots, st, acquired, inSem)
    ensures InSemsOk(slots, st + [Ready], acquired, inSem)
    ensures OutSemsOk(slots, st, round, taken, outSem) ==> OutSemsOk(slots, st + [Ready], round, taken, outSem)
  {
    var st' := st + [Ready];
    forall j: nat | acquired <= j < acquired + slots ensures InSemOk(slots, st', inSem, j) {
      assert InSemOk(slots, st, inSem, j);
    }
    if OutSemsOk(slots, st, round, taken, outSem) {
      forall j: nat | taken <= j < taken + slots ensures OutSemOk(slots, st', round, outSem, j) {
        assert OutSemOk(slots, st, round, outSem, j);
      }
    }
  }

  lemma HeardBufs(slots: nat, input: seq<bv16>, st: seq<Stage>, stored: nat, inBuf: seq<bv16>, from: nat,
                  outBuf: seq<bv16>)
    requires InBufsOk(slots, input, st, stored, inBuf) && OutBufsOk(slots, input, st, from, outBuf) && |st| < stored
    ensures InBufsOk(slots, input, st + [Ready], stored, inBuf) && OutBufsOk(slots, input, st + [Ready], from, outBuf)
  {
    var st' := st + [Ready];
    forall j: nat | j < stored
      ensures InBufOk(slots, input, st', inBuf, j)
    {
      assert InBufOk(slots, input, st, inBuf, j);
    }
    forall j: nat | from <= j < |st'| ensures OutBufOk(slots, input, st', outBuf, j) {
      if j < |st| { assert OutBufOk(slots, input, st, outBuf, j); }
    }
  }

  lemma HeardSlots(h: Host, t: Tags)
    requires h.desk.Shape() && h.queue != [] && t.q != [] && SlotsFine(h, t) && Ordered(h, t) && |t.st| < h.i
    ensures var slot := SlotOf(|t.st|, h.desk.Slots());
      && h.desk.inState[slot] == Empty
      && SlotsFine(Taking(h, Heard(h.desk, slot)), HeardTags(t))
      && Ordered(Taking(h, Heard(h.desk, slot)), HeardTags(t))
  {
    var d, slots := h.desk, h.desk.Slots();
    HeardOrder(slots, |h.input|, t.st, t.wd, Announced(h), |h.out|, Taken(h, t.round), h.i, Acquired(h));
    HeardStates(slots, t.st, t.round, t.wd, d.inState, d.outState);
    HeardSems(slots, t.st, Acquired(h), d.inSem, t.round, Taken(h, t.round), d.outSem);
    HeardBufs(slots, h.input, t.st, StoredUpTo(h), d.inBuf, |h.out|, d.outBuf);
  }

  lemma PoppedAcks(rest: seq<Rest>, hd: Option<Tag>, q: seq<Tag>)
    requires AcksFine(rest, hd, q) && q != [] && !q[0].TIdle?
    ensures AcksFine(rest, hd, q[1..])
  {
    assert q == [q[0]] + q[1..];
    forall s: nat | s < |rest| ensures AckAt(rest, hd, q[1..], s) { assert AckAt(rest, hd, q, s); }
  }

  lemma PoppedLoads(depth: nat, mboxq: seq<int>, w: Held, hd: Option<Tag>, q: seq<Tag>)
    requires LoadsFine(depth, mboxq, w, hd, q) && q != [] && !q[0].TDone?
    ensures LoadsFine(depth, mboxq, w, hd, q[1..])
  {
    forall s: nat | s < |mboxq| ensures LoadFine(depth, mboxq, w, hd, q[1..], s) {
      assert LoadFine(depth, mboxq, w, hd, q, s);
    }
  }

  lemma HeardMessages(h: Host, t: Tags, d: Desk)
    requires MessagesFine(h, t) && t.q != [] && t.q[0].TRead?
    requires d.Slots() == h.desk.Slots() && d.inbox == h.desk.inbox && d.mboxq == h.desk.mboxq
    ensures h.queue != [] && MessagesFine(Taking(h, d), HeardTags(t))
  {
    var slots, st' := h.desk.Slots(), t.st + [Ready];
    PoppedQueue(slots, h.input, t.st, t.w.rest, t.q, h.queue);
    forall k: nat | k < |t.st| ensures SameStage(t.st, st', k) {}
    RestagedMessages(slots, h.input, t.st, st', t.w.rest, t.q[1..], h.queue[1..], t.hd, h.hand, t.w);
    PoppedLoads(h.depth, h.desk.mboxq, t.w, t.hd, t.q);
    PoppedAcks(t.w.rest, t.hd, t.q);
  }

  lemma HeardFlow(n: nat, q: seq<Tag>, rd: nat, i: nat, wd: nat, announced: int, reader: ReaderPc, eof: bool)
    requires FlowOk(q, rd, i, wd, announced) && EofOk(n, q, rd, i, reader, eof) && q != [] && q[0].TRead? && i <= n
    ensures q[0].k == rd < i && !eof
    ensures FlowOk(q[1..], rd + 1, i, wd, announced) && EofOk(n, q[1..], rd + 1, i, reader, eof)
  {
    assert q == [q[0]] + q[1..];
    assert Reads(q)[1..] == Reads(q[1..]);
    assert TEof in q[1..] <==> TEof in q;
  }

  lemma HeardCounts(h: Host, t: Tags)
    requires h.desk.Shape() && h.queue != [] && t.q != [] && CountsFine(h, t) && !h.desk.eof
    requires h.desk.inState[SlotOf(|t.st|, h.desk.Slots())] == Empty
    ensures CountsFine(Taking(h, Heard(h.desk, SlotOf(|t.st|, h.desk.Slots()))), HeardTags(t))
  {
    var slot := SlotOf(|t.st|, h.desk.Slots());
    StateUpdate(h.desk.inState, slot, Runnable, Runnable);
    StateUpdate(h.desk.inState, slot, Runnable, Running);
  }

  lemma HeardProgress(h: Host, t: Tags, d: Desk)
    requires h.queue != [] && t.q != [] && d.eof == h.desk.eof
    ensures Progress(Taking(h, d), HeardTags(t)) == Progress(h, t) + 1
  {
    assert (t.st + [Ready])[..|t.st|] == t.st;
  }

  /** What the first entry of the queue says. */
  lemma HeardEntry(h: Host, t: Tags)
    requires MessagesFine(h, t) && t.q != [] && t.q[0].TRead?
    ensures h.queue != [] && 0 < h.desk.Slots() && h.queue[0] == ReadSlot(SlotOf(t.q[0].k, h.desk.Slots()))
  {
    assert EntryAt(h.desk.Slots(), h.input, t.st, t.w.rest, t.q, h.queue, 0);
  }

  lemma HeardGroups(h: Host, t: Tags)
    requires Core(h, t) && t.q != [] && t.q[0].TRead? && |t.st| < h.i && !h.desk.eof && h.queue != []
    ensures var slot := SlotOf(|t.st|, h.desk.Slots()); var g := Taking(h, Heard(h.desk, slot));
      && h.desk.inState[slot] == Empty && !t.round
      && SlotsFine(g, HeardTags(t)) && Ordered(g, HeardTags(t)) && MessagesFine(g, HeardTags(t))
      && CountsFine(g, HeardTags(t))
  {
    HeardSlots(h, t);
    HeardMessages(h, t, Heard(h.desk, SlotOf(|t.st|, h.desk.Slots())));
    HeardCounts(h, t);
  }

  lemma HeardControl(h: Host, t: Tags, d: Desk)
    requires h.queue != [] && t.q != [] && t.q[0].TRead? && d.eof == h.desk.eof && h.i <= |h.input|
    requires FlowOk(t.q, |t.st|, h.i, t.wd, Announced(h)) && EofOk(|h.input|, t.q, |t.st|, h.i, h.reader, h.desk.eof)
    ensures var g, u := Taking(h, d), HeardTags(t);
      && Progress(g, u) == Progress(h, t) + 1
      && FlowOk(u.q, |u.st|, g.i, u.wd, Announced(g)) && EofOk(|g.input|, u.q, |u.st|, g.i, g.reader, g.desk.eof)
  {
    HeardFlow(|h.input|, t.q, |t.st|, h.i, t.wd, Announced(h), h.reader, h.desk.eof);
    HeardProgress(h, t, d);
  }

  lemma HeardParts(h: Host, t: Tags)
    requires Core(h, t) && t.q != [] && t.q[0].TRead? && |t.st| < h.i && !h.desk.eof && h.queue != []
    ensures var slot := SlotOf(|t.st|, h.desk.Slots());
      h.desk.inState[slot] == Empty && Steady(Taking(h, Heard(h.desk, slot)), false, Progress(h, t) + 1)
  {
    HeardGroups(h, t);
    var g := Taking(h, Heard(h.desk, SlotOf(|t.st|, h.desk.Slots())));
    HeardControl(h, t, g.desk);
    SameFixed(h, g);
    Assemble(g, HeardTags(t), Progress(h, t) + 1);
  }

  lemma HeardSteady(h: Host, t: Tags)
    requires Core(h, t) && t.q != [] && t.q[0].TRead?
    ensures !h.desk.eof && h.queue != [] && h.queue[0].ReadSlot? && h.queue[0].slot < h.desk.Slots()
    ensures h.desk.inState[h.queue[0].slot] == Empty
    ensures Steady(Taking(h, Heard(h.desk, h.queue[0].slot)), false, Progress(h, t) + 1)
  {
    HeardFlow(|h.input|, t.q, |t.st|, h.i, t.wd, Announced(h), h.reader, h.desk.eof);
    HeardEntry(h, t);
    HeardParts(h, t);
  }

  // ----- scheduling restores the balance

  ghost predicate ConservingBut(d: Desk, depth: nat, slot: nat) {
    && d.Shape()
    && (d.workq < d.Spes() * depth ==>
          forall j :: 0 <= j < d.Slots() && j != slot ==> NoneLeft(d.inState, d.outState, j))
  }

  ghost predicate Balanced(d: Desk, depth: nat) {
    d.Shape() && Conserving(d.inState, d.outState, d.workq, d.Spes() * depth)
  }

  lemma StartedBalance(d: Desk, depth: nat, slot: nat, c: nat)
    requires ConservingBut(d, depth, slot) && slot < d.Slots() && c < d.Spes()
    ensures Balanced(Started(d, slot, c), depth)
  {
    var e := Started(d, slot, c);
    if e.workq < e.Spes() * depth {
      forall j: nat | j < e.Slots() ensures NoneLeft(e.inState, e.outState, j) {
        if j != slot { assert NoneLeft(d.inState, d.outState, j); }
      }
    }
  }

  /** schedule_task finds an SPE whenever the counters say that there is room. */
  lemma TaskSteady(h: Host, slot: nat, n: int) returns (c: nat)
    requires Steady(h, false, n) && h.desk.Shape() && slot < h.desk.Slots() && h.desk.Schedulable(slot)
    requires h.desk.workq < h.desk.Spes() * h.depth
    ensures c < h.desk.Spes() && ScheduleTask(h.desk, h.depth, slot) == Started(h.desk, slot, c)
    ensures Steady(Begun(h, slot, c), false, n)
  {
    var t :| Core(h, t) && t.round == false && Progress(h, t) == n;
    assert h.desk.nextSpe < h.desk.Spes() && h.desk.workq == Sum(h.desk.mboxq);
    FindSpeFinds(h.desk.mboxq, h.desk.nextSpe, h.depth);
    c := FindSpe(h.desk.mboxq, h.desk.nextSpe, h.depth, 0).value;
    StartSteady(h, slot, c, n);
  }

  lemma Conclude(h: Host, round: bool, n: int)
    requires Steady(h, round, n) && Balanced(h.desk, h.depth)
    requires Timely(h.desk.eof, h.desk.Idle(), h.desk.done, h.desk.ackq, round)
    ensures Sound(h, n)
  {
    var t :| Core(h, t) && t.round == round && Progress(h, t) == n;
    var fits := Inv(h, t);
  }

  lemma HeardBalance(d: Desk, depth: nat, slot: nat)
    requires Balanced(d, depth) && slot < d.Slots()
    ensures ConservingBut(Heard(d, slot), depth, slot)
    ensures d.outState[slot] != Empty || d.workq >= d.Spes() * depth ==> Balanced(Heard(d, slot), depth)
  {
    var e := Heard(d, slot);
    if d.workq < d.Spes() * depth {
      forall j: nat | j < d.Slots() && (j != slot || d.outState[slot] != Empty)
        ensures NoneLeft(e.inState, e.outState, j)
      {
        if j != slot { assert NoneLeft(d.inState, d.outState, j); }
      }
    }
  }

  lemma OnReadKeeps(h: Host, t: Tags)
    requires Inv(h, t) && h.Shape() && t.q != [] && t.q[0].TRead? && !h.desk.done
    ensures h.queue != [] && Sound(Scheduled(h), Progress(h, t) + 1)
  {
    HeardSteady(h, t);
    var slot := h.queue[0].slot;
    var g := Taking(h, Heard(h.desk, slot));
    HeardBalance(h.desk, h.depth, slot);
    if g.desk.outState[slot] == Empty && g.desk.workq < h.desk.Spes() * h.depth {
      var c := TaskSteady(g, slot, Progress(h, t) + 1);
      StartedBalance(g.desk, h.depth, slot, c);
    }
    var d := OnRead(h.desk, h.depth, slot);
    assert Scheduled(h) == Taking(h, d);
    Conclude(Taking(h, d), false, Progress(h, t) + 1);
  }
}
