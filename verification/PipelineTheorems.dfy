/** What holds of the pipeline under every interleaving of its threads. */
module PipelineTheorems {
  import opened Lists
  import opened Slots
  import opened Pipeline
  import opened PipelineInv
  import opened PipelineThreads
  import opened PipelineSpes
  import opened PipelineScheduler
  import opened PipelineEvents
  import opened PipelineShutdown

  // ----- every run

  lemma ShapeOf(h: Host, t: Tags)
    requires Inv(h, t)
    ensures h.Shape()
  {
    forall p: nat | p < |h.queue| ensures EventAt(h.desk.Slots(), h.desk.Spes(), h.queue, p) {
      assert EntryAt(h.desk.Slots(), h.input, t.st, t.w.rest, t.q, h.queue, p);
    }
  }

  lemma ScheduleKeeps(h: Host, t: Tags)
    requires Inv(h, t) && h.Shape() && h.queue != [] && !h.desk.done
    ensures Sound(Scheduled(h), Progress(h, t) + 1)
  {
    match t.q[0]
    case TRead(_) => OnReadKeeps(h, t);
    case TEof => OnEofKeeps(h, t);
    case TDone(_, _) => OnDoneKeeps(h, t);
    case TIdle(_) => OnIdleKeeps(h, t);
    case TWrote(_) => OnWroteKeeps(h, t);
  }

  lemma TakeStepKeeps(h: Host, t: Tags, i: nat)
    requires Inv(h, t) && h.Shape() && CanTake(h, i)
    ensures Sound(Took(h, i, AfterRead(h.desk.Slots(), h.desk.inbox[i][0])), Progress(h, t) + 1)
  {
    if t.w.rest[i] == Normal { TakeKeeps(h, t, i); } else { TakeToldKeeps(h, t, i); }
  }

  lemma NoticeStepKeeps(h: Host, t: Tags, i: nat)
    requires Inv(h, t) && h.Shape() && CanNotice(h, i)
    ensures Sound(NoticedFrom(h, i), Progress(h, t) + 1)
  {
    if t.w.rest[i] == Normal { NoticeKeeps(h, t, i); } else { NoticeIdleKeeps(h, t, i); }
  }

  lemma AnnounceStepKeeps(h: Host, t: Tags)
    requires Inv(h, t) && h.Shape() && h.hand.Some?
    ensures Sound(EventAnnounced(h), Progress(h, t) + 1)
  {
    if t.hd.value.TDone? { ReportKeeps(h, t); } else { ReportIdleKeeps(h, t); }
  }

  lemma ReaderKeeps(h: Host, t: Tags, s: Step)
    requires Inv(h, t) && h.Shape() && Enabled(h, s)
    requires s.ReadLock? || s.ReadStore? || s.ReadAnnounce? || s.ReadFinish?
    ensures Sound(Next(h, s), Progress(h, t) + 1)
  {
    match s
    case ReadLock => ReadLockKeeps(h, t);
    case ReadStore => ReadStoreKeeps(h, t);
    case ReadAnnounce => ReadAnnounceKeeps(h, t);
    case ReadFinish => ReadFinishKeeps(h, t);
  }

  lemma WriterKeeps(h: Host, t: Tags, s: Step)
    requires Inv(h, t) && h.Shape() && Enabled(h, s) && (s.WriteLock? || s.WriteCopy? || s.WriteAnnounce?)
    ensures Sound(Next(h, s), Progress(h, t) + 1)
  {
    match s
    case WriteLock => WriteLockKeeps(h, t);
    case WriteCopy => WriteCopyKeeps(h, t);
    case WriteAnnounce => WriteAnnounceKeeps(h, t);
  }

  /** The steps of the SPEs and of the event thread that listens to them. */
  lemma SpeStepKeeps(h: Host, t: Tags, s: Step)
    requires Inv(h, t) && h.Shape() && Enabled(h, s)
    requires s.SpeTake? || s.SpeReply? || s.SpeAck? || s.SpeTakeResting? || s.EventTake? || s.EventAnnounce?
    ensures Sound(Next(h, s), Progress(h, t) + 1)
  {
    match s
    case SpeTake(i) => TakeStepKeeps(h, t, i);
    case SpeReply(i) => ReplyKeeps(h, t, i);
    case SpeAck(i) => AckKeeps(h, t, i);
    case SpeTakeResting(i) => TakeRestingKeeps(h, t, i);
    case EventTake(i) => NoticeStepKeeps(h, t, i);
    case EventAnnounce => AnnounceStepKeeps(h, t);
  }

  /** Every step of every thread keeps the invariant and counts as one. */
  lemma StepKeeps(h: Host, s: Step, n: int)
    requires Sound(h, n)
    ensures h.Shape() && (Enabled(h, s) ==> Sound(Next(h, s), n + 1))
  {
    var t :| Inv(h, t) && Progress(h, t) == n;
    ShapeOf(h, t);
    if Enabled(h, s) {
      match s
      case ReadLock | ReadStore | ReadAnnounce | ReadFinish => ReaderKeeps(h, t, s);
      case Schedule => ScheduleKeeps(h, t);
      case WriteLock | WriteCopy | WriteAnnounce => WriterKeeps(h, t, s);
      case _ => SpeStepKeeps(h, t, s);
    }
  }

  predicate Starting(p: Params, input: seq<bv16>, inBuf: seq<bv16>, outBuf: seq<bv16>) {
    p.Ok() && Terminated(input) && |inBuf| == |outBuf| == p.slots
  }

  function StartTags(p: Params): Tags {
    var held := Held(seq(p.spes, i => []), seq(p.spes, i => None), seq(p.spes, i => None), seq(p.spes, i => Normal));
    Tags([], 0, [], held, None, false)
  }

  lemma {:induction false} SumZero(s: seq<int>)
    requires forall i :: 0 <= i < |s| ==> s[i] == 0
    ensures Sum(s) == 0
  {
    if s != [] { SumZero(s[..|s| - 1]); }
  }

  lemma StartSlots(p: Params, input: seq<bv16>, inBuf: seq<bv16>, outBuf: seq<bv16>)
    requires Starting(p, input, inBuf, outBuf)
    ensures var h, t := Start(p, input, inBuf, outBuf), StartTags(p);
      && SlotsFine(h, t) && Ordered(h, t) && MessagesFine(h, t)
  {
    var h, t := Start(p, input, inBuf, outBuf), StartTags(p);
    var slots := p.slots;
    forall k: nat | k < slots
      ensures InStateOk(slots, t.st, h.desk.inState, k) && OutStateOk(slots, t.st, t.round, h.desk.outState, k)
      ensures InSemOk(slots, t.st, h.desk.inSem, k) && OutSemOk(slots, t.st, t.round, h.desk.outSem, k) {}
    forall s: nat | s < p.spes
      ensures SpeFine(slots, h.input, h.spe, h.desk.inbox, h.outbox, t.w, s) && HeldFine(t.st, t.w, s)
      ensures LoadFine(h.depth, h.desk.mboxq, t.w, t.hd, t.q, s) {}
  }

  lemma StartSound(p: Params, input: seq<bv16>, inBuf: seq<bv16>, outBuf: seq<bv16>)
    requires Starting(p, input, inBuf, outBuf)
    ensures Sound(Start(p, input, inBuf, outBuf), 0)
  {
    var h, t := Start(p, input, inBuf, outBuf), StartTags(p);
    StartSlots(p, input, inBuf, outBuf);
    StateAbsent(h.desk.inState, Runnable);
    StateAbsent(h.desk.inState, Running);
    StateAbsent(h.desk.outState, Flushing);
    SumZero(h.desk.mboxq);
    AllRest(t.w.rest, Normal);
    assert Prefix([], 0);
    forall j: nat | j < p.slots ensures NoneLeft(h.desk.inState, h.desk.outState, j) {}
    var fits := Inv(h, t);
  }

  /** The state after a sequence of steps, if each is enabled in its turn. */
  function After(h: Host, steps: seq<Step>): Option<Host> {
    if steps == [] then Some(h) else
    var r := After(h, steps[..|steps| - 1]);
    var s := steps[|steps| - 1];
    if r.Some? && r.value.Shape() && Enabled(r.value, s) then Some(Next(r.value, s)) else None
  }

  predicate SameSetup(h: Host, g: Host) {
    g.input == h.input && g.depth == h.depth && g.desk.Slots() == h.desk.Slots() && g.desk.Spes() == h.desk.Spes()
  }

  lemma NextSetup(h: Host, s: Step)
    requires h.Shape() && Enabled(h, s)
    ensures SameSetup(h, Next(h, s))
  {
  }

  predicate QueueFits(h: Host) {
    |h.queue| <= h.space
  }

  lemma NextFits(h: Host, s: Step)
    requires h.Shape() && Enabled(h, s) && QueueFits(h)
    ensures QueueFits(Next(h, s)) && Next(h, s).space == h.space
  {
  }

  /** No thread pushes an event that the queue has no room for. */
  lemma {:induction false} RunFits(h0: Host, steps: seq<Step>, h: Host)
    requires QueueFits(h0) && After(h0, steps) == Some(h)
    ensures QueueFits(h) && h.space == h0.space
  {
    if steps != [] {
      var g := After(h0, steps[..|steps| - 1]).value;
      RunFits(h0, steps[..|steps| - 1], g);
      NextFits(g, steps[|steps| - 1]);
    }
  }

  lemma {:induction false} RunSound(h0: Host, steps: seq<Step>, h: Host)
    requires Sound(h0, 0) && After(h0, steps) == Some(h)
    ensures Sound(h, |steps|) && SameSetup(h0, h)
  {
    if steps != [] {
      var g := After(h0, steps[..|steps| - 1]).value;
      RunSound(h0, steps[..|steps| - 1], g);
      StepKeeps(g, steps[|steps| - 1], |steps| - 1);
      NextSetup(g, steps[|steps| - 1]);
    }
  }

  // ----- order, and what is not overwritten

  function Transform(input: seq<bv16>): (r: seq<bv16>)
    ensures |r| == |input|
  {
    seq(|input|, k requires 0 <= k < |input| => Swapped(input[k]))
  }

  ghost predicate CaseChangedAt(input: seq<bv16>, out: seq<bv16>, k: nat)
    requires k < |out| <= |input|
  {
    CaseChanged(input[k], out[k])
  }

  /** out is the beginning of input, in order and with the case of each letter changed. */
  ghost predicate CaseChangedIn(input: seq<bv16>, out: seq<bv16>) {
    |out| <= |input| && forall k: nat :: k < |out| ==> CaseChangedAt(input, out, k)
  }

  lemma TransformIs(input: seq<bv16>, out: seq<bv16>)
    requires out <= Transform(input)
    ensures CaseChangedIn(input, out)
  {
    forall k: nat | k < |out| ensures CaseChangedAt(input, out, k) {
      assert out[k] == Transform(input)[k];
      SwappedIs(input[k]);
    }
  }

  /** The output is the beginning of the input, in order, with the case of each letter changed. */
  lemma OutputInOrder(h: Host, n: int)
    requires Sound(h, n)
    ensures h.out <= Transform(h.input) && CaseChangedIn(h.input, h.out)
  {
    OutputPrefix(h, n);
    TransformIs(h.input, h.out);
  }

  lemma OutputPrefix(h: Host, n: int)
    requires Sound(h, n)
    ensures h.out <= Transform(h.input)
  {
    var t :| Inv(h, t) && Progress(h, t) == n;
    forall k: nat | k < |h.out| ensures h.out[k] == Transform(h.input)[k] {
      assert OutAt(h.input, h.out, k);
    }
  }

  lemma PrefixEnd(st: seq<Stage>, n: nat, k: nat)
    requires Prefix(st, n) && !IsFinished(st, k)
    ensures n <= k
  {
  }

  /** The slot that the reader has acquired is empty. */
  lemma AcquiredSlot(slots: nat, st: seq<Stage>, inState: seq<SlotState>, i: nat)
    requires InStatesOk(slots, st, inState) && |st| <= i
    requires Prefix(st, if i + 1 < slots then 0 else i + 1 - slots)
    ensures inState[SlotOf(i, slots)] == Empty
  {
    var k := SlotIn(|st|, SlotOf(i, slots), slots);
    assert InStateOk(slots, st, inState, k);
    if k > i {
      if k < i + slots { SlotsDiffer(i, k, slots); }
    }
    assert k >= slots && k <= i ==> IsFinished(st, k - slots);
  }

  /** An element that was announced but not yet handled has another slot than the one being filled. */
  lemma OtherSlot(slots: nat, st: seq<Stage>, i: nat, k: nat)
    requires slots > 0 && |st| <= k < i && Prefix(st, if i + 1 < slots then 0 else i + 1 - slots)
    ensures SlotOf(k, slots) != SlotOf(i, slots)
  {
    PrefixEnd(st, if i + 1 < slots then 0 else i + 1 - slots, k);
    SlotsDiffer(k, i, slots);
  }

  /** When the reader stores an element, the slot is empty and no event about it is on its way. */
  lemma ReaderOverwritesNothing(h: Host, n: int)
    requires Sound(h, n) && h.reader == ReaderStore
    ensures h.Shape() && h.desk.inState[h.readHead] == Empty && ReadSlot(h.readHead) !in h.queue
  {
    var t :| Inv(h, t) && Progress(h, t) == n;
    ShapeOf(h, t);
    var slots := h.desk.Slots();
    AcquiredSlot(slots, t.st, h.desk.inState, h.i);
    forall p: nat | p < |h.queue| ensures h.queue[p] != ReadSlot(h.readHead) {
      assert EntryAt(slots, h.input, t.st, t.w.rest, t.q, h.queue, p);
      if t.q[p].TRead? {
        ReadInRange(t.q, p, |t.st|, h.i);
        OtherSlot(slots, t.st, h.i, t.q[p].k);
      }
    }
  }

  lemma {:induction false} RangeMember(lo: nat, hi: nat, k: nat)
    requires lo <= hi && k in Range(lo, hi)
    ensures lo <= k < hi
    decreases hi - lo
  {
    if lo < hi && k != lo { RangeMember(lo + 1, hi, k); }
  }

  lemma {:induction false} ReadsMember(q: seq<Tag>, p: nat)
    requires p < |q| && q[p].TRead?
    ensures q[p].k in Reads(q)
  {
    if p > 0 { ReadsMember(q[1..], p - 1); }
  }

  lemma ReadInRange(q: seq<Tag>, p: nat, rd: nat, i: nat)
    requires p < |q| && q[p].TRead? && rd <= i && Reads(q) == Range(rd, i)
    ensures rd <= q[p].k < i
  {
    ReadsMember(q, p);
    RangeMember(rd, i, q[p].k);
  }

  /** When a result comes back, its output slot is reserved for it, so nothing unwritten is lost. */
  lemma ResultOverwritesNothing(h: Host, n: int)
    requires Sound(h, n) && h.queue != [] && h.queue[0].SpuDone?
    ensures h.Shape() && h.queue[0].msg.addr < h.desk.Slots()
    ensures h.desk.inState[h.queue[0].msg.addr] == h.desk.outState[h.queue[0].msg.addr] == Running
  {
    var t :| Inv(h, t) && Progress(h, t) == n;
    ShapeOf(h, t);
    assert EntryAt(h.desk.Slots(), h.input, t.st, t.w.rest, t.q, h.queue, 0);
    DoneEntry(h, t);
    DoneSlots(h, t, t.q[0].k, t.q[0].spe, h.queue[0].msg);
  }

  // ----- counters and mailboxes

  /** readq, workq and writeq count slots; workq is the sum of mboxq; no mailbox is asked to hold more
      than its depth, so a blocking write never blocks; and a slot is only left waiting for an SPE
      while all mailboxes are full. */
  lemma WorkIsConserved(h: Host, n: int)
    requires Sound(h, n)
    ensures h.Shape() && h.desk.readq == CountState(h.desk.inState, Runnable)
    ensures h.desk.workq == CountState(h.desk.inState, Running) == Sum(h.desk.mboxq)
    ensures h.desk.writeq == CountState(h.desk.outState, Flushing)
    ensures forall s :: 0 <= s < |h.desk.inbox| ==> |h.desk.inbox[s]| <= h.depth && 0 <= h.desk.mboxq[s] <= h.depth
    ensures (exists j :: 0 <= j < h.desk.Slots() && h.desk.Schedulable(j)) ==> h.desk.workq == h.desk.Spes() * h.depth
  {
    var t :| Inv(h, t) && Progress(h, t) == n;
    ShapeOf(h, t);
    forall s | 0 <= s < |h.desk.inbox|
      ensures |h.desk.inbox[s]| <= h.depth && 0 <= h.desk.mboxq[s] <= h.depth
    {
      assert SpeFine(h.desk.Slots(), h.input, h.spe, h.desk.inbox, h.outbox, t.w, s);
      assert LoadFine(h.depth, h.desk.mboxq, t.w, t.hd, t.q, s);
    }
    WorkAtMost(h, t);
    if exists j :: 0 <= j < h.desk.Slots() && h.desk.Schedulable(j) {
      var j: nat :| j < h.desk.Slots() && h.desk.Schedulable(j);
      assert h.desk.workq < h.desk.Spes() * h.depth ==> NoneLeft(h.desk.inState, h.desk.outState, j);
    }
  }

  // ----- shutdown

  /** How many rounds of idle messages the scheduler has sent. */
  function RoundsSent(d: Desk): nat
    requires d.Shape()
  {
    if d.done then 2 else if d.outState[0] == Eof then 1 else 0
  }

  /** How many idle messages an SPE has read. */
  function IdlesRead(pc: SpePc): nat {
    match pc
    case Fetch => 0
    case Work(_) => 0
    case Ack(_) => 1
    case Resting => 1
    case Quit => 2
  }

  function IdlesWaiting(slots: nat, inbox: seq<Msg>): nat {
    if inbox == [] then 0 else IdlesWaiting(slots, inbox[1..]) + if inbox[0].addr >= slots then 1 else 0
  }

  lemma {:induction false} RequestsAreNotIdle(slots: nat, input: seq<bv16>, ids: seq<nat>, inbox: seq<Msg>)
    requires slots > 0 && Requests(slots, input, ids, inbox)
    ensures IdlesWaiting(slots, inbox) == 0
  {
    if inbox != [] {
      TailRequests(slots, input, ids, inbox);
      RequestsAreNotIdle(slots, input, ids[1..], inbox[1..]);
    }
  }

  lemma RoundShown(h: Host, t: Tags)
    requires Core(h, t)
    ensures t.round <==> h.desk.outState[0] == Eof
  {
    var k := SlotIn(t.wd, 0, h.desk.Slots());
    assert OutStateOk(h.desk.Slots(), t.st, t.round, h.desk.outState, k);
  }

  function RoundsHeard(r: Rest): nat {
    if r == Normal then 0 else if Closed(r) then 2 else 1
  }

  lemma SpeIdles(slots: nat, input: seq<bv16>, pc: SpePc, inbox: seq<Msg>, outbox: Option<Msg>, ids: seq<nat>,
                 wk: Option<nat>, ob: Option<nat>, r: Rest)
    requires SpeOk(slots, input, pc, inbox, outbox, ids, wk, ob, r)
    ensures IdlesRead(pc) + IdlesWaiting(slots, inbox) == RoundsHeard(r)
  {
    if r == Normal {
      RequestsAreNotIdle(slots, input, ids, inbox);
    } else if inbox != [] {
      assert inbox[1..] == [];
    }
  }

  /** Each SPE has read, or has waiting, exactly one idle message for each round. */
  lemma IdleMessages(h: Host, n: int, s: nat)
    requires Sound(h, n) && s < |h.spe|
    ensures h.Shape() && IdlesRead(h.spe[s]) + IdlesWaiting(h.desk.Slots(), h.desk.inbox[s]) == RoundsSent(h.desk)
  {
    var t :| Inv(h, t) && Progress(h, t) == n;
    ShapeOf(h, t);
    RoundShown(h, t);
    var slots := h.desk.Slots();
    assert SpeFine(slots, h.input, h.spe, h.desk.inbox, h.outbox, t.w, s) && RestOk(t.round, h.desk.done, t.w.rest[s]);
    SpeIdles(slots, h.input, h.spe[s], h.desk.inbox[s], h.outbox[s], t.w.ids[s], t.w.wk[s], t.w.ob[s], t.w.rest[s]);
  }

  /** The first round starts when everything has been written, and not before; the scheduler never
      exits early; once the acknowledgements are in, no SPE is running. */
  lemma ShutdownInOrder(h: Host, n: int)
    requires Sound(h, n)
    ensures h.Shape() && !h.desk.dead
    ensures RoundsSent(h.desk) > 0 <==> h.desk.eof && h.desk.Idle()
    ensures RoundsSent(h.desk) > 0 ==> h.out == Transform(h.input) && h.reader == ReaderDone
    ensures RoundsSent(h.desk) > 0 && h.desk.ackq == 0 ==> h.running == 0 && h.desk.done
    ensures RoundsSent(h.desk) == 0 ==> h.desk.ackq == 0 && h.running == h.desk.Spes() && h.writer != WriterDone
  {
    var t :| Inv(h, t) && Progress(h, t) == n;
    ShapeOf(h, t);
    RoundShown(h, t);
    OutputPrefix(h, n);
    RestsShown(h, t);
  }

  /** Acknowledgements and running SPEs, as the tags have them. */
  lemma RestsShown(h: Host, t: Tags)
    requires RestsOk(t.w.rest, t.round, h.desk.done, h.desk.ackq, h.running)
    ensures t.round && h.desk.done ==> h.running == 0
    ensures !t.round ==> h.desk.ackq == 0 && h.running == |t.w.rest|
  {
    var rest := t.w.rest;
    if t.round && h.desk.done {
      forall s | 0 <= s < |rest| ensures !Active(rest[s]) { assert RestOk(true, true, rest[s]); }
      NoneActive(rest);
    }
    if !t.round {
      forall s | 0 <= s < |rest| ensures rest[s] == Normal { assert RestOk(false, h.desk.done, rest[s]); }
      AllRest(rest, Normal);
    }
  }

  lemma {:induction false} NoneActive(rest: seq<Rest>)
    requires forall s :: 0 <= s < |rest| ==> !Active(rest[s])
    ensures CountActive(rest) == 0
  {
    if rest != [] { NoneActive(rest[..|rest| - 1]); }
  }

  lemma {:induction false} SomeActive(rest: seq<Rest>, s: nat)
    requires s < |rest| && Active(rest[s])
    ensures CountActive(rest) > 0
  {
    if s < |rest| - 1 { SomeActive(rest[..|rest| - 1], s); }
  }

  lemma {:induction false} SomeAwaited(rest: seq<Rest>) returns (s: nat)
    requires CountAwaited(rest) > 0
    ensures s < |rest| && Awaited(rest[s])
  {
    if Awaited(rest[|rest| - 1]) { s := |rest| - 1; } else { s := SomeAwaited(rest[..|rest| - 1]); }
  }

  // ----- some thread can always go on

  ghost predicate Stuck(h: Host) {
    h.Shape() && forall s: Step :: !Enabled(h, s)
  }

  /** With an empty queue, nobody is kept from announcing something. */
  lemma StuckThreads(h: Host, t: Tags)
    requires Inv(h, t) && Stuck(h) && h.queue == []
    ensures h.reader == ReaderWait || h.reader == ReaderDone
    ensures (h.writer == WriterWait || h.writer == WriterDone) && h.hand.None?
    ensures t.q == [] && t.wd == |h.out| && |t.st| == h.i
  {
    assert !Enabled(h, ReadStore) && !Enabled(h, ReadAnnounce) && !Enabled(h, ReadFinish);
    assert !Enabled(h, WriteCopy) && !Enabled(h, WriteAnnounce) && !Enabled(h, EventAnnounce);
  }

  /** No SPE has anything to do. */
  lemma StuckSpe(h: Host, t: Tags, s: nat)
    requires Inv(h, t) && Stuck(h) && h.hand.None? && s < |h.spe|
    ensures t.w.ids[s] == [] && t.w.wk[s].None? && t.w.ob[s].None?
    ensures t.w.rest[s] == Normal || t.w.rest[s] == AckNoticed || t.w.rest[s] == AckReported || t.w.rest[s] == Quiet
      || t.w.rest[s] == Gone
  {
    assert !Enabled(h, SpeTake(s)) && !Enabled(h, SpeReply(s)) && !Enabled(h, SpeAck(s));
    assert !Enabled(h, SpeTakeResting(s)) && !Enabled(h, EventTake(s));
    assert SpeFine(h.desk.Slots(), h.input, h.spe, h.desk.inbox, h.outbox, t.w, s);
    if Active(t.w.rest[s]) { SomeActive(t.w.rest, s); }
  }

  lemma StuckWork(h: Host, t: Tags)
    requires Inv(h, t) && Stuck(h) && h.queue == [] && h.hand.None?
    ensures h.desk.workq == 0
  {
    forall s | 0 <= s < |h.desk.mboxq| ensures h.desk.mboxq[s] == 0 {
      StuckSpe(h, t, s);
      assert LoadFine(h.depth, h.desk.mboxq, t.w, t.hd, t.q, s);
    }
    SumZero(h.desk.mboxq);
  }

  /** While elements are outstanding, the next one to be written is finished or some SPE has work. */
  lemma NextElementMoves(h: Host, t: Tags)
    requires Inv(h, t) && h.Shape() && !t.round && t.wd < |t.st| && h.writer == WriterWait && t.wd == |h.out|
    ensures CanWriteLock(h) || h.desk.workq > 0
  {
    var d, slots, k := h.desk, h.desk.Slots(), t.wd;
    assert OutSemOk(slots, t.st, t.round, d.outSem, k);
    if t.st[k] != Finished {
      NotRecycled(slots, t.st, Acquired(h), k);
      ShownStates(slots, t.st, t.round, t.wd, d.inState, d.outState, k, t.st[k]);
      if t.st[k] == Ready {
        assert d.workq < d.Spes() * h.depth ==> NoneLeft(d.inState, d.outState, SlotOf(k, slots));
        TimesPositive(d.Spes(), h.depth);
      } else {
        StateCounted(d.inState, SlotOf(k, slots), Running);
      }
    }
  }

  lemma NotRecycled(slots: nat, st: seq<Stage>, acquired: nat, k: nat)
    requires Prefix(st, if acquired < slots then 0 else acquired - slots) && k < |st| && st[k] != Finished
    ensures acquired <= k + slots
  {
    assert !IsFinished(st, k);
    PrefixEnd(st, if acquired < slots then 0 else acquired - slots, k);
  }

  lemma TimesPositive(a: nat, b: nat)
    requires a > 0 && b > 0
    ensures a * b > 0
  {
  }

  lemma StuckElement(h: Host, t: Tags)
    requires Inv(h, t) && Stuck(h) && h.queue == [] && !t.round
    ensures t.wd == |t.st|
  {
    StuckThreads(h, t);
    StuckWork(h, t);
    assert !Enabled(h, WriteLock);
    if t.wd < |t.st| {
      NextElementMoves(h, t);
    }
  }

  /** When everything read has been written, the reader can go on. */
  lemma ReaderMoves(h: Host, t: Tags)
    requires Inv(h, t) && h.Shape() && h.reader == ReaderWait && t.wd == |t.st| == h.i
    ensures CanReadLock(h)
  {
    var slots := h.desk.Slots();
    assert InSemOk(slots, t.st, h.desk.inSem, h.i);
    assert h.i >= slots ==> IsFinished(t.st, h.i - slots);
  }

  /** When everything read has been written, nothing is counted as in the pipeline. */
  lemma WrittenMeansIdle(h: Host, t: Tags)
    requires Core(h, t) && t.wd == |t.st|
    ensures h.desk.readq == 0 && h.desk.writeq == 0
  {
    var d, slots := h.desk, h.desk.Slots();
    forall j: nat | j < slots ensures d.inState[j] == Empty && d.outState[j] != Flushing {
      var k := SlotIn(t.wd, j, slots);
      assert InStateOk(slots, t.st, d.inState, k) && OutStateOk(slots, t.st, t.round, d.outState, k);
      assert k >= slots ==> IsFinished(t.st, k - slots);
    }
    StateAbsent(d.inState, Runnable);
    StateAbsent(d.outState, Flushing);
  }

  lemma StuckBeforeRound(h: Host, t: Tags)
    requires Inv(h, t) && Stuck(h) && h.queue == []
    ensures t.round
  {
    StuckThreads(h, t);
    StuckWork(h, t);
    assert !Enabled(h, ReadLock);
    if !t.round {
      StuckElement(h, t);
      WrittenMeansIdle(h, t);
      if h.reader == ReaderWait { ReaderMoves(h, t); }
    }
  }

  lemma StuckBeforeEnd(h: Host, t: Tags)
    requires Inv(h, t) && Stuck(h)
    ensures h.desk.done
  {
    assert !Enabled(h, Schedule);
    if !h.desk.done {
      StuckThreads(h, t);
      StuckBeforeRound(h, t);
      var s := SomeAwaited(t.w.rest);
      assert AckAt(t.w.rest, t.hd, t.q, s);
      StuckSpe(h, t, s);
    }
  }

  /** The shutdown releases the writer. */
  lemma WriterMoves(h: Host, t: Tags)
    requires Inv(h, t) && h.Shape() && t.round && h.writer == WriterWait
    ensures CanWriteLock(h)
  {
    assert OutSemOk(h.desk.Slots(), t.st, t.round, h.desk.outSem, |h.out|);
  }

  lemma StuckWriter(h: Host, t: Tags)
    requires Inv(h, t) && Stuck(h) && h.desk.done
    ensures h.writer == WriterDone
  {
    assert !Enabled(h, WriteLock) && !Enabled(h, WriteCopy);
    if h.writer == WriterWait { WriterMoves(h, t); }
  }

  lemma StuckHand(h: Host, t: Tags)
    requires Inv(h, t) && h.desk.done
    ensures h.hand.None?
  {
    if t.hd.Some? {
      if t.hd.value.TDone? { FinishedAtEnd(h, t, t.hd.value.k); } else { ClosedAtEnd(h, t, t.hd.value.spe); }
    }
  }

  lemma FinishedAtEnd(h: Host, t: Tags, k: nat)
    requires Core(h, t) && t.round && k < |t.st|
    ensures t.st[k] == Finished
  {
    assert IsFinished(t.st, k);
  }

  lemma ClosedAtEnd(h: Host, t: Tags, s: nat)
    requires Core(h, t) && h.desk.done && s < |t.w.rest|
    ensures Closed(t.w.rest[s])
  {
    assert RestOk(t.round, h.desk.done, t.w.rest[s]);
  }

  /** No deadlock: when no thread can take a step, all of them have returned. */
  lemma DeadlockFree(h: Host, n: int)
    requires Sound(h, n) && Stuck(h)
    ensures AllDone(h)
  {
    var t :| Inv(h, t) && Progress(h, t) == n;
    StuckBeforeEnd(h, t);
    StuckWriter(h, t);
    StuckHand(h, t);
    forall s: nat | s < |h.spe| ensures h.spe[s] == Quit && !Active(t.w.rest[s]) {
      StuckSpe(h, t, s);
      assert RestOk(t.round, h.desk.done, t.w.rest[s]);
      assert SpeFine(h.desk.Slots(), h.input, h.spe, h.desk.inbox, h.outbox, t.w, s);
    }
    NoneActive(t.w.rest);
  }

  // ----- the length of a run

  function FullLength(h: Host): nat
    requires h.desk.Shape()
  {
    13 * |h.input| + 6 * h.desk.Spes() + 4
  }

  lemma {:induction false} RankBounds(st: seq<Stage>)
    ensures RankSum(st) <= 6 * |st|
    ensures (forall k :: 0 <= k < |st| ==> st[k] == Finished) ==> RankSum(st) == 6 * |st|
  {
    if st != [] { RankBounds(st[..|st| - 1]); }
  }

  lemma {:induction false} RestBounds(rest: seq<Rest>)
    ensures RestSum(rest) <= 6 * |rest|
    ensures (forall s :: 0 <= s < |rest| ==> rest[s] == Gone) ==> RestSum(rest) == 6 * |rest|
  {
    if rest != [] { RestBounds(rest[..|rest| - 1]); }
  }

  /** No run is longer than a complete one, and all complete runs are equally long. */
  lemma RunLength(h: Host, n: int)
    requires Sound(h, n)
    ensures h.Shape() && n <= FullLength(h) && (AllDone(h) ==> n == FullLength(h))
  {
    var t :| Inv(h, t) && Progress(h, t) == n;
    ShapeOf(h, t);
    RankBounds(t.st);
    RestBounds(t.w.rest);
    if AllDone(h) {
      forall k | 0 <= k < |t.st| ensures t.st[k] == Finished { assert IsFinished(t.st, k); }
      forall s | 0 <= s < |t.w.rest| ensures t.w.rest[s] == Gone {
        assert SpeFine(h.desk.Slots(), h.input, h.spe, h.desk.inbox, h.outbox, t.w, s);
      }
    }
  }

  // ----- the main results about runs

  /** Whatever the interleaving, the output so far is the beginning of the input with the case of its letters
      changed, the event queue is no longer than its room, and the run no longer than 13 steps for each element,
      6 for each SPE, and 4. */
  lemma EveryRun(p: Params, input: seq<bv16>, inBuf: seq<bv16>, outBuf: seq<bv16>, steps: seq<Step>, h: Host)
    requires Starting(p, input, inBuf, outBuf) && After(Start(p, input, inBuf, outBuf), steps) == Some(h)
    ensures h.out <= Transform(input) && |steps| <= 13 * |input| + 6 * p.spes + 4 && !h.desk.dead
    ensures CaseChangedIn(input, h.out) && |h.queue| <= p.space
  {
    StartSound(p, input, inBuf, outBuf);
    RunFits(Start(p, input, inBuf, outBuf), steps, h);
    RunSound(Start(p, input, inBuf, outBuf), steps, h);
    OutputInOrder(h, |steps|);
    RunLength(h, |steps|);
    ShutdownInOrder(h, |steps|);
  }

  lemma CompleteRun(p: Params, input: seq<bv16>, inBuf: seq<bv16>, outBuf: seq<bv16>, steps: seq<Step>, h: Host)
    requires Starting(p, input, inBuf, outBuf) && After(Start(p, input, inBuf, outBuf), steps) == Some(h) && Stuck(h)
    ensures AllDone(h) && h.out == Transform(input) && |steps| == 13 * |input| + 6 * p.spes + 4
  {
    StartSound(p, input, inBuf, outBuf);
    RunSound(Start(p, input, inBuf, outBuf), steps, h);
    DeadlockFree(h, |steps|);
    RunLength(h, |steps|);
    ShutdownInOrder(h, |steps|);
  }

  /** A run that cannot go on has written everything, and all threads have returned. */
  lemma EveryCompleteRun(p: Params, input: seq<bv16>, inBuf: seq<bv16>, outBuf: seq<bv16>, steps: seq<Step>, h: Host)
    requires Starting(p, input, inBuf, outBuf) && After(Start(p, input, inBuf, outBuf), steps) == Some(h) && Stuck(h)
    ensures AllDone(h) && h.out == Transform(input) && |steps| == 13 * |input| + 6 * p.spes + 4
    ensures |h.out| == |input| && CaseChangedIn(input, h.out)
  {
    CompleteRun(p, input, inBuf, outBuf, steps, h);
    TransformIs(input, h.out);
  }
}
