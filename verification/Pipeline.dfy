/** The PS3 pipeline of PS3-IDA/05-semaphore: a reader, a scheduler, a set of SPEs, an event thread and
    a writer, as a state machine over the atomic steps of the threads. */
module Pipeline {
  import opened Lists
  import opened Slots

  /** A 32-bit mailbox message: slot number above, value below. */
  datatype Msg = Msg(addr: nat, val: bv16)

  datatype SlotState = Empty | Runnable | Running | Flushing | Eof

  /** Events for the scheduler.  Read and write errors are not part of this model. */
  datatype Event =
    | ReadSlot(slot: nat)
    | ReadEof
    | SpuDone(spe: nat, msg: Msg)
    | SpuIdle(spe: nat)
    | WroteSlot(slot: nat)

  // ----- the SPE program

  predicate IsLetter(c: bv16) {
    (0x61 <= c && c <= 0x7a) || (0x41 <= c && c <= 0x5a)
  }

  /** What an SPE does to a value: change the case of a letter. */
  function Swapped(v: bv16): bv16 {
    if IsLetter(v & 0xff) then v ^ 0x20 else v
  }

  /** y is x, but for the case of the letter that the low byte of x may be. */
  predicate CaseChanged(x: bv16, y: bv16) {
    var low := x & 0xff;
    y == if 0x41 <= low <= 0x5a then x + 0x20 else if 0x61 <= low <= 0x7a then x - 0x20 else x
  }

  /** Letters change their case, everything else and the high byte stay. */
  lemma SwappedIs(v: bv16)
    ensures CaseChanged(v, Swapped(v)) && Swapped(v) & 0xff00 == v & 0xff00
  {
  }

  /** Letter number k of the alphabet. */
  lemma SwappedLetters(k: bv16)
    requires k < 26
    ensures Swapped(0x41 + k) == 0x61 + k && Swapped(0x61 + k) == 0x41 + k
  {
    SwappedIs(0x41 + k);
    SwappedIs(0x61 + k);
  }

  /** Where an SPE is in its loop.  Resting: it has acknowledged an idle message. */
  datatype SpePc = Fetch | Work(msg: Msg) | Ack(msg: Msg) | Resting | Quit

  function AfterRead(slots: nat, msg: Msg): SpePc {
    if msg.addr >= slots then Ack(msg) else Work(msg)
  }

  function AfterRestRead(slots: nat, msg: Msg): SpePc {
    if msg.addr >= slots then Quit else Work(msg)
  }

  // ----- what the scheduler works on

  // done: the scheduler has returned.  dead: it found acknowledgements pending when it was about to
  // start the shutdown, and called exit.

  datatype Desk = Desk(inState: seq<SlotState>, outState: seq<SlotState>, inBuf: seq<bv16>, outBuf: seq<bv16>,
                       inSem: seq<nat>, outSem: seq<nat>, inbox: seq<seq<Msg>>, mboxq: seq<int>, nextSpe: nat,
                       readq: int, workq: int, writeq: int, ackq: int, eof: bool, done: bool, dead: bool)
  {
    predicate Shape() {
      && 0 < |inState| == |outState| == |inBuf| == |outBuf| == |inSem| == |outSem|
      && 0 < |inbox| == |mboxq|
    }

    function Slots(): nat { |inState| }

    function Spes(): nat { |mboxq| }

    predicate Idle() { readq == 0 && workq == 0 && writeq == 0 }

    predicate Schedulable(slot: nat)
      requires Shape() && slot < Slots()
    {
      inState[slot] == Runnable && outState[slot] == Empty
    }
  }

  predicate EventOk(slots: nat, spes: nat, e: Event) {
    match e
    case ReadSlot(slot) => slot < slots
    case ReadEof => true
    case SpuDone(spe, msg) => spe < spes && msg.addr < slots
    case SpuIdle(spe) => spe < spes
    case WroteSlot(slot) => slot < slots
  }

  /** Look for an SPE with room in its mailbox, from place i of the scan on. */
  function FindSpe(mboxq: seq<int>, next: nat, depth: nat, i: nat): (r: Option<nat>)
    requires mboxq != [] && i <= |mboxq|
    ensures r.Some? ==> r.value < |mboxq| && mboxq[r.value] < depth
    decreases |mboxq| - i
  {
    if i == |mboxq| then None else
    var c := (next + i) % |mboxq|;
    if mboxq[c] < depth then Some(c) else FindSpe(mboxq, next, depth, i + 1)
  }

  function Started(d: Desk, slot: nat, c: nat): Desk
    requires d.Shape() && slot < d.Slots() && c < d.Spes()
  {
    d.(mboxq := d.mboxq[c := d.mboxq[c] + 1], workq := d.workq + 1, readq := d.readq - 1,
       inbox := d.inbox[c := d.inbox[c] + [Msg(slot, d.inBuf[slot])]], nextSpe := Wrap(c, d.Spes()),
       inState := d.inState[slot := Running], outState := d.outState[slot := Running])
  }

  function ScheduleTask(d: Desk, depth: nat, slot: nat): (r: Desk)
    requires d.Shape() && slot < d.Slots()
    ensures r.Shape() && r.Slots() == d.Slots() && r.Spes() == d.Spes()
  {
    if d.workq >= d.Spes() * depth || !d.Schedulable(slot) then d
    else match FindSpe(d.mboxq, d.nextSpe, depth, 0)
      case None => d
      case Some(c) => Started(d, slot, c)
  }

  /** Schedule the first schedulable slot after `slot`, from place i of the scan on. */
  function ScanSlots(d: Desk, depth: nat, slot: nat, i: nat): (r: Desk)
    requires d.Shape() && slot < d.Slots() && 0 < i
    ensures r.Shape() && r.Slots() == d.Slots() && r.Spes() == d.Spes()
    decreases d.Slots() - i
  {
    if i >= d.Slots() then d
    else if d.Schedulable((i + slot) % d.Slots()) then ScheduleTask(d, depth, (i + slot) % d.Slots())
    else ScanSlots(d, depth, slot, i + 1)
  }

  function Heard(d: Desk, slot: nat): (r: Desk)
    requires d.Shape() && slot < d.Slots()
    ensures r.Shape() && r.Slots() == d.Slots() && r.Spes() == d.Spes()
  {
    d.(readq := d.readq + 1, inState := d.inState[slot := Runnable])
  }

  function OnRead(d: Desk, depth: nat, slot: nat): (r: Desk)
    requires d.Shape() && slot < d.Slots()
    ensures r.Shape() && r.Slots() == d.Slots() && r.Spes() == d.Spes()
  {
    var d1 := Heard(d, slot);
    if d1.outState[slot] == Empty && d1.workq < d.Spes() * depth then ScheduleTask(d1, depth, slot) else d1
  }

  function Collected(d: Desk, spe: nat, msg: Msg): (r: Desk)
    requires d.Shape() && spe < d.Spes() && msg.addr < d.Slots()
    ensures r.Shape() && r.Slots() == d.Slots() && r.Spes() == d.Spes()
  {
    var a := msg.addr;
    d.(workq := d.workq - 1, writeq := d.writeq + 1, mboxq := d.mboxq[spe := d.mboxq[spe] - 1],
       outBuf := d.outBuf[a := msg.val], inState := d.inState[a := Empty], outState := d.outState[a := Flushing],
       inSem := d.inSem[a := d.inSem[a] + 1], outSem := d.outSem[a := d.outSem[a] + 1])
  }

  function OnDone(d: Desk, depth: nat, spe: nat, msg: Msg): (r: Desk)
    requires d.Shape() && spe < d.Spes() && msg.addr < d.Slots()
    ensures r.Shape() && r.Slots() == d.Slots() && r.Spes() == d.Spes()
  {
    ScanSlots(Collected(d, spe, msg), depth, msg.addr, 1)
  }

  /** An idle message behind everything else in each mailbox. */
  function IdleToAll(inbox: seq<seq<Msg>>, slots: nat): (r: seq<seq<Msg>>)
    ensures |r| == |inbox|
  {
    seq(|inbox|, i requires 0 <= i < |inbox| => inbox[i] + [Msg(slots, 0)])
  }

  function TellAll(d: Desk): (r: Desk)
    requires d.Shape()
    ensures r.Shape() && r.Slots() == d.Slots() && r.Spes() == d.Spes()
  {
    d.(inbox := IdleToAll(d.inbox, d.Slots()))
  }

  function AllEof(slots: nat): (r: seq<SlotState>)
    ensures |r| == slots
  {
    seq(slots, i => Eof)
  }

  function Raised(sems: seq<nat>): (r: seq<nat>)
    ensures |r| == |sems|
  {
    seq(|sems|, i requires 0 <= i < |sems| => sems[i] + 1)
  }

  /** First round of the shutdown. */
  function FirstRound(d: Desk): (r: Desk)
    requires d.Shape()
    ensures r.Shape() && r.Slots() == d.Slots() && r.Spes() == d.Spes()
  {
    TellAll(d.(outState := AllEof(d.Slots()), outSem := Raised(d.outSem), ackq := d.ackq + d.Spes()))
  }

  function MaybeFirstRound(d: Desk): (r: Desk)
    requires d.Shape()
    ensures r.Shape() && r.Slots() == d.Slots() && r.Spes() == d.Spes()
  {
    if d.eof && d.Idle() then (if d.ackq != 0 then d.(dead := true) else FirstRound(d)) else d
  }

  function OnEof(d: Desk): Desk
    requires d.Shape()
  {
    MaybeFirstRound(d.(eof := true))
  }

  function Freed(d: Desk, slot: nat): (r: Desk)
    requires d.Shape() && slot < d.Slots()
    ensures r.Shape() && r.Slots() == d.Slots() && r.Spes() == d.Spes()
  {
    d.(writeq := d.writeq - 1, outState := d.outState[slot := Empty])
  }

  function OnWrote(d: Desk, depth: nat, slot: nat): (r: Desk)
    requires d.Shape() && slot < d.Slots()
    ensures r.Shape() && r.Slots() == d.Slots() && r.Spes() == d.Spes()
  {
    var d1 := Freed(d, slot);
    if d1.inState[slot] == Runnable && d1.workq < d.Spes() * depth then ScheduleTask(d1, depth, slot)
    else MaybeFirstRound(d1)
  }

  function Dispatch(d: Desk, depth: nat, e: Event): (r: Desk)
    requires d.Shape() && EventOk(d.Slots(), d.Spes(), e)
    ensures r.Shape() && r.Slots() == d.Slots() && r.Spes() == d.Spes()
  {
    match e
    case ReadSlot(slot) => OnRead(d, depth, slot)
    case ReadEof => OnEof(d)
    case SpuDone(spe, msg) => OnDone(d, depth, spe, msg)
    case SpuIdle(spe) => d.(ackq := d.ackq - 1)
    case WroteSlot(slot) => OnWrote(d, depth, slot)
  }

  /** The bottom of the scheduler's loop. */
  function Closing(d: Desk, running: int): (r: Desk)
    requires d.Shape()
    ensures r.Shape() && r.Slots() == d.Slots() && r.Spes() == d.Spes()
  {
    if d.eof && d.Idle() && d.ackq == 0 && running == 0 then TellAll(d).(done := true) else d
  }

  function Handle(d: Desk, depth: nat, e: Event, running: int): (r: Desk)
    requires d.Shape() && EventOk(d.Slots(), d.Spes(), e)
    ensures r.Shape() && r.Slots() == d.Slots() && r.Spes() == d.Spes()
  {
    Closing(Dispatch(d, depth, e), running)
  }

  // ----- all threads

  datatype ReaderPc = ReaderWait | ReaderStore | ReaderPush | ReaderEof | ReaderDone

  datatype WriterPc = WriterWait | WriterCopy | WriterPush | WriterDone

  /** depth: mailbox depth; space: size of the event queue; hand: what the event thread is about to
      push; i, readHead: the reader's position; writeHead, out: the writer's. */
  datatype Host = Host(depth: nat, space: nat, input: seq<bv16>, desk: Desk, queue: seq<Event>,
                       spe: seq<SpePc>, outbox: seq<Option<Msg>>, running: int, hand: Option<Event>,
                       reader: ReaderPc, i: nat, readHead: nat, writer: WriterPc, writeHead: nat, out: seq<bv16>)
  {
    predicate Shape() {
      && desk.Shape() && |spe| == |outbox| == desk.Spes()
      && readHead < desk.Slots() && writeHead < desk.Slots() && i <= |input|
      && (reader != ReaderEof && reader != ReaderDone ==> i < |input|)
      && (forall p :: 0 <= p < |queue| ==> EventAt(desk.Slots(), desk.Spes(), queue, p))
      && (hand.Some? ==> EventOk(desk.Slots(), desk.Spes(), hand.value))
    }
  }

  predicate EventAt(slots: nat, spes: nat, queue: seq<Event>, p: nat)
    requires p < |queue|
  {
    EventOk(slots, spes, queue[p])
  }

  /** A C string with its terminator, which the reader sends too. */
  predicate Terminated(input: seq<bv16>) {
    input != [] && input[|input| - 1] == 0 && forall k :: 0 <= k < |input| - 1 ==> NotNul(input, k)
  }

  predicate NotNul(input: seq<bv16>, k: nat)
    requires k < |input|
  {
    input[k] != 0
  }

  datatype Params = Params(slots: nat, spes: nat, depth: nat, space: nat) {
    predicate Ok() { slots > 0 && spes > 0 && depth > 0 && space > 0 }
  }

  /** scheduler_init, and the threads just started; buffers hold anything. */
  function Start(p: Params, input: seq<bv16>, inBuf: seq<bv16>, outBuf: seq<bv16>): Host
    requires p.Ok() && |inBuf| == |outBuf| == p.slots
  {
    Host(p.depth, p.space, input,
         Desk(seq(p.slots, i => Empty), seq(p.slots, i => Empty), inBuf, outBuf,
              seq(p.slots, i => 1), seq(p.slots, i => 0), seq(p.spes, i => []), seq(p.spes, i => 0), 0,
              0, 0, 0, 0, false, false, false),
         [], seq(p.spes, i => Fetch), seq(p.spes, i => None), p.spes, None,
         ReaderWait, 0, 0, WriterWait, 0, [])
  }

  // reader_thread

  predicate CanReadLock(h: Host) requires h.Shape() { h.reader == ReaderWait && h.desk.inSem[h.readHead] > 0 }

  function ReadLocked(h: Host): Host
    requires h.Shape() && CanReadLock(h)
  {
    h.(reader := ReaderStore, desk := h.desk.(inSem := h.desk.inSem[h.readHead := h.desk.inSem[h.readHead] - 1]))
  }

  function ReadStored(h: Host): Host
    requires h.Shape() && h.reader == ReaderStore
  {
    h.(reader := ReaderPush, desk := h.desk.(inBuf := h.desk.inBuf[h.readHead := h.input[h.i]]))
  }

  function ReadAnnounced(h: Host): Host
    requires h.Shape() && h.reader == ReaderPush
  {
    h.(reader := if h.input[h.i] != 0 then ReaderWait else ReaderEof, i := h.i + 1,
       queue := h.queue + [ReadSlot(h.readHead)], readHead := Wrap(h.readHead, h.desk.Slots()))
  }

  function ReadFinished(h: Host): Host {
    h.(reader := ReaderDone, queue := h.queue + [ReadEof])
  }

  // scheduler_thread

  function Scheduled(h: Host): Host
    requires h.Shape() && h.queue != []
  {
    assert EventAt(h.desk.Slots(), h.desk.Spes(), h.queue, 0);
    h.(queue := h.queue[1..], desk := Handle(h.desk, h.depth, h.queue[0], h.running))
  }

  // the SPEs

  predicate CanTake(h: Host, i: nat) requires h.Shape() { i < |h.spe| && h.spe[i] == Fetch && h.desk.inbox[i] != [] }

  function Took(h: Host, i: nat, pc: SpePc): Host
    requires h.Shape() && i < |h.spe| && h.desk.inbox[i] != []
  {
    h.(spe := h.spe[i := pc], desk := h.desk.(inbox := h.desk.inbox[i := h.desk.inbox[i][1..]]))
  }

  predicate CanReply(h: Host, i: nat) requires h.Shape() { i < |h.spe| && h.spe[i].Work? && h.outbox[i].None? }

  function RepliedTo(h: Host, i: nat): Host
    requires h.Shape() && CanReply(h, i)
  {
    var msg := h.spe[i].msg;
    h.(spe := h.spe[i := Fetch], outbox := h.outbox[i := Some(Msg(msg.addr, Swapped(msg.val)))])
  }

  predicate CanAck(h: Host, i: nat) requires h.Shape() { i < |h.spe| && h.spe[i].Ack? && h.outbox[i].None? }

  function AckedTo(h: Host, i: nat): Host
    requires h.Shape() && CanAck(h, i)
  {
    h.(spe := h.spe[i := Resting], outbox := h.outbox[i := Some(h.spe[i].msg)])
  }

  predicate CanTakeResting(h: Host, i: nat)
    requires h.Shape()
  {
    i < |h.spe| && h.spe[i] == Resting && h.desk.inbox[i] != []
  }

  // event_thread

  predicate CanNotice(h: Host, i: nat)
    requires h.Shape()
  {
    i < |h.spe| && h.running != 0 && h.hand.None? && h.outbox[i].Some?
  }

  /** The message in the out-mailbox of an SPE, as an event. */
  function Noted(slots: nat, spe: nat, msg: Msg): Event {
    if msg.addr >= slots then SpuIdle(spe) else SpuDone(spe, msg)
  }

  function NoticedFrom(h: Host, i: nat): Host
    requires h.Shape() && CanNotice(h, i)
  {
    var e := Noted(h.desk.Slots(), i, h.outbox[i].value);
    h.(outbox := h.outbox[i := None], hand := Some(e), running := if e.SpuIdle? then h.running - 1 else h.running)
  }

  function EventAnnounced(h: Host): Host
    requires h.hand.Some?
  {
    h.(hand := None, queue := h.queue + [h.hand.value])
  }

  // writer_thread

  predicate CanWriteLock(h: Host) requires h.Shape() { h.writer == WriterWait && h.desk.outSem[h.writeHead] > 0 }

  function WriteLocked(h: Host): Host
    requires h.Shape() && CanWriteLock(h)
  {
    h.(writer := WriterCopy, desk := h.desk.(outSem := h.desk.outSem[h.writeHead := h.desk.outSem[h.writeHead] - 1]))
  }

  function WriteCopied(h: Host): Host
    requires h.Shape()
  {
    if h.desk.outState[h.writeHead] == Eof then h.(writer := WriterDone)
    else h.(writer := WriterPush, out := h.out + [h.desk.outBuf[h.writeHead]])
  }

  function WriteAnnounced(h: Host): Host
    requires h.Shape()
  {
    h.(writer := WriterWait, queue := h.queue + [WroteSlot(h.writeHead)],
       writeHead := Wrap(h.writeHead, h.desk.Slots()))
  }

  /** The atomic steps.  The scheduler takes an event and handles it in one step. */
  datatype Step =
    | ReadLock | ReadStore | ReadAnnounce | ReadFinish
    | Schedule
    | SpeTake(spe: nat) | SpeReply(spe: nat) | SpeAck(spe: nat) | SpeTakeResting(spe: nat)
    | EventTake(spe: nat) | EventAnnounce
    | WriteLock | WriteCopy | WriteAnnounce

  predicate Enabled(h: Host, s: Step)
    requires h.Shape()
  {
    !h.desk.dead &&
    match s
    case ReadLock => CanReadLock(h)
    case ReadStore => h.reader == ReaderStore
    case ReadAnnounce => h.reader == ReaderPush && |h.queue| < h.space
    case ReadFinish => h.reader == ReaderEof && |h.queue| < h.space
    case Schedule => !h.desk.done && h.queue != []
    case SpeTake(i) => CanTake(h, i)
    case SpeReply(i) => CanReply(h, i)
    case SpeAck(i) => CanAck(h, i)
    case SpeTakeResting(i) => CanTakeResting(h, i)
    case EventTake(i) => CanNotice(h, i)
    case EventAnnounce => h.hand.Some? && |h.queue| < h.space
    case WriteLock => CanWriteLock(h)
    case WriteCopy => h.writer == WriterCopy
    case WriteAnnounce => h.writer == WriterPush && |h.queue| < h.space
  }

  function Next(h: Host, s: Step): Host
    requires h.Shape() && Enabled(h, s)
  {
    match s
    case ReadLock => ReadLocked(h)
    case ReadStore => ReadStored(h)
    case ReadAnnounce => ReadAnnounced(h)
    case ReadFinish => ReadFinished(h)
    case Schedule => Scheduled(h)
    case SpeTake(i) => Took(h, i, AfterRead(h.desk.Slots(), h.desk.inbox[i][0]))
    case SpeReply(i) => RepliedTo(h, i)
    case SpeAck(i) => AckedTo(h, i)
    case SpeTakeResting(i) => Took(h, i, AfterRestRead(h.desk.Slots(), h.desk.inbox[i][0]))
    case EventTake(i) => NoticedFrom(h, i)
    case EventAnnounce => EventAnnounced(h)
    case WriteLock => WriteLocked(h)
    case WriteCopy => WriteCopied(h)
    case WriteAnnounce => WriteAnnounced(h)
  }

  /** All threads have returned. */
  predicate AllDone(h: Host) {
    && h.reader == ReaderDone && h.writer == WriterDone && h.desk.done
    && h.running == 0 && h.hand.None? && forall i :: 0 <= i < |h.spe| ==> h.spe[i] == Quit
  }
}
