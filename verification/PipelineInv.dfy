/** What every reachable state of the pipeline satisfies.

    The invariant speaks about the elements of the input by their numbers.  Where each element is,
    and which element each message and event stands for, is kept in a record of tags beside the
    state; no step depends on it. */
module PipelineInv {
  import opened Lists
  import opened Slots
  import opened Pipeline

  /** Where an element that the scheduler has heard of is: waiting for an SPE; in the in-mailbox of an
      SPE, being worked on, in its out-mailbox; with the event thread; in the event queue; or done,
      so that its result is in the output buffer or already written. */
  datatype Stage =
    | Ready
    | Sent(spe: nat)
    | Busy(spe: nat)
    | Replied(spe: nat)
    | Noticed(spe: nat)
    | Reported(spe: nat)
    | Finished

  function InOf(g: Stage): SlotState {
    if g == Ready then Runnable else if g == Finished then Empty else Running
  }

  function OutOf(g: Stage): SlotState {
    if g == Ready then Empty else if g == Finished then Flushing else Running
  }

  /** How far the shutdown of one SPE has come. */
  datatype Rest = Normal | Told | Acking | Acked | AckNoticed | AckReported | Quiet | ToldAgain | Gone

  predicate Awaited(r: Rest) {
    r == Told || r == Acking || r == Acked || r == AckNoticed || r == AckReported
  }

  predicate Active(r: Rest) {
    r == Normal || r == Told || r == Acking || r == Acked
  }

  predicate Closed(r: Rest) {
    r == ToldAgain || r == Gone
  }

  datatype Tag = TRead(k: nat) | TEof | TDone(spe: nat, k: nat) | TIdle(spe: nat) | TWrote(k: nat)

  /** For each SPE: the elements in its in-mailbox, the one it works on, the one in its out-mailbox,
      and how far its shutdown has come. */
  datatype Held = Held(ids: seq<seq<nat>>, wk: seq<Option<nat>>, ob: seq<Option<nat>>, rest: seq<Rest>)

  /** st: stages of the elements whose READ_SLOT was handled; wd: number of WROTE_SLOT events handled;
      q: the event queue; w: the SPEs; hd: what the event thread holds; round: the first EOF round is
      over. */
  datatype Tags = Tags(st: seq<Stage>, wd: nat, q: seq<Tag>, w: Held, hd: Option<Tag>, round: bool)

  // ----- what tags stand for

  function Asked(slots: nat, input: seq<bv16>, k: nat): Msg
    requires slots > 0 && k < |input|
  {
    Msg(SlotOf(k, slots), input[k])
  }

  function Answered(slots: nat, input: seq<bv16>, k: nat): Msg
    requires slots > 0 && k < |input|
  {
    Msg(SlotOf(k, slots), Swapped(input[k]))
  }

  predicate TagOk(n: nat, spes: nat, g: Tag) {
    match g
    case TRead(k) => k < n
    case TEof => true
    case TDone(s, k) => s < spes && k < n
    case TIdle(s) => s < spes
    case TWrote(k) => k < n
  }

  function Shown(slots: nat, spes: nat, input: seq<bv16>, g: Tag): Event
    requires slots > 0 && TagOk(|input|, spes, g)
  {
    match g
    case TRead(k) => ReadSlot(SlotOf(k, slots))
    case TEof => ReadEof
    case TDone(s, k) => SpuDone(s, Answered(slots, input, k))
    case TIdle(s) => SpuIdle(s)
    case TWrote(k) => WroteSlot(SlotOf(k, slots))
  }

  // ----- counting

  function CountState(s: seq<SlotState>, x: SlotState): nat {
    if s == [] then 0 else CountState(s[..|s| - 1], x) + if s[|s| - 1] == x then 1 else 0
  }

  function Sum(s: seq<int>): int {
    if s == [] then 0 else Sum(s[..|s| - 1]) + s[|s| - 1]
  }

  function CountAwaited(s: seq<Rest>): nat {
    if s == [] then 0 else CountAwaited(s[..|s| - 1]) + if Awaited(s[|s| - 1]) then 1 else 0
  }

  function CountActive(s: seq<Rest>): nat {
    if s == [] then 0 else CountActive(s[..|s| - 1]) + if Active(s[|s| - 1]) then 1 else 0
  }

  function CountDone(q: seq<Tag>, s: nat): nat {
    if q == [] then 0 else CountDone(q[1..], s) + if q[0].TDone? && q[0].spe == s then 1 else 0
  }

  function One(x: Option<nat>): nat {
    if x.Some? then 1 else 0
  }

  function InHandOf(hd: Option<Tag>, s: nat): nat {
    if hd.Some? && hd.value.TDone? && hd.value.spe == s then 1 else 0
  }

  // ----- order of elements

  function Range(lo: nat, hi: nat): seq<nat>
    requires lo <= hi
    decreases hi - lo
  {
    if lo == hi then [] else [lo] + Range(lo + 1, hi)
  }

  function Reads(q: seq<Tag>): seq<nat> {
    if q == [] then [] else (if q[0].TRead? then [q[0].k] else []) + Reads(q[1..])
  }

  function Wrotes(q: seq<Tag>): seq<nat> {
    if q == [] then [] else (if q[0].TWrote? then [q[0].k] else []) + Wrotes(q[1..])
  }

  /** Number of semaphore waits that the reader has got through, and of elements it has stored. */
  function Acquired(h: Host): nat {
    h.i + if h.reader == ReaderStore || h.reader == ReaderPush then 1 else 0
  }

  function StoredUpTo(h: Host): nat {
    h.i + if h.reader == ReaderPush then 1 else 0
  }

  /** Number of results that the writer has got through to, and of those it has announced. */
  function Taken(h: Host, round: bool): nat {
    |h.out| + if h.writer == WriterCopy && !round then 1 else 0
  }

  function Announced(h: Host): int {
    |h.out| - if h.writer == WriterPush then 1 else 0
  }

  ghost predicate IsFinished(st: seq<Stage>, k: nat) {
    k < |st| && st[k] == Finished
  }

  ghost predicate Prefix(st: seq<Stage>, n: nat) {
    forall k: nat :: k < n ==> IsFinished(st, k)
  }

  /** An output slot is not used again before its last result was written. */
  ghost predicate Launched(st: seq<Stage>, wd: nat, slots: nat, k: nat)
    requires k < |st|
  {
    st[k] == Ready || k < wd + slots
  }

  ghost predicate OrderOk(slots: nat, n: nat, st: seq<Stage>, wd: nat, announced: int, out: nat, taken: nat, i: nat,
                          acquired: nat) {
    && wd <= announced <= out <= taken <= |st| <= i <= acquired <= n
    && Prefix(st, taken) && Prefix(st, if acquired < slots then 0 else acquired - slots)
    && (forall k :: 0 <= k < |st| ==> Launched(st, wd, slots, k))
  }

  // ----- slots

  ghost predicate InStateOk(slots: nat, st: seq<Stage>, inState: seq<SlotState>, k: nat)
    requires 0 < slots == |inState|
  {
    k - slots < |st| && inState[SlotOf(k, slots)] == if k < slots then Empty else InOf(st[k - slots])
  }

  ghost predicate InStatesOk(slots: nat, st: seq<Stage>, inState: seq<SlotState>) {
    && 0 < slots == |inState|
    && (forall k :: |st| <= k < |st| + slots ==> InStateOk(slots, st, inState, k))
  }

  ghost predicate OutStateOk(slots: nat, st: seq<Stage>, round: bool, outState: seq<SlotState>, k: nat)
    requires 0 < slots == |outState|
  {
    outState[SlotOf(k, slots)] == if round then Eof else if k < |st| then OutOf(st[k]) else Empty
  }

  ghost predicate OutStatesOk(slots: nat, st: seq<Stage>, round: bool, wd: nat, outState: seq<SlotState>) {
    && 0 < slots == |outState|
    && (forall k :: wd <= k < wd + slots ==> OutStateOk(slots, st, round, outState, k))
  }

  ghost predicate InSemOk(slots: nat, st: seq<Stage>, inSem: seq<nat>, k: nat)
    requires 0 < slots == |inSem|
  {
    inSem[SlotOf(k, slots)] == if k < slots || IsFinished(st, k - slots) then 1 else 0
  }

  ghost predicate InSemsOk(slots: nat, st: seq<Stage>, acquired: nat, inSem: seq<nat>) {
    && 0 < slots == |inSem|
    && (forall k :: acquired <= k < acquired + slots ==> InSemOk(slots, st, inSem, k))
  }

  ghost predicate OutSemOk(slots: nat, st: seq<Stage>, round: bool, outSem: seq<nat>, k: nat)
    requires 0 < slots == |outSem|
  {
    outSem[SlotOf(k, slots)] == (if IsFinished(st, k) then 1 else 0) + (if round then 1 else 0)
  }

  ghost predicate OutSemsOk(slots: nat, st: seq<Stage>, round: bool, taken: nat, outSem: seq<nat>) {
    && 0 < slots == |outSem|
    && (forall k :: taken <= k < taken + slots ==> OutSemOk(slots, st, round, outSem, k))
  }

  // ----- values

  /** The input slot of element k still holds it. */
  ghost predicate InBufOk(slots: nat, input: seq<bv16>, st: seq<Stage>, inBuf: seq<bv16>, k: nat)
    requires 0 < slots == |inBuf| && k < |input|
  {
    k >= |st| || st[k] == Ready ==> inBuf[SlotOf(k, slots)] == input[k]
  }

  ghost predicate InBufsOk(slots: nat, input: seq<bv16>, st: seq<Stage>, stored: nat, inBuf: seq<bv16>) {
    && 0 < slots == |inBuf| && stored <= |input|
    && (forall k :: 0 <= k < stored ==> InBufOk(slots, input, st, inBuf, k))
  }

  /** The output slot of element k holds its result. */
  ghost predicate OutBufOk(slots: nat, input: seq<bv16>, st: seq<Stage>, outBuf: seq<bv16>, k: nat)
    requires 0 < slots == |outBuf| && k < |input|
  {
    IsFinished(st, k) ==> outBuf[SlotOf(k, slots)] == Swapped(input[k])
  }

  ghost predicate OutBufsOk(slots: nat, input: seq<bv16>, st: seq<Stage>, from: nat, outBuf: seq<bv16>) {
    && 0 < slots == |outBuf| && |st| <= |input|
    && (forall k :: from <= k < |st| ==> OutBufOk(slots, input, st, outBuf, k))
  }

  ghost predicate OutAt(input: seq<bv16>, out: seq<bv16>, k: nat)
    requires k < |out| <= |input|
  {
    out[k] == Swapped(input[k])
  }

  ghost predicate OutOk(input: seq<bv16>, out: seq<bv16>) {
    |out| <= |input| && forall k :: 0 <= k < |out| ==> OutAt(input, out, k)
  }

  // ----- the event queue

  /** Entry p of the queue. */
  ghost predicate EntryAt(slots: nat, input: seq<bv16>, st: seq<Stage>, rest: seq<Rest>, q: seq<Tag>, queue: seq<Event>,
                          p: nat)
    requires 0 < slots && p < |q| == |queue|
  {
    EntryOk(slots, input, st, rest, q[p], queue[p])
  }

  ghost predicate EntryOk(slots: nat, input: seq<bv16>, st: seq<Stage>, rest: seq<Rest>, g: Tag, e: Event)
    requires 0 < slots
  {
    && TagOk(|input|, |rest|, g) && e == Shown(slots, |rest|, input, g)
    && (g.TDone? ==> g.k < |st| && st[g.k] == Reported(g.spe))
    && (g.TIdle? ==> rest[g.spe] == AckReported)
  }

  /** Entry p is before entry r. */
  ghost predicate PairAt(q: seq<Tag>, p: nat, r: nat)
    requires p < |q| && r < |q|
  {
    p < r ==> PairOk(q[p], q[r])
  }

  ghost predicate PairOk(a: Tag, b: Tag) {
    && (a.TDone? && b.TDone? ==> a.k != b.k)
    && (a.TIdle? && b.TIdle? ==> a.spe != b.spe)
    && (a.TEof? ==> !b.TEof? && !b.TRead?)
  }

  ghost predicate QueueOk(slots: nat, input: seq<bv16>, st: seq<Stage>, rest: seq<Rest>, q: seq<Tag>,
                          queue: seq<Event>) {
    && 0 < slots && |q| == |queue|
    && (forall p :: 0 <= p < |q| ==> EntryAt(slots, input, st, rest, q, queue, p))
    && (forall p, r :: 0 <= p < |q| && 0 <= r < |q| ==> PairAt(q, p, r))
  }

  ghost predicate FlowOk(q: seq<Tag>, rd: nat, i: nat, wd: nat, announced: int) {
    rd <= i && wd <= announced && Reads(q) == Range(rd, i) && Wrotes(q) == Range(wd, announced)
  }

  ghost predicate EofOk(n: nat, q: seq<Tag>, rd: nat, i: nat, reader: ReaderPc, eof: bool) {
    && (reader == ReaderEof || reader == ReaderDone <==> i == n)
    && (TEof in q <==> reader == ReaderDone && !eof)
    && (eof ==> reader == ReaderDone && rd == n)
  }

  // ----- the SPEs

  /** The in-mailbox holds the messages for the elements ids. */
  ghost predicate RequestAt(slots: nat, input: seq<bv16>, ids: seq<nat>, inbox: seq<Msg>, a: nat)
    requires slots > 0 && a < |ids| == |inbox|
  {
    ids[a] < |input| && inbox[a] == Asked(slots, input, ids[a])
  }

  ghost predicate Requests(slots: nat, input: seq<bv16>, ids: seq<nat>, inbox: seq<Msg>)
    requires slots > 0
  {
    |ids| == |inbox| && forall a :: 0 <= a < |ids| ==> RequestAt(slots, input, ids, inbox, a)
  }

  ghost predicate FitsNone(x: Option<nat>, n: nat) {
    x.Some? ==> x.value < n
  }

  function IdleMsg(slots: nat): Msg {
    Msg(slots, 0)
  }

  /** The mailboxes and the program counter of an SPE, by its state of shutdown. */
  ghost predicate SpeOk(slots: nat, input: seq<bv16>, pc: SpePc, inbox: seq<Msg>, outbox: Option<Msg>,
                        ids: seq<nat>, wk: Option<nat>, ob: Option<nat>, r: Rest)
  {
    && slots > 0 && FitsNone(wk, |input|) && FitsNone(ob, |input|)
    && if r == Normal then
         && Requests(slots, input, ids, inbox)
         && pc == (if wk.Some? then Work(Asked(slots, input, wk.value)) else Fetch)
         && outbox == (if ob.Some? then Some(Answered(slots, input, ob.value)) else None)
       else
         && ids == [] && wk.None? && ob.None?
         && inbox == (if r == Told || r == ToldAgain then [IdleMsg(slots)] else [])
         && pc == (if r == Told then Fetch else if r == Acking then Ack(IdleMsg(slots)) else if r == Gone then Quit
                   else Resting)
         && outbox == (if r == Acked then Some(IdleMsg(slots)) else None)
  }

  ghost predicate SentAt(st: seq<Stage>, s: nat, ids: seq<nat>, a: nat)
    requires a < |ids|
  {
    ids[a] < |st| && st[ids[a]] == Sent(s)
  }

  ghost predicate Distinct(ids: seq<nat>, a: nat, b: nat)
    requires a < |ids| && b < |ids|
  {
    a != b ==> ids[a] != ids[b]
  }

  /** The elements at SPE s. */
  ghost predicate HeldOk(st: seq<Stage>, s: nat, ids: seq<nat>, wk: Option<nat>, ob: Option<nat>) {
    && (forall a :: 0 <= a < |ids| ==> SentAt(st, s, ids, a))
    && (forall a, b :: 0 <= a < |ids| && 0 <= b < |ids| ==> Distinct(ids, a, b))
    && (wk.Some? ==> wk.value < |st| && st[wk.value] == Busy(s))
    && (ob.Some? ==> ob.value < |st| && st[ob.value] == Replied(s))
  }

  ghost predicate LoadOk(mboxq: int, depth: nat, s: nat, ids: seq<nat>, wk: Option<nat>, ob: Option<nat>,
                         hd: Option<Tag>, q: seq<Tag>) {
    mboxq == |ids| + One(wk) + One(ob) + InHandOf(hd, s) + CountDone(q, s) <= depth
  }

  ghost predicate SpeFine(slots: nat, input: seq<bv16>, spe: seq<SpePc>, inbox: seq<seq<Msg>>, outbox: seq<Option<Msg>>,
                          w: Held, s: nat)
    requires s < |spe| == |inbox| == |outbox| == |w.ids| == |w.wk| == |w.ob| == |w.rest|
  {
    SpeOk(slots, input, spe[s], inbox[s], outbox[s], w.ids[s], w.wk[s], w.ob[s], w.rest[s])
  }

  ghost predicate HeldFine(st: seq<Stage>, w: Held, s: nat)
    requires s < |w.ids| == |w.wk| == |w.ob|
  {
    HeldOk(st, s, w.ids[s], w.wk[s], w.ob[s])
  }

  ghost predicate LoadFine(depth: nat, mboxq: seq<int>, w: Held, hd: Option<Tag>, q: seq<Tag>, s: nat)
    requires s < |mboxq| == |w.ids| == |w.wk| == |w.ob|
  {
    LoadOk(mboxq[s], depth, s, w.ids[s], w.wk[s], w.ob[s], hd, q)
  }

  ghost predicate SpesFine(slots: nat, input: seq<bv16>, spe: seq<SpePc>, inbox: seq<seq<Msg>>,
                           outbox: seq<Option<Msg>>, w: Held) {
    && 0 < |spe| == |inbox| == |outbox| == |w.ids| == |w.wk| == |w.ob| == |w.rest|
    && (forall s :: 0 <= s < |spe| ==> SpeFine(slots, input, spe, inbox, outbox, w, s))
  }

  ghost predicate HeldsFine(st: seq<Stage>, w: Held) {
    && |w.ids| == |w.wk| == |w.ob|
    && (forall s :: 0 <= s < |w.ids| ==> HeldFine(st, w, s))
  }

  ghost predicate LoadsFine(depth: nat, mboxq: seq<int>, w: Held, hd: Option<Tag>, q: seq<Tag>) {
    && |mboxq| == |w.ids| == |w.wk| == |w.ob|
    && (forall s :: 0 <= s < |mboxq| ==> LoadFine(depth, mboxq, w, hd, q, s))
  }

  ghost predicate HandOk(slots: nat, input: seq<bv16>, st: seq<Stage>, rest: seq<Rest>, hd: Option<Tag>,
                         hand: Option<Event>) {
    && 0 < slots && (hd.None? <==> hand.None?)
    && (hd.Some? ==>
      && TagOk(|input|, |rest|, hd.value) && hand.value == Shown(slots, |rest|, input, hd.value)
      && match hd.value
         case TDone(s, k) => k < |st| && st[k] == Noticed(s)
         case TIdle(s) => rest[s] == AckNoticed
         case _ => false)
  }

  /** An acknowledgement that has left its SPE is with the event thread or in the queue. */
  ghost predicate AckAt(rest: seq<Rest>, hd: Option<Tag>, q: seq<Tag>, s: nat)
    requires s < |rest|
  {
    (rest[s] == AckNoticed ==> hd == Some(TIdle(s))) && (rest[s] == AckReported ==> TIdle(s) in q)
  }

  ghost predicate AcksFine(rest: seq<Rest>, hd: Option<Tag>, q: seq<Tag>) {
    forall s :: 0 <= s < |rest| ==> AckAt(rest, hd, q, s)
  }

  // ----- the counters, and the shutdown

  ghost predicate CountersOk(inState: seq<SlotState>, outState: seq<SlotState>, mboxq: seq<int>, readq: int, workq: int,
                             writeq: int) {
    && readq == CountState(inState, Runnable)
    && workq == CountState(inState, Running) == Sum(mboxq)
    && writeq == CountState(outState, Flushing)
  }

  ghost predicate RestOk(round: bool, done: bool, r: Rest) {
    (round <==> r != Normal) && (done <==> Closed(r))
  }

  ghost predicate RestsOk(rest: seq<Rest>, round: bool, done: bool, ackq: int, running: int) {
    && ackq == CountAwaited(rest) && running == CountActive(rest)
    && (forall s :: 0 <= s < |rest| ==> RestOk(round, done, rest[s]))
  }

  /** The writer is past its last result. */
  ghost predicate Ending(writer: WriterPc, round: bool) {
    round && (writer == WriterCopy || writer == WriterDone)
  }

  ghost predicate RoundOk(n: nat, wd: nat, rd: nat, round: bool, writer: WriterPc, eof: bool, idle: bool, done: bool) {
    (round ==> eof && idle && wd == n == rd) && (writer == WriterDone ==> round) && (done ==> round)
  }

  // ----- everything

  ghost predicate HeadAt(head: nat, k: int, slots: nat) {
    k >= 0 && slots > 0 && head == SlotOf(k, slots)
  }

  ghost predicate Fixed(h: Host) {
    && h.desk.Shape() && |h.spe| == |h.outbox| == h.desk.Spes() && h.depth > 0 && h.space > 0
    && Terminated(h.input) && !h.desk.dead && h.desk.nextSpe < h.desk.Spes()
    && HeadAt(h.readHead, h.i, h.desk.Slots()) && HeadAt(h.writeHead, Announced(h), h.desk.Slots())
  }

  ghost predicate SlotsFine(h: Host, t: Tags) {
    var d, slots := h.desk, h.desk.Slots();
    && InStatesOk(slots, t.st, d.inState) && OutStatesOk(slots, t.st, t.round, t.wd, d.outState)
    && InSemsOk(slots, t.st, Acquired(h), d.inSem)
    && (!Ending(h.writer, t.round) ==> OutSemsOk(slots, t.st, t.round, Taken(h, t.round), d.outSem))
    && InBufsOk(slots, h.input, t.st, StoredUpTo(h), d.inBuf) && OutBufsOk(slots, h.input, t.st, |h.out|, d.outBuf)
    && OutOk(h.input, h.out)
  }

  ghost predicate MessagesFine(h: Host, t: Tags) {
    var d, slots := h.desk, h.desk.Slots();
    && SpesFine(slots, h.input, h.spe, d.inbox, h.outbox, t.w) && HeldsFine(t.st, t.w)
    && LoadsFine(h.depth, d.mboxq, t.w, t.hd, t.q)
    && QueueOk(slots, h.input, t.st, t.w.rest, t.q, h.queue) && HandOk(slots, h.input, t.st, t.w.rest, t.hd, h.hand)
    && AcksFine(t.w.rest, t.hd, t.q)
  }

  ghost predicate CountsFine(h: Host, t: Tags) {
    var d := h.desk;
    && CountersOk(d.inState, d.outState, d.mboxq, d.readq, d.workq, d.writeq)
    && RestsOk(t.w.rest, t.round, d.done, d.ackq, h.running)
    && RoundOk(|h.input|, t.wd, |t.st|, t.round, h.writer, d.eof, d.Idle(), d.done)
  }

  /** What holds even between an event and the scheduling that it leads to. */
  ghost predicate Core(h: Host, t: Tags) {
    && Fixed(h)
    && OrderOk(h.desk.Slots(), |h.input|, t.st, t.wd, Announced(h), |h.out|, Taken(h, t.round), h.i, Acquired(h))
    && FlowOk(t.q, |t.st|, h.i, t.wd, Announced(h)) && EofOk(|h.input|, t.q, |t.st|, h.i, h.reader, h.desk.eof)
    && SlotsFine(h, t) && MessagesFine(h, t) && CountsFine(h, t)
  }

  ghost predicate NoneLeft(inState: seq<SlotState>, outState: seq<SlotState>, j: nat)
    requires j < |inState| == |outState|
  {
    inState[j] == Runnable ==> outState[j] != Empty
  }

  /** A slot can only be waiting for an SPE when all mailboxes are full. */
  ghost predicate Conserving(inState: seq<SlotState>, outState: seq<SlotState>, workq: int, full: nat) {
    && |inState| == |outState|
    && (workq < full ==> forall j :: 0 <= j < |inState| ==> NoneLeft(inState, outState, j))
  }

  /** The shutdown has begun if it can, and ends with the last acknowledgement. */
  ghost predicate Timely(eof: bool, idle: bool, done: bool, ackq: int, round: bool) {
    (eof && idle ==> round) && (round && !done ==> ackq > 0)
  }

  /** The impossible alternative keeps Inv one fact in proofs, instead of its conjuncts. */
  ghost predicate Inv(h: Host, t: Tags) {
    var d := h.desk;
    || |h.input| < 0
    || (&& Core(h, t) && Conserving(d.inState, d.outState, d.workq, d.Spes() * h.depth)
        && Timely(d.eof, d.Idle(), d.done, d.ackq, t.round))
  }

  // ----- progress

  /** Steps that an element has been through since it was announced. */
  function Rank(g: Stage): nat {
    match g
    case Ready => 1
    case Sent(_) => 1
    case Busy(_) => 2
    case Replied(_) => 3
    case Noticed(_) => 4
    case Reported(_) => 5
    case Finished => 6
  }

  function RankSum(st: seq<Stage>): nat {
    if st == [] then 0 else RankSum(st[..|st| - 1]) + Rank(st[|st| - 1])
  }

  /** Steps of the shutdown that an SPE and its acknowledgement have been through. */
  function RestRank(r: Rest): nat {
    match r
    case Normal => 0
    case Told => 0
    case Acking => 1
    case Acked => 2
    case AckNoticed => 3
    case AckReported => 4
    case Quiet => 5
    case ToldAgain => 5
    case Gone => 6
  }

  function RestSum(rest: seq<Rest>): nat {
    if rest == [] then 0 else RestSum(rest[..|rest| - 1]) + RestRank(rest[|rest| - 1])
  }

  function ReaderSteps(reader: ReaderPc, i: nat): nat {
    3 * i + match reader
            case ReaderWait => 0
            case ReaderStore => 1
            case ReaderPush => 2
            case ReaderEof => 0
            case ReaderDone => 1
  }

  function WriterSteps(writer: WriterPc, out: nat): int {
    3 * out + match writer
              case WriterWait => 0
              case WriterCopy => 1
              case WriterPush => -1
              case WriterDone => 2
  }

  /** How many steps have been taken. */
  function Progress(h: Host, t: Tags): int {
    ReaderSteps(h.reader, h.i) + WriterSteps(h.writer, |h.out|) + RankSum(t.st) + t.wd + RestSum(t.w.rest)
      + if h.desk.eof then 1 else 0
  }

  /** Some record of tags fits the state, and says that n steps have been taken. */
  ghost predicate Sound(h: Host, n: int) {
    exists t :: Inv(h, t) && Progress(h, t) == n
  }

  // ----- putting the invariant together

  /** Everything but the messages; n is the number of elements that the scheduler has heard of. */
  ghost predicate Outside(h: Host, t: Tags, n: nat) {
    var d := h.desk;
    && n == |t.st| && Fixed(h)
    && OrderOk(d.Slots(), |h.input|, t.st, t.wd, Announced(h), |h.out|, Taken(h, t.round), h.i, Acquired(h))
    && FlowOk(t.q, |t.st|, h.i, t.wd, Announced(h)) && EofOk(|h.input|, t.q, |t.st|, h.i, h.reader, d.eof)
    && SlotsFine(h, t) && CountsFine(h, t) && Conserving(d.inState, d.outState, d.workq, d.Spes() * h.depth)
    && Timely(d.eof, d.Idle(), d.done, d.ackq, t.round)
  }

  ghost predicate OutsideFine(h: Host, t: Tags) {
    exists n :: Outside(h, t, n)
  }

  /** The messages; n is the length of the event queue. */
  ghost predicate Inside(h: Host, t: Tags, n: nat) {
    n == |t.q| && MessagesFine(h, t)
  }

  ghost predicate InsideFine(h: Host, t: Tags) {
    exists n :: Inside(h, t, n)
  }

  lemma Together(h: Host, t: Tags, n: int)
    requires OutsideFine(h, t) && InsideFine(h, t) && Progress(h, t) == n
    ensures Sound(h, n)
  {
    var fits := Inv(h, t);
  }
}
