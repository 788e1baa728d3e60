/** The invariant of the pipeline is kept by every step of the SPEs and of the event thread. */
module PipelineSpes {
  import opened Lists
  import opened Pipeline
  import opened PipelineInv
  import opened PipelineThreads

  // ----- an element that is being processed moves on

  predicate Underway(g: Stage) {
    g != Ready && g != Finished
  }

  lemma MovedOrder(slots: nat, n: nat, st: seq<Stage>, wd: nat, announced: int, out: nat, taken: nat, i: nat,
                   acquired: nat, k: nat, g: Stage)
    requires OrderOk(slots, n, st, wd, announced, out, taken, i, acquired)
    requires k < |st| && Underway(st[k]) && Underway(g)
    ensures OrderOk(slots, n, st[k := g], wd, announced, out, taken, i, acquired)
  {
    var st' := st[k := g];
    var low := if acquired < slots then 0 else acquired - slots;
    forall j: nat | j < taken || j < low ensures IsFinished(st', j) { assert IsFinished(st, j); }
    forall j: nat | j < |st'| ensures Launched(st', wd, slots, j) { assert Launched(st, wd, slots, j); }
  }

  lemma MovedStates(slots: nat, st: seq<Stage>, round: bool, wd: nat, inState: seq<SlotState>, outState: seq<SlotState>,
                    k: nat, g: Stage)
    requires InStatesOk(slots, st, inState) && OutStatesOk(slots, st, round, wd, outState)
    requires k < |st| && Underway(st[k]) && Underway(g)
    ensures InStatesOk(slots, st[k := g], inState) && OutStatesOk(slots, st[k := g], round, wd, outState)
  {
    var st' := st[k := g];
    forall j: nat | |st'| <= j < |st'| + slots ensures InStateOk(slots, st', inState, j) {
      assert InStateOk(slots, st, inState, j);
    }
    forall j: nat | wd <= j < wd + slots ensures OutStateOk(slots, st', round, outState, j) {
      assert OutStateOk(slots, st, round, outState, j);
    }
  }

  lemma MovedSems(slots: nat, st: seq<Stage>, acquired: nat, inSem: seq<nat>, round: bool, taken: nat, outSem: seq<nat>,
                  k: nat, g: Stage)
    requires InSemsOk(slots, st, acquired, inSem)
    requires k < |st| && Underway(st[k]) && Underway(g)
    ensures InSemsOk(slots, st[k := g], acquired, inSem)
    ensures OutSemsOk(slots, st, round, taken, outSem) ==> OutSemsOk(slots, st[k := g], round, taken, outSem)
  {
    var st' := st[k := g];
    forall j: nat | acquired <= j < acquired + slots ensures InSemOk(slots, st', inSem, j) {
      assert InSemOk(slots, st, inSem, j);
    }
    if OutSemsOk(slots, st, round, taken, outSem) {
      forall j: nat | taken <= j < taken + slots ensures OutSemOk(slots, st', round, outSem, j) {
        assert OutSemOk(slots, st, round, outSem, j);
      }
    }
  }

  lemma MovedBufs(slots: nat, input: seq<bv16>, st: seq<Stage>, stored: nat, inBuf: seq<bv16>, from: nat,
                  outBuf: seq<bv16>, k: nat, g: Stage)
    requires InBufsOk(slots, input, st, stored, inBuf) && OutBufsOk(slots, input, st, from, outBuf)
    requires k < |st| && Underway(st[k]) && Underway(g)
    ensures InBufsOk(slots, input, st[k := g], stored, inBuf) && OutBufsOk(slots, input, st[k := g], from, outBuf)
  {
    var st' := st[k := g];
    forall j: nat | j < stored
      ensures InBufOk(slots, input, st', inBuf, j)
    {
      assert InBufOk(slots, input, st, inBuf, j);
    }
    forall j: nat | from <= j < |st'|
      ensures OutBufOk(slots, input, st', outBuf, j)
    {
      assert OutBufOk(slots, input, st, outBuf, j);
    }
  }

  lemma MovedQueue(slots: nat, input: seq<bv16>, st: seq<Stage>, rest: seq<Rest>, q: seq<Tag>, queue: seq<Event>,
                   k: nat, g: Stage)
    requires QueueOk(slots, input, st, rest, q, queue) && k < |st| && !st[k].Reported?
    ensures QueueOk(slots, input, st[k := g], rest, q, queue)
  {
    var st' := st[k := g];
    forall p: nat | p < |q| ensures EntryAt(slots, input, st', rest, q, queue, p) {
      assert EntryAt(slots, input, st, rest, q, queue, p);
    }
  }

  lemma MovedHeld(st: seq<Stage>, w: Held, k: nat, g: Stage, s: nat)
    requires s < |w.ids| == |w.wk| == |w.ob| && HeldFine(st, w, s) && k < |st|
    requires st[k] != Sent(s) && st[k] != Busy(s) && st[k] != Replied(s)
    ensures HeldFine(st[k := g], w, s)
  {
    var ids, st' := w.ids[s], st[k := g];
    forall a: nat | a < |ids| ensures SentAt(st', s, ids, a) { assert SentAt(st, s, ids, a); }
  }

  /** The parts of the state that only the reader, the writer and the scheduler change. */
  ghost predicate SameOutside(h: Host, g: Host) {
    && g.depth == h.depth && g.space == h.space && g.input == h.input && g.reader == h.reader && g.i == h.i
    && g.readHead == h.readHead && g.writer == h.writer && g.writeHead == h.writeHead && g.out == h.out
    && g.desk == h.desk.(inbox := g.desk.inbox) && |g.desk.inbox| == |h.desk.inbox|
  }

  /** Everything that depends on stages alone survives the move. */
  lemma MovedOn(h: Host, t: Tags, g: Host, k: nat, to: Stage)
    requires SlotsFine(h, t) && SameOutside(h, g) && k < |t.st| && Underway(t.st[k]) && Underway(to)
    requires OrderOk(h.desk.Slots(), |h.input|, t.st, t.wd, Announced(h), |h.out|, Taken(h, t.round), h.i, Acquired(h))
    ensures SlotsFine(g, t.(st := t.st[k := to]))
    ensures OrderOk(g.desk.Slots(), |g.input|, t.st[k := to], t.wd, Announced(g), |g.out|, Taken(g, t.round), g.i,
                    Acquired(g))
    ensures RankSum(t.st[k := to]) == RankSum(t.st) + Rank(to) - Rank(t.st[k])
  {
    RankUpdate(t.st, k, to);
    var slots, d := h.desk.Slots(), h.desk;
    MovedOrder(slots, |h.input|, t.st, t.wd, Announced(h), |h.out|, Taken(h, t.round), h.i, Acquired(h), k, to);
    MovedStates(slots, t.st, t.round, t.wd, d.inState, d.outState, k, to);
    MovedSems(slots, t.st, Acquired(h), d.inSem, t.round, Taken(h, t.round), d.outSem, k, to);
    MovedBufs(slots, h.input, t.st, StoredUpTo(h), d.inBuf, |h.out|, d.outBuf, k, to);
  }

  // ----- an SPE takes a request

  lemma TailRequests(slots: nat, input: seq<bv16>, ids: seq<nat>, inbox: seq<Msg>)
    requires slots > 0 && Requests(slots, input, ids, inbox) && inbox != []
    ensures ids != [] && RequestAt(slots, input, ids, inbox, 0) && Requests(slots, input, ids[1..], inbox[1..])
  {
    assert RequestAt(slots, input, ids, inbox, 0);
    var ids', inbox' := ids[1..], inbox[1..];
    forall a: nat | a < |ids'| ensures RequestAt(slots, input, ids', inbox', a) {
      assert RequestAt(slots, input, ids, inbox, a + 1);
    }
  }

  lemma TookHeld(st: seq<Stage>, s: nat, ids: seq<nat>, ob: Option<nat>)
    requires HeldOk(st, s, ids, None, ob) && ids != []
    ensures SentAt(st, s, ids, 0) && HeldOk(st[ids[0] := Busy(s)], s, ids[1..], Some(ids[0]), ob)
  {
    assert SentAt(st, s, ids, 0);
    var st', ids' := st[ids[0] := Busy(s)], ids[1..];
    forall a: nat | a < |ids'| ensures SentAt(st', s, ids', a) {
      assert SentAt(st, s, ids, a + 1) && Distinct(ids, a + 1, 0);
    }
    forall a: nat, b: nat | a < |ids'| && b < |ids'| ensures Distinct(ids', a, b) {
      assert Distinct(ids, a + 1, b + 1);
    }
  }

  function TookTags(t: Tags, i: nat): Tags
    requires i < |t.w.ids| == |t.w.wk| && t.w.ids[i] != [] && t.w.ids[i][0] < |t.st|
  {
    var k := t.w.ids[i][0];
    t.(st := t.st[k := Busy(i)], w := t.w.(ids := t.w.ids[i := t.w.ids[i][1..]], wk := t.w.wk[i := Some(k)]))
  }

  lemma TookMessages(h: Host, t: Tags, i: nat)
    requires MessagesFine(h, t) && h.Shape() && CanTake(h, i) && t.w.rest[i] == Normal
    ensures t.w.ids[i] != [] && t.w.ids[i][0] < |t.st| && t.st[t.w.ids[i][0]] == Sent(i)
    ensures MessagesFine(Took(h, i, AfterRead(h.desk.Slots(), h.desk.inbox[i][0])), TookTags(t, i))
  {
    var slots, d := h.desk.Slots(), h.desk;
    assert SpeFine(slots, h.input, h.spe, d.inbox, h.outbox, t.w, i) && HeldFine(t.st, t.w, i);
    TailRequests(slots, h.input, t.w.ids[i], d.inbox[i]);
    TookHeld(t.st, i, t.w.ids[i], t.w.ob[i]);
    var k, u := t.w.ids[i][0], TookTags(t, i);
    var g := Took(h, i, AfterRead(slots, d.inbox[i][0]));
    forall s: nat | s < |g.spe|
      ensures SpeFine(slots, g.input, g.spe, g.desk.inbox, g.outbox, u.w, s) && HeldFine(u.st, u.w, s)
      ensures LoadFine(h.depth, d.mboxq, u.w, u.hd, u.q, s)
    {
      assert SpeFine(slots, h.input, h.spe, d.inbox, h.outbox, t.w, s) && HeldFine(t.st, t.w, s);
      assert LoadFine(h.depth, d.mboxq, t.w, t.hd, t.q, s);
      if s != i { MovedHeld(t.st, t.w, k, Busy(i), s); }
    }
    MovedQueue(slots, h.input, t.st, t.w.rest, t.q, h.queue, k, Busy(i));
  }

  lemma TakeOutside(h: Host, t: Tags, i: nat)
    requires Outside(h, t, |t.st|) && MessagesFine(h, t) && h.Shape() && CanTake(h, i) && t.w.rest[i] == Normal
    requires t.w.ids[i] != [] && t.w.ids[i][0] < |t.st| && t.st[t.w.ids[i][0]] == Sent(i)
    ensures var g := Took(h, i, AfterRead(h.desk.Slots(), h.desk.inbox[i][0]));
      OutsideFine(g, TookTags(t, i)) && Progress(g, TookTags(t, i)) == Progress(h, t) + 1
  {
    var g, u := Took(h, i, AfterRead(h.desk.Slots(), h.desk.inbox[i][0])), TookTags(t, i);
    MovedOn(h, t, g, t.w.ids[i][0], Busy(i));
    var fits := Outside(g, u, |u.st|);
  }

  lemma TakeKeeps(h: Host, t: Tags, i: nat)
    requires Inv(h, t) && h.Shape() && CanTake(h, i) && t.w.rest[i] == Normal
    ensures Sound(Took(h, i, AfterRead(h.desk.Slots(), h.desk.inbox[i][0])), Progress(h, t) + 1)
  {
    TookMessages(h, t, i);
    var g, u := Took(h, i, AfterRead(h.desk.Slots(), h.desk.inbox[i][0])), TookTags(t, i);
    TakeOutside(h, t, i);
    var fits := Inside(g, u, |u.q|);
    Together(g, u, Progress(h, t) + 1);
  }

  // ----- an SPE answers

  function AnsweredTags(t: Tags, i: nat): Tags
    requires i < |t.w.wk| == |t.w.ob| && t.w.wk[i].Some? && t.w.wk[i].value < |t.st|
  {
    var k := t.w.wk[i].value;
    t.(st := t.st[k := Replied(i)], w := t.w.(wk := t.w.wk[i := None], ob := t.w.ob[i := Some(k)]))
  }

  lemma RepliedHeld(st: seq<Stage>, s: nat, ids: seq<nat>, k: nat)
    requires HeldOk(st, s, ids, Some(k), None)
    ensures k < |st| && st[k] == Busy(s) && HeldOk(st[k := Replied(s)], s, ids, None, Some(k))
  {
    var st' := st[k := Replied(s)];
    forall a: nat | a < |ids| ensures SentAt(st', s, ids, a) { assert SentAt(st, s, ids, a); }
  }

  lemma RepliedMessages(h: Host, t: Tags, i: nat)
    requires MessagesFine(h, t) && h.Shape() && CanReply(h, i)
    ensures t.w.wk[i].Some? && t.w.wk[i].value < |t.st| && t.st[t.w.wk[i].value] == Busy(i)
    ensures MessagesFine(RepliedTo(h, i), AnsweredTags(t, i))
  {
    var slots, d := h.desk.Slots(), h.desk;
    assert SpeFine(slots, h.input, h.spe, d.inbox, h.outbox, t.w, i) && HeldFine(t.st, t.w, i);
    var k := t.w.wk[i].value;
    RepliedHeld(t.st, i, t.w.ids[i], k);
    var u, g := AnsweredTags(t, i), RepliedTo(h, i);
    forall s: nat | s < |g.spe|
      ensures SpeFine(slots, g.input, g.spe, g.desk.inbox, g.outbox, u.w, s) && HeldFine(u.st, u.w, s)
      ensures LoadFine(h.depth, d.mboxq, u.w, u.hd, u.q, s)
    {
      assert SpeFine(slots, h.input, h.spe, d.inbox, h.outbox, t.w, s) && HeldFine(t.st, t.w, s);
      assert LoadFine(h.depth, d.mboxq, t.w, t.hd, t.q, s);
      if s != i { MovedHeld(t.st, t.w, k, Replied(i), s); }
    }
    MovedQueue(slots, h.input, t.st, t.w.rest, t.q, h.queue, k, Replied(i));
  }

  lemma ReplyOutside(h: Host, t: Tags, i: nat)
    requires Outside(h, t, |t.st|) && h.Shape() && CanReply(h, i) && i < |t.w.wk| == |t.w.ob|
    requires t.w.wk[i].Some? && t.w.wk[i].value < |t.st| && t.st[t.w.wk[i].value] == Busy(i)
    ensures OutsideFine(RepliedTo(h, i), AnsweredTags(t, i))
    ensures Progress(RepliedTo(h, i), AnsweredTags(t, i)) == Progress(h, t) + 1
  {
    MovedOn(h, t, RepliedTo(h, i), t.w.wk[i].value, Replied(i));
    var fits := Outside(RepliedTo(h, i), AnsweredTags(t, i), |t.st|);
  }

  lemma ReplyKeeps(h: Host, t: Tags, i: nat)
    requires Inv(h, t) && h.Shape() && CanReply(h, i)
    ensures Sound(RepliedTo(h, i), Progress(h, t) + 1)
  {
    RepliedMessages(h, t, i);
    ReplyOutside(h, t, i);
    var fits := Inside(RepliedTo(h, i), AnsweredTags(t, i), |t.q|);
    Together(RepliedTo(h, i), AnsweredTags(t, i), Progress(h, t) + 1);
  }

  // ----- the event thread takes an answer

  function NoticedTags(t: Tags, i: nat): Tags
    requires i < |t.w.ob| && t.w.ob[i].Some? && t.w.ob[i].value < |t.st|
  {
    var k := t.w.ob[i].value;
    t.(st := t.st[k := Noticed(i)], w := t.w.(ob := t.w.ob[i := None]), hd := Some(TDone(i, k)))
  }

  lemma NoticedHeld(st: seq<Stage>, s: nat, ids: seq<nat>, wk: Option<nat>, k: nat)
    requires HeldOk(st, s, ids, wk, Some(k))
    ensures k < |st| && st[k] == Replied(s) && HeldOk(st[k := Noticed(s)], s, ids, wk, None)
  {
    var st' := st[k := Noticed(s)];
    forall a: nat | a < |ids| ensures SentAt(st', s, ids, a) { assert SentAt(st, s, ids, a); }
  }

  lemma NoticedMessages(h: Host, t: Tags, i: nat)
    requires MessagesFine(h, t) && h.Shape() && CanNotice(h, i) && t.w.rest[i] == Normal
    ensures t.w.ob[i].Some? && t.w.ob[i].value < |t.st| && t.st[t.w.ob[i].value] == Replied(i)
    ensures NoticedFrom(h, i).running == h.running && MessagesFine(NoticedFrom(h, i), NoticedTags(t, i))
  {
    var slots, d := h.desk.Slots(), h.desk;
    assert SpeFine(slots, h.input, h.spe, d.inbox, h.outbox, t.w, i) && HeldFine(t.st, t.w, i);
    var k := t.w.ob[i].value;
    NoticedHeld(t.st, i, t.w.ids[i], t.w.wk[i], k);
    var u, g := NoticedTags(t, i), NoticedFrom(h, i);
    forall s: nat | s < |g.spe|
      ensures SpeFine(slots, g.input, g.spe, g.desk.inbox, g.outbox, u.w, s) && HeldFine(u.st, u.w, s)
      ensures LoadFine(h.depth, d.mboxq, u.w, u.hd, u.q, s)
    {
      assert SpeFine(slots, h.input, h.spe, d.inbox, h.outbox, t.w, s) && HeldFine(t.st, t.w, s);
      assert LoadFine(h.depth, d.mboxq, t.w, t.hd, t.q, s);
      if s != i { MovedHeld(t.st, t.w, k, Noticed(i), s); }
    }
    MovedQueue(slots, h.input, t.st, t.w.rest, t.q, h.queue, k, Noticed(i));
    forall s: nat | s < |u.w.rest| ensures AckAt(u.w.rest, u.hd, u.q, s) { assert AckAt(t.w.rest, t.hd, t.q, s); }
  }

  lemma NoticeKeeps(h: Host, t: Tags, i: nat)
    requires Inv(h, t) && h.Shape() && CanNotice(h, i) && t.w.rest[i] == Normal
    ensures Sound(NoticedFrom(h, i), Progress(h, t) + 1)
  {
    NoticedMessages(h, t, i);
    MovedOn(h, t, NoticedFrom(h, i), t.w.ob[i].value, Noticed(i));
    var fits := Inv(NoticedFrom(h, i), NoticedTags(t, i));
  }

  // ----- the event thread announces an answer

  function ReportedTags(t: Tags): Tags
    requires t.hd.Some? && t.hd.value.TDone? && t.hd.value.k < |t.st|
  {
    t.(st := t.st[t.hd.value.k := Reported(t.hd.value.spe)], hd := None, q := t.q + [t.hd.value])
  }

  lemma ReportedQueue(slots: nat, input: seq<bv16>, st: seq<Stage>, rest: seq<Rest>, q: seq<Tag>, queue: seq<Event>,
                      g: Tag, e: Event)
    requires QueueOk(slots, input, st, rest, q, queue) && g.TDone? && TagOk(|input|, |rest|, g)
    requires e == Shown(slots, |rest|, input, g) && g.k < |st| && st[g.k] == Noticed(g.spe)
    ensures QueueOk(slots, input, st[g.k := Reported(g.spe)], rest, q + [g], queue + [e])
  {
    MovedQueue(slots, input, st, rest, q, queue, g.k, Reported(g.spe));
    forall p: nat | p < |q| ensures Follows(q, g, p) {
      assert EntryAt(slots, input, st, rest, q, queue, p);
    }
    Pushed(slots, input, st[g.k := Reported(g.spe)], rest, q, queue, g, e);
  }

  lemma ReportedMessages(h: Host, t: Tags)
    requires MessagesFine(h, t) && h.Shape() && t.hd.Some? && t.hd.value.TDone?
    ensures h.hand.Some? && t.hd.value.k < |t.st| && t.st[t.hd.value.k] == Noticed(t.hd.value.spe)
    ensures MessagesFine(EventAnnounced(h), ReportedTags(t))
  {
    var slots, d, tag := h.desk.Slots(), h.desk, t.hd.value;
    var k, i := tag.k, tag.spe;
    var u, g := ReportedTags(t), EventAnnounced(h);
    assert QueueOk(slots, h.input, u.st, u.w.rest, u.q, g.queue) by {
      ReportedQueue(slots, h.input, t.st, t.w.rest, t.q, h.queue, tag, h.hand.value);
    }
    forall s: nat | s < |g.spe|
      ensures HeldFine(u.st, u.w, s) && LoadFine(h.depth, d.mboxq, u.w, u.hd, u.q, s)
    {
      assert HeldFine(t.st, t.w, s) && LoadFine(h.depth, d.mboxq, t.w, t.hd, t.q, s);
      MovedHeld(t.st, t.w, k, Reported(i), s);
      DoneLast(t.q, tag, s);
    }
    forall s: nat | s < |u.w.rest| ensures AckAt(u.w.rest, u.hd, u.q, s) { assert AckAt(t.w.rest, t.hd, t.q, s); }
  }

  lemma AnswerFlow(n: nat, q: seq<Tag>, g: Tag, rd: nat, i: nat, wd: nat, announced: int, reader: ReaderPc, eof: bool)
    requires FlowOk(q, rd, i, wd, announced) && EofOk(n, q, rd, i, reader, eof) && (g.TDone? || g.TIdle?)
    ensures FlowOk(q + [g], rd, i, wd, announced) && EofOk(n, q + [g], rd, i, reader, eof)
  {
    FlowLast(q, g);
    assert TEof in q + [g] <==> TEof in q;
  }

  lemma ReportOutside(h: Host, t: Tags)
    requires Outside(h, t, |t.st|) && h.Shape() && h.hand.Some? && t.hd.Some? && t.hd.value.TDone?
    requires t.hd.value.k < |t.st| && t.st[t.hd.value.k] == Noticed(t.hd.value.spe)
    ensures OutsideFine(EventAnnounced(h), ReportedTags(t))
    ensures Progress(EventAnnounced(h), ReportedTags(t)) == Progress(h, t) + 1
  {
    var g, u := EventAnnounced(h), ReportedTags(t);
    MovedOn(h, t, g, t.hd.value.k, Reported(t.hd.value.spe));
    assert FlowOk(u.q, |u.st|, g.i, u.wd, Announced(g)) && EofOk(|g.input|, u.q, |u.st|, g.i, g.reader, g.desk.eof) by {
      AnswerFlow(|h.input|, t.q, t.hd.value, |t.st|, h.i, t.wd, Announced(h), h.reader, h.desk.eof);
    }
    var fits := Outside(g, u, |u.st|);
  }

  lemma ReportKeeps(h: Host, t: Tags)
    requires Inv(h, t) && h.Shape() && t.hd.Some? && t.hd.value.TDone?
    ensures h.hand.Some? && Sound(EventAnnounced(h), Progress(h, t) + 1)
  {
    ReportedMessages(h, t);
    ReportOutside(h, t);
    var fits := Inside(EventAnnounced(h), ReportedTags(t), |t.q| + 1);
    Together(EventAnnounced(h), ReportedTags(t), Progress(h, t) + 1);
  }

  // ----- shutdown of one SPE

  function Rested(t: Tags, i: nat, r: Rest): Tags
    requires i < |t.w.rest|
  {
    t.(w := t.w.(rest := t.w.rest[i := r]))
  }

  lemma RestedQueue(slots: nat, input: seq<bv16>, st: seq<Stage>, rest: seq<Rest>, q: seq<Tag>, queue: seq<Event>,
                    i: nat, r: Rest)
    requires QueueOk(slots, input, st, rest, q, queue) && i < |rest| && rest[i] != AckReported
    ensures QueueOk(slots, input, st, rest[i := r], q, queue)
  {
    var rest' := rest[i := r];
    forall p: nat | p < |q| ensures EntryAt(slots, input, st, rest', q, queue, p) {
      assert EntryAt(slots, input, st, rest, q, queue, p);
    }
  }

  /** One SPE changes its state of shutdown; requests are not involved. */
  ghost predicate RestStep(h: Host, t: Tags, g: Host, i: nat, r: Rest) {
    && i < |h.spe| == |g.spe| == |g.outbox| == |h.outbox| == |h.desk.inbox|
    && |g.desk.inbox| == |h.desk.inbox| == |t.w.rest|
    && SameOutside(h, g)
    && (forall s :: 0 <= s < |h.spe| && s != i ==> Untouched(h, g, s))
    && SpeOk(h.desk.Slots(), h.input, g.spe[i], g.desk.inbox[i], g.outbox[i], [], None, None, r)
    && r != Normal && t.w.rest[i] != Normal
  }

  ghost predicate Untouched(h: Host, g: Host, s: nat)
    requires s < |h.spe| == |g.spe| == |g.outbox| == |h.outbox| == |h.desk.inbox| == |g.desk.inbox|
  {
    g.spe[s] == h.spe[s] && g.outbox[s] == h.outbox[s] && g.desk.inbox[s] == h.desk.inbox[s]
  }

  lemma RestedSpes(h: Host, t: Tags, g: Host, i: nat, r: Rest)
    requires MessagesFine(h, t) && RestStep(h, t, g, i, r)
    ensures SpesFine(h.desk.Slots(), h.input, g.spe, g.desk.inbox, g.outbox, Rested(t, i, r).w)
    ensures HeldsFine(t.st, Rested(t, i, r).w) && LoadsFine(h.depth, h.desk.mboxq, Rested(t, i, r).w, t.hd, t.q)
  {
    var u, slots, d := Rested(t, i, r), h.desk.Slots(), h.desk;
    forall s: nat | s < |g.spe|
      ensures SpeFine(slots, h.input, g.spe, g.desk.inbox, g.outbox, u.w, s) && HeldFine(u.st, u.w, s)
      ensures LoadFine(h.depth, d.mboxq, u.w, u.hd, u.q, s)
    {
      assert SpeFine(slots, h.input, h.spe, d.inbox, h.outbox, t.w, s) && HeldFine(t.st, t.w, s);
      assert LoadFine(h.depth, d.mboxq, t.w, t.hd, t.q, s);
      if s != i { assert Untouched(h, g, s); }
    }
  }

  lemma RestedCounts(rest: seq<Rest>, round: bool, done: bool, ackq: int, running: int, i: nat, r: Rest, running': int)
    requires RestsOk(rest, round, done, ackq, running) && i < |rest| && RestOk(round, done, r)
    requires Awaited(rest[i]) == Awaited(r)
    requires running' == running + (if Active(r) then 1 else 0) - (if Active(rest[i]) then 1 else 0)
    ensures RestsOk(rest[i := r], round, done, ackq, running')
    ensures RestSum(rest[i := r]) == RestSum(rest) + RestRank(r) - RestRank(rest[i])
  {
    ActiveUpdate(rest, i, r);
    RestUpdate(rest, i, r);
  }

  lemma RestedAcks(rest: seq<Rest>, hd: Option<Tag>, q: seq<Tag>, i: nat, r: Rest)
    requires AcksFine(rest, hd, q) && i < |rest| && r != AckNoticed && r != AckReported
    ensures AcksFine(rest[i := r], hd, q)
  {
    var rest' := rest[i := r];
    forall s: nat | s < |rest| ensures AckAt(rest', hd, q, s) { assert AckAt(rest, hd, q, s); }
  }

  /** An SPE's state of shutdown matters outside the messages only to the counts. */
  lemma RestedOutside(h: Host, t: Tags, g: Host, i: nat, r: Rest, u: Tags)
    requires Outside(h, t, |t.st|) && SameOutside(h, g) && i < |t.w.rest|
    requires |g.spe| == |h.spe| && |g.outbox| == |h.outbox| && t.w.rest[i] != Normal && r != Normal
    requires Awaited(t.w.rest[i]) == Awaited(r) && Closed(t.w.rest[i]) == Closed(r)
    requires RestRank(r) == RestRank(t.w.rest[i]) + 1
    requires g.running == h.running + (if Active(r) then 1 else 0) - (if Active(t.w.rest[i]) then 1 else 0)
    requires u.st == t.st && u.wd == t.wd && u.round == t.round && u.w.rest == t.w.rest[i := r] && u.q == t.q
    ensures OutsideFine(g, u) && Progress(g, u) == Progress(h, t) + 1
  {
    assert RestOk(t.round, h.desk.done, t.w.rest[i]);
    RestedCounts(t.w.rest, t.round, h.desk.done, h.desk.ackq, h.running, i, r, g.running);
    var fits := Outside(g, u, |u.st|);
  }

  /** The four steps of an SPE that do not involve the event thread. */
  lemma ShutStep(h: Host, t: Tags, g: Host, i: nat, r: Rest)
    requires Inv(h, t) && RestStep(h, t, g, i, r) && t.w.rest[i] != AckReported && t.w.rest[i] != AckNoticed
    requires g.queue == h.queue && g.hand == h.hand && g.running == h.running
    requires Awaited(t.w.rest[i]) == Awaited(r) && Active(t.w.rest[i]) == Active(r) && Closed(t.w.rest[i]) == Closed(r)
    requires RestRank(r) == RestRank(t.w.rest[i]) + 1
    ensures Sound(g, Progress(h, t) + 1)
  {
    ShutMessages(h, t, g, i, r);
    RestedOutside(h, t, g, i, r, Rested(t, i, r));
    Together(g, Rested(t, i, r), Progress(h, t) + 1);
  }

  lemma ShutMessages(h: Host, t: Tags, g: Host, i: nat, r: Rest)
    requires MessagesFine(h, t) && RestStep(h, t, g, i, r) && t.w.rest[i] != AckReported && t.w.rest[i] != AckNoticed
    requires g.queue == h.queue && g.hand == h.hand
    requires Awaited(t.w.rest[i]) == Awaited(r) && Active(t.w.rest[i]) == Active(r)
    requires RestRank(r) == RestRank(t.w.rest[i]) + 1
    ensures InsideFine(g, Rested(t, i, r))
  {
    RestedSpes(h, t, g, i, r);
    RestedQueue(h.desk.Slots(), h.input, t.st, t.w.rest, t.q, h.queue, i, r);
    RestedAcks(t.w.rest, t.hd, t.q, i, r);
    var fits := Inside(g, Rested(t, i, r), |t.q|);
  }

  lemma TakeToldKeeps(h: Host, t: Tags, i: nat)
    requires Inv(h, t) && h.Shape() && CanTake(h, i) && t.w.rest[i] != Normal
    ensures Sound(Took(h, i, AfterRead(h.desk.Slots(), h.desk.inbox[i][0])), Progress(h, t) + 1)
  {
    assert SpeFine(h.desk.Slots(), h.input, h.spe, h.desk.inbox, h.outbox, t.w, i);
    ShutStep(h, t, Took(h, i, AfterRead(h.desk.Slots(), h.desk.inbox[i][0])), i, Acking);
  }

  lemma AckKeeps(h: Host, t: Tags, i: nat)
    requires Inv(h, t) && h.Shape() && CanAck(h, i)
    ensures Sound(AckedTo(h, i), Progress(h, t) + 1)
  {
    assert SpeFine(h.desk.Slots(), h.input, h.spe, h.desk.inbox, h.outbox, t.w, i);
    ShutStep(h, t, AckedTo(h, i), i, Acked);
  }

  lemma TakeRestingKeeps(h: Host, t: Tags, i: nat)
    requires Inv(h, t) && h.Shape() && CanTakeResting(h, i)
    ensures Sound(Took(h, i, AfterRestRead(h.desk.Slots(), h.desk.inbox[i][0])), Progress(h, t) + 1)
  {
    assert SpeFine(h.desk.Slots(), h.input, h.spe, h.desk.inbox, h.outbox, t.w, i);
    ShutStep(h, t, Took(h, i, AfterRestRead(h.desk.Slots(), h.desk.inbox[i][0])), i, Gone);
  }

  function IdleNoticed(t: Tags, i: nat): Tags
    requires i < |t.w.rest|
  {
    Rested(t, i, AckNoticed).(hd := Some(TIdle(i)))
  }

  lemma NoticeIdleMessages(h: Host, t: Tags, i: nat)
    requires MessagesFine(h, t) && h.Shape() && CanNotice(h, i) && t.w.rest[i] != Normal
    ensures InsideFine(NoticedFrom(h, i), IdleNoticed(t, i)) && t.w.rest[i] == Acked
  {
    var g, slots, u := NoticedFrom(h, i), h.desk.Slots(), IdleNoticed(t, i);
    assert SpeFine(slots, h.input, h.spe, h.desk.inbox, h.outbox, t.w, i);
    RestedSpes(h, t, g, i, AckNoticed);
    RestedQueue(slots, h.input, t.st, t.w.rest, t.q, h.queue, i, AckNoticed);
    assert LoadsFine(h.depth, h.desk.mboxq, u.w, u.hd, u.q) by {
      SameLoads(h.depth, h.desk.mboxq, u.w, t.hd, u.hd, u.q);
    }
    NoticedAcks(t.w.rest, t.q, i);
    var fits := Inside(g, u, |t.q|);
  }

  lemma NoticeIdleKeeps(h: Host, t: Tags, i: nat)
    requires Inv(h, t) && h.Shape() && CanNotice(h, i) && t.w.rest[i] != Normal
    ensures Sound(NoticedFrom(h, i), Progress(h, t) + 1)
  {
    NoticeIdleMessages(h, t, i);
    NoticeIdleRuns(h, t, i);
    RestedOutside(h, t, NoticedFrom(h, i), i, AckNoticed, IdleNoticed(t, i));
    Together(NoticedFrom(h, i), IdleNoticed(t, i), Progress(h, t) + 1);
  }

  /** An acknowledgement takes one off the count of running SPEs. */
  lemma NoticeIdleRuns(h: Host, t: Tags, i: nat)
    requires MessagesFine(h, t) && h.Shape() && CanNotice(h, i) && t.w.rest[i] == Acked
    ensures NoticedFrom(h, i).running == h.running - 1
  {
    assert SpeFine(h.desk.Slots(), h.input, h.spe, h.desk.inbox, h.outbox, t.w, i);
  }

  lemma NoticedAcks(rest: seq<Rest>, q: seq<Tag>, i: nat)
    requires AcksFine(rest, None, q) && i < |rest|
    ensures AcksFine(rest[i := AckNoticed], Some(TIdle(i)), q)
  {
    var rest', hd' := rest[i := AckNoticed], Some(TIdle(i));
    forall s: nat | s < |rest| ensures AckAt(rest', hd', q, s) { assert AckAt(rest, None, q, s); }
  }

  lemma ReportedAcks(rest: seq<Rest>, q: seq<Tag>, i: nat)
    requires AcksFine(rest, Some(TIdle(i)), q) && i < |rest|
    ensures AcksFine(rest[i := AckReported], None, q + [TIdle(i)])
  {
    var q' := q + [TIdle(i)];
    assert q'[|q|] == TIdle(i);
    var rest', hd := rest[i := AckReported], Some(TIdle(i));
    forall s: nat | s < |rest| ensures AckAt(rest', None, q', s) { assert AckAt(rest, hd, q, s); }
  }

  lemma SameLoads(depth: nat, mboxq: seq<int>, w: Held, hd: Option<Tag>, hd': Option<Tag>, q: seq<Tag>)
    requires LoadsFine(depth, mboxq, w, hd, q)
    requires (hd.Some? ==> !hd.value.TDone?) && (hd'.Some? ==> !hd'.value.TDone?)
    ensures LoadsFine(depth, mboxq, w, hd', q)
  {
    forall s: nat | s < |mboxq| ensures LoadFine(depth, mboxq, w, hd', q, s) {
      assert LoadFine(depth, mboxq, w, hd, q, s);
    }
  }

  function IdleTags(t: Tags, i: nat): Tags
    requires i < |t.w.rest|
  {
    Rested(t, i, AckReported).(hd := None, q := t.q + [TIdle(i)])
  }

  lemma IdleLoads(depth: nat, mboxq: seq<int>, w: Held, hd: Option<Tag>, q: seq<Tag>, i: nat)
    requires LoadsFine(depth, mboxq, w, hd, q) && hd == Some(TIdle(i))
    ensures LoadsFine(depth, mboxq, w, None, q + [TIdle(i)])
  {
    var q' := q + [TIdle(i)];
    forall s: nat | s < |mboxq| ensures LoadFine(depth, mboxq, w, None, q', s) {
      assert LoadFine(depth, mboxq, w, hd, q, s);
      DoneLast(q, TIdle(i), s);
    }
  }

  lemma ReportIdleMessages(h: Host, t: Tags, i: nat)
    requires MessagesFine(h, t) && t.hd == Some(TIdle(i)) && 0 < h.desk.Slots()
    ensures h.hand.Some? && i < |t.w.rest| && t.w.rest[i] == AckNoticed
    ensures MessagesFine(EventAnnounced(h), IdleTags(t, i))
  {
    var g, slots := EventAnnounced(h), h.desk.Slots();
    assert SpeFine(slots, h.input, h.spe, h.desk.inbox, h.outbox, t.w, i);
    RestedSpes(h, t, g, i, AckReported);
    IdleQueue(slots, h.input, t.st, t.w.rest, t.q, h.queue, i);
    IdleLoads(h.depth, h.desk.mboxq, IdleTags(t, i).w, t.hd, t.q, i);
    ReportedAcks(t.w.rest, t.q, i);
  }

  lemma ReportIdleKeeps(h: Host, t: Tags)
    requires Inv(h, t) && h.Shape() && t.hd.Some? && t.hd.value.TIdle?
    ensures h.hand.Some? && Sound(EventAnnounced(h), Progress(h, t) + 1)
  {
    var i := t.hd.value.spe;
    ReportIdleMessages(h, t, i);
    assert RestOk(t.round, h.desk.done, t.w.rest[i]);
    RestedCounts(t.w.rest, t.round, h.desk.done, h.desk.ackq, h.running, i, AckReported, h.running);
    AnswerFlow(|h.input|, t.q, TIdle(i), |t.st|, h.i, t.wd, Announced(h), h.reader, h.desk.eof);
    var fits := Inv(EventAnnounced(h), IdleTags(t, i));
  }

  lemma IdleQueue(slots: nat, input: seq<bv16>, st: seq<Stage>, rest: seq<Rest>, q: seq<Tag>, queue: seq<Event>, i: nat)
    requires QueueOk(slots, input, st, rest, q, queue) && i < |rest| && rest[i] == AckNoticed
    ensures QueueOk(slots, input, st, rest[i := AckReported], q + [TIdle(i)], queue + [SpuIdle(i)])
  {
    RestedQueue(slots, input, st, rest, q, queue, i, AckReported);
    forall p: nat | p < |q| ensures Follows(q, TIdle(i), p) {
      assert EntryAt(slots, input, st, rest, q, queue, p);
    }
    Pushed(slots, input, st, rest[i := AckReported], q, queue, TIdle(i), SpuIdle(i));
  }
}
