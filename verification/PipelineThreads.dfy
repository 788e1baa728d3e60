/** The invariant of the pipeline is kept by every step of the reader, the writer, the SPEs and the
    event thread. */
module PipelineThreads {
  import opened Lists
  import opened Slots
  import opened Pipeline
  import opened PipelineInv

  // ----- lists

  lemma {:induction false} RangeLast(lo: nat, hi: nat)
    requires lo <= hi
    ensures Range(lo, hi + 1) == Range(lo, hi) + [hi]
    decreases hi - lo
  {
    if lo < hi { RangeLast(lo + 1, hi); }
  }

  lemma {:induction false} FlowLast(q: seq<Tag>, g: Tag)
    ensures Reads(q + [g]) == Reads(q) + (if g.TRead? then [g.k] else [])
    ensures Wrotes(q + [g]) == Wrotes(q) + (if g.TWrote? then [g.k] else [])
  {
    var r := q + [g];
    if q != [] {
      FlowLast(q[1..], g);
      assert r[1..] == q[1..] + [g] && r[0] == q[0];
    } else {
      assert r[1..] == [];
    }
  }

  lemma {:induction false} DoneLast(q: seq<Tag>, g: Tag, s: nat)
    ensures CountDone(q + [g], s) == CountDone(q, s) + if g.TDone? && g.spe == s then 1 else 0
  {
    var r := q + [g];
    if q != [] {
      DoneLast(q[1..], g, s);
      assert r[1..] == q[1..] + [g] && r[0] == q[0];
    } else {
      assert r[1..] == [];
    }
  }

  lemma {:induction false} ActiveUpdate(s: seq<Rest>, j: nat, r: Rest)
    requires j < |s|
    ensures CountActive(s[j := r]) == CountActive(s) + (if Active(r) then 1 else 0) - (if Active(s[j]) then 1 else 0)
    ensures CountAwaited(s[j := r])
      == CountAwaited(s) + (if Awaited(r) then 1 else 0) - (if Awaited(s[j]) then 1 else 0)
  {
    var t := s[j := r];
    if j < |s| - 1 {
      assert t[..|t| - 1] == s[..|s| - 1][j := r];
      ActiveUpdate(s[..|s| - 1], j, r);
    } else {
      assert t[..|t| - 1] == s[..|s| - 1];
    }
  }

  lemma {:induction false} RankUpdate(st: seq<Stage>, k: nat, g: Stage)
    requires k < |st|
    ensures RankSum(st[k := g]) == RankSum(st) + Rank(g) - Rank(st[k])
  {
    var t := st[k := g];
    if k < |st| - 1 {
      assert t[..|t| - 1] == st[..|st| - 1][k := g];
      RankUpdate(st[..|st| - 1], k, g);
    } else {
      assert t[..|t| - 1] == st[..|st| - 1];
    }
  }

  lemma {:induction false} RestUpdate(rest: seq<Rest>, s: nat, r: Rest)
    requires s < |rest|
    ensures RestSum(rest[s := r]) == RestSum(rest) + RestRank(r) - RestRank(rest[s])
  {
    var t := rest[s := r];
    if s < |rest| - 1 {
      assert t[..|t| - 1] == rest[..|rest| - 1][s := r];
      RestUpdate(rest[..|rest| - 1], s, r);
    } else {
      assert t[..|t| - 1] == rest[..|rest| - 1];
    }
  }

  lemma AcksPushed(rest: seq<Rest>, hd: Option<Tag>, q: seq<Tag>, g: Tag)
    requires AcksFine(rest, hd, q)
    ensures AcksFine(rest, hd, q + [g])
  {
    forall s: nat | s < |rest| ensures AckAt(rest, hd, q + [g], s) { assert AckAt(rest, hd, q, s); }
  }

  /** Only the counts of SPU_DONE entries matter to the mailbox loads. */
  lemma LoadsKept(depth: nat, mboxq: seq<int>, w: Held, hd: Option<Tag>, q: seq<Tag>, r: seq<Tag>)
    requires LoadsFine(depth, mboxq, w, hd, q) && forall s :: CountDone(r, s) == CountDone(q, s)
    ensures LoadsFine(depth, mboxq, w, hd, r)
  {
    forall s: nat | s < |mboxq| ensures LoadFine(depth, mboxq, w, hd, r, s) {
      assert LoadFine(depth, mboxq, w, hd, q, s) && CountDone(r, s) == CountDone(q, s);
    }
  }

  // ----- reader

  /** Taking the semaphore of the next element leaves the others as they were. */
  lemma ReadLockSems(slots: nat, st: seq<Stage>, i: nat, inSem: seq<nat>)
    requires InSemsOk(slots, st, i, inSem) && inSem[SlotOf(i, slots)] > 0 && |st| <= i
    ensures i >= slots ==> IsFinished(st, i - slots)
    ensures InSemsOk(slots, st, i + 1, inSem[SlotOf(i, slots) := inSem[SlotOf(i, slots)] - 1])
  {
    var inSem' := inSem[SlotOf(i, slots) := inSem[SlotOf(i, slots)] - 1];
    assert InSemOk(slots, st, inSem, i);
    forall k: nat | i + 1 <= k < i + 1 + slots ensures InSemOk(slots, st, inSem', k) {
      if k < i + slots {
        assert InSemOk(slots, st, inSem, k);
        SlotsDiffer(i, k, slots);
      } else {
        assert k - slots == i && SlotOf(k, slots) == SlotOf(i, slots);
      }
    }
  }

  lemma ReadLockOutside(h: Host, t: Tags)
    requires Outside(h, t, |t.st|) && h.Shape() && CanReadLock(h)
    ensures OutsideFine(ReadLocked(h), t) && Progress(ReadLocked(h), t) == Progress(h, t) + 1
  {
    var g := ReadLocked(h);
    ReadLockSems(h.desk.Slots(), t.st, h.i, h.desk.inSem);
    assert Announced(g) == Announced(h) && Acquired(g) == h.i + 1 && StoredUpTo(g) == StoredUpTo(h);
    var fits := Outside(g, t, |t.st|);
  }

  lemma ReadLockKeeps(h: Host, t: Tags)
    requires Inv(h, t) && h.Shape() && CanReadLock(h)
    ensures Sound(ReadLocked(h), Progress(h, t) + 1)
  {
    ReadLockOutside(h, t);
    var fits := Inside(ReadLocked(h), t, |t.q|);
    Together(ReadLocked(h), t, Progress(h, t) + 1);
  }

  lemma ReadStoreBufs(slots: nat, input: seq<bv16>, st: seq<Stage>, i: nat, inBuf: seq<bv16>)
    requires i < |input| && InBufsOk(slots, input, st, i, inBuf) && |st| <= i
    requires Prefix(st, if i + 1 < slots then 0 else i + 1 - slots)
    ensures InBufsOk(slots, input, st, i + 1, inBuf[SlotOf(i, slots) := input[i]])
  {
    var inBuf' := inBuf[SlotOf(i, slots) := input[i]];
    forall k: nat | k < i + 1 ensures InBufOk(slots, input, st, inBuf', k) {
      if k < i {
        assert InBufOk(slots, input, st, inBuf, k);
        if k + slots > i {
          SlotsDiffer(k, i, slots);
        } else {
          assert IsFinished(st, k);
        }
      }
    }
  }

  lemma ReadStoreKeeps(h: Host, t: Tags)
    requires Inv(h, t) && h.Shape() && h.reader == ReaderStore
    ensures Sound(ReadStored(h), Progress(h, t) + 1)
  {
    ReadStoreBufs(h.desk.Slots(), h.input, t.st, h.i, h.desk.inBuf);
    assert Announced(ReadStored(h)) == Announced(h) && Acquired(ReadStored(h)) == Acquired(h)
      && StoredUpTo(ReadStored(h)) == h.i + 1;
    var fits := Inv(ReadStored(h), t);
  }

  ghost predicate Follows(q: seq<Tag>, g: Tag, p: nat)
    requires p < |q|
  {
    PairOk(q[p], g)
  }

  ghost predicate FollowsAll(q: seq<Tag>, g: Tag) {
    forall p :: 0 <= p < |q| ==> Follows(q, g, p)
  }

  lemma Pushed(slots: nat, input: seq<bv16>, st: seq<Stage>, rest: seq<Rest>, q: seq<Tag>, queue: seq<Event>, g: Tag,
               e: Event)
    requires QueueOk(slots, input, st, rest, q, queue) && EntryOk(slots, input, st, rest, g, e) && FollowsAll(q, g)
    ensures QueueOk(slots, input, st, rest, q + [g], queue + [e])
  {
    var q', queue' := q + [g], queue + [e];
    forall p: nat | p < |q'| ensures EntryAt(slots, input, st, rest, q', queue', p) {
      if p < |q| { assert EntryAt(slots, input, st, rest, q, queue, p); }
    }
    forall p: nat, r: nat | p < |q'| && r < |q'| ensures PairAt(q', p, r) {
      if p < |q| {
        assert Follows(q, g, p);
        if r < |q| { assert PairAt(q, p, r); }
      }
    }
  }

  /** Two states that differ in nothing that matters to messages, but for one more event in the queue. */
  ghost predicate OneMoreEvent(h: Host, g: Host, e: Event) {
    && g.depth == h.depth && g.input == h.input && g.spe == h.spe && g.outbox == h.outbox && g.hand == h.hand
    && g.desk.Slots() == h.desk.Slots() && g.desk.inbox == h.desk.inbox && g.desk.mboxq == h.desk.mboxq
    && g.queue == h.queue + [e]
  }

  lemma PushedMessages(h: Host, t: Tags, g: Host, tag: Tag, e: Event)
    requires MessagesFine(h, t) && OneMoreEvent(h, g, e) && !tag.TDone? && 0 < h.desk.Slots()
    requires EntryOk(h.desk.Slots(), h.input, t.st, t.w.rest, tag, e) && FollowsAll(t.q, tag)
    ensures MessagesFine(g, t.(q := t.q + [tag]))
  {
    var q := t.q + [tag];
    assert QueueOk(h.desk.Slots(), h.input, t.st, t.w.rest, q, g.queue) by {
      Pushed(h.desk.Slots(), h.input, t.st, t.w.rest, t.q, h.queue, tag, e);
    }
    assert LoadsFine(h.depth, h.desk.mboxq, t.w, t.hd, q) by {
      forall s: nat ensures CountDone(q, s) == CountDone(t.q, s) { DoneLast(t.q, tag, s); }
      LoadsKept(h.depth, h.desk.mboxq, t.w, t.hd, t.q, q);
    }
    AcksPushed(t.w.rest, t.hd, t.q, tag);
  }

  lemma ReadAnnounceFlow(input: seq<bv16>, q: seq<Tag>, rd: nat, i: nat, wd: nat, announced: int, eof: bool)
    requires FlowOk(q, rd, i, wd, announced) && Terminated(input) && i < |input|
    requires EofOk(|input|, q, rd, i, ReaderPush, eof)
    ensures var reader := if input[i] != 0 then ReaderWait else ReaderEof;
      FlowOk(q + [TRead(i)], rd, i + 1, wd, announced) && EofOk(|input|, q + [TRead(i)], rd, i + 1, reader, eof)
    ensures FollowsAll(q, TRead(i))
  {
    FlowLast(q, TRead(i));
    RangeLast(rd, i);
    assert i < |input| - 1 ==> NotNul(input, i);
    assert TEof !in q;
  }

  function ReadTags(h: Host, t: Tags): Tags {
    t.(q := t.q + [TRead(h.i)])
  }

  lemma ReadAnnounceOutside(h: Host, t: Tags)
    requires Outside(h, t, |t.st|) && h.Shape() && h.reader == ReaderPush
    ensures OutsideFine(ReadAnnounced(h), ReadTags(h, t))
    ensures Progress(ReadAnnounced(h), ReadTags(h, t)) == Progress(h, t) + 1
  {
    var g := ReadAnnounced(h);
    ReadAnnounceFlow(h.input, t.q, |t.st|, h.i, t.wd, Announced(h), h.desk.eof);
    SlotNext(h.i, h.desk.Slots());
    assert Announced(g) == Announced(h) && Acquired(g) == Acquired(h) == h.i + 1 == StoredUpTo(h) == StoredUpTo(g);
    var fits := Outside(g, ReadTags(h, t), |t.st|);
  }

  lemma ReadAnnounceInside(h: Host, t: Tags)
    requires Inv(h, t) && h.Shape() && h.reader == ReaderPush
    ensures InsideFine(ReadAnnounced(h), ReadTags(h, t))
  {
    ReadAnnounceFlow(h.input, t.q, |t.st|, h.i, t.wd, Announced(h), h.desk.eof);
    PushedMessages(h, t, ReadAnnounced(h), TRead(h.i), ReadSlot(h.readHead));
    var fits := Inside(ReadAnnounced(h), ReadTags(h, t), |t.q| + 1);
  }

  lemma ReadAnnounceKeeps(h: Host, t: Tags)
    requires Inv(h, t) && h.Shape() && h.reader == ReaderPush
    ensures Sound(ReadAnnounced(h), Progress(h, t) + 1)
  {
    ReadAnnounceOutside(h, t);
    ReadAnnounceInside(h, t);
    Together(ReadAnnounced(h), ReadTags(h, t), Progress(h, t) + 1);
  }

  lemma ReadFinishFlow(n: nat, q: seq<Tag>, rd: nat, i: nat, wd: nat, announced: int, eof: bool)
    requires FlowOk(q, rd, i, wd, announced) && EofOk(n, q, rd, i, ReaderEof, eof)
    ensures FlowOk(q + [TEof], rd, i, wd, announced) && EofOk(n, q + [TEof], rd, i, ReaderDone, eof)
    ensures FollowsAll(q, TEof)
  {
    FlowLast(q, TEof);
    assert TEof !in q && (q + [TEof])[|q|] == TEof;
  }

  lemma ReadFinishKeeps(h: Host, t: Tags)
    requires Inv(h, t) && h.Shape() && h.reader == ReaderEof
    ensures Sound(ReadFinished(h), Progress(h, t) + 1)
  {
    var u := t.(q := t.q + [TEof]);
    ReadFinishFlow(|h.input|, t.q, |t.st|, h.i, t.wd, Announced(h), h.desk.eof);
    PushedMessages(h, t, ReadFinished(h), TEof, ReadEof);
    assert Announced(ReadFinished(h)) == Announced(h) && Acquired(ReadFinished(h)) == Acquired(h);
    var fits := Inv(ReadFinished(h), u);
  }

  // ----- writer

  lemma WriteLockSems(slots: nat, st: seq<Stage>, round: bool, k0: nat, wd: nat, outSem: seq<nat>)
    requires OutSemsOk(slots, st, round, k0, outSem) && outSem[SlotOf(k0, slots)] > 0 && !round
    requires wd <= k0 && forall k :: 0 <= k < |st| ==> Launched(st, wd, slots, k)
    ensures IsFinished(st, k0)
    ensures OutSemsOk(slots, st, round, k0 + 1, outSem[SlotOf(k0, slots) := outSem[SlotOf(k0, slots)] - 1])
  {
    var outSem' := outSem[SlotOf(k0, slots) := outSem[SlotOf(k0, slots)] - 1];
    assert OutSemOk(slots, st, round, outSem, k0);
    forall k: nat | k0 + 1 <= k < k0 + 1 + slots ensures OutSemOk(slots, st, round, outSem', k) {
      if k < k0 + slots {
        assert OutSemOk(slots, st, round, outSem, k);
        SlotsDiffer(k0, k, slots);
      } else {
        assert k - slots == k0 && SlotOf(k, slots) == SlotOf(k0, slots);
        assert k < |st| ==> Launched(st, wd, slots, k);
      }
    }
  }

  lemma WriteLockOutside(h: Host, t: Tags)
    requires Outside(h, t, |t.st|) && h.Shape() && CanWriteLock(h)
    ensures OutsideFine(WriteLocked(h), t) && Progress(WriteLocked(h), t) == Progress(h, t) + 1
  {
    var slots := h.desk.Slots();
    if !t.round {
      WriteLockSems(slots, t.st, t.round, |h.out|, t.wd, h.desk.outSem);
      assert Prefix(t.st, |h.out| + 1);
    }
    assert Announced(WriteLocked(h)) == Announced(h) && Acquired(WriteLocked(h)) == Acquired(h);
    var fits := Outside(WriteLocked(h), t, |t.st|);
  }

  lemma WriteLockKeeps(h: Host, t: Tags)
    requires Inv(h, t) && h.Shape() && CanWriteLock(h)
    ensures Sound(WriteLocked(h), Progress(h, t) + 1)
  {
    WriteLockOutside(h, t);
    var fits := Inside(WriteLocked(h), t, |t.q|);
    Together(WriteLocked(h), t, Progress(h, t) + 1);
  }

  /** The slot that the writer looks at holds the next result, or all slots are marked as ended. */
  lemma WriterSees(slots: nat, input: seq<bv16>, st: seq<Stage>, round: bool, wd: nat, outState: seq<SlotState>,
                   outBuf: seq<bv16>, out: seq<bv16>)
    requires OutStatesOk(slots, st, round, wd, outState) && OutBufsOk(slots, input, st, |out|, outBuf)
    requires OutOk(input, out)
    requires wd <= |out| && if round then |out| == wd else IsFinished(st, |out|) && Launched(st, wd, slots, |out|)
    ensures outState[SlotOf(|out|, slots)] == Eof <==> round
    ensures !round ==> OutOk(input, out + [outBuf[SlotOf(|out|, slots)]])
  {
    assert OutStateOk(slots, st, round, outState, |out|);
    if !round {
      assert OutBufOk(slots, input, st, outBuf, |out|);
      var out' := out + [outBuf[SlotOf(|out|, slots)]];
      forall k: nat | k < |out'| ensures OutAt(input, out', k) {
        if k < |out| { assert OutAt(input, out, k); }
      }
    }
  }

  lemma WriteCopyOut(h: Host, t: Tags)
    requires Inv(h, t) && h.Shape() && h.writer == WriterCopy
    ensures h.desk.outState[SlotOf(|h.out|, h.desk.Slots())] == Eof <==> t.round
    ensures OutOk(h.input, WriteCopied(h).out)
  {
    if !t.round {
      assert IsFinished(t.st, |h.out|) && Launched(t.st, t.wd, h.desk.Slots(), |h.out|);
    }
    WriterSees(h.desk.Slots(), h.input, t.st, t.round, t.wd, h.desk.outState, h.desk.outBuf, h.out);
  }

  lemma WriteCopyKeeps(h: Host, t: Tags)
    requires Inv(h, t) && h.Shape() && h.writer == WriterCopy
    ensures Sound(WriteCopied(h), Progress(h, t) + 1)
  {
    WriteCopyOut(h, t);
    assert Announced(WriteCopied(h)) == Announced(h) && Taken(WriteCopied(h), t.round) == Taken(h, t.round);
    var fits := Inv(WriteCopied(h), t);
  }

  lemma WriteAnnounceFlow(q: seq<Tag>, rd: nat, i: nat, wd: nat, k: nat, n: nat, reader: ReaderPc, eof: bool)
    requires FlowOk(q, rd, i, wd, k) && EofOk(n, q, rd, i, reader, eof)
    ensures FlowOk(q + [TWrote(k)], rd, i, wd, k + 1) && EofOk(n, q + [TWrote(k)], rd, i, reader, eof)
    ensures FollowsAll(q, TWrote(k))
  {
    FlowLast(q, TWrote(k));
    RangeLast(wd, k);
    assert TEof in q + [TWrote(k)] <==> TEof in q;
    assert FollowsAll(q, TWrote(k));
  }

  function WroteTags(h: Host, t: Tags): Tags
    requires h.out != []
  {
    t.(q := t.q + [TWrote(|h.out| - 1)])
  }

  lemma WriteAnnounceOutside(h: Host, t: Tags)
    requires Outside(h, t, |t.st|) && h.Shape() && h.writer == WriterPush
    ensures h.out != [] && OutsideFine(WriteAnnounced(h), WroteTags(h, t))
    ensures Progress(WriteAnnounced(h), WroteTags(h, t)) == Progress(h, t) + 1
  {
    var k, g := |h.out| - 1, WriteAnnounced(h);
    assert Fixed(g) by { WriteAnnounceFixed(h, t); }
    assert FlowOk(WroteTags(h, t).q, |t.st|, h.i, t.wd, Announced(g))
        && EofOk(|h.input|, WroteTags(h, t).q, |t.st|, h.i, h.reader, h.desk.eof) by {
      WriteAnnounceFlow(t.q, |t.st|, h.i, t.wd, k, |h.input|, h.reader, h.desk.eof);
    }
    assert Announced(g) == |h.out| && Taken(g, t.round) == Taken(h, t.round);
    var fits := Outside(g, WroteTags(h, t), |t.st|);
  }

  lemma WriteAnnounceFixed(h: Host, t: Tags)
    requires Outside(h, t, |t.st|) && h.Shape() && h.writer == WriterPush
    ensures h.out != [] && Fixed(WriteAnnounced(h))
  {
    SlotNext(|h.out| - 1, h.desk.Slots());
  }

  lemma WriteAnnounceInside(h: Host, t: Tags)
    requires Outside(h, t, |t.st|) && MessagesFine(h, t) && h.Shape() && h.writer == WriterPush && h.out != []
    ensures InsideFine(WriteAnnounced(h), WroteTags(h, t))
  {
    var k := |h.out| - 1;
    WriteAnnounceFlow(t.q, |t.st|, h.i, t.wd, k, |h.input|, h.reader, h.desk.eof);
    PushedMessages(h, t, WriteAnnounced(h), TWrote(k), WroteSlot(h.writeHead));
    var fits := Inside(WriteAnnounced(h), WroteTags(h, t), |t.q| + 1);
  }

  lemma WriteAnnounceKeeps(h: Host, t: Tags)
    requires Inv(h, t) && h.Shape() && h.writer == WriterPush
    ensures Sound(WriteAnnounced(h), Progress(h, t) + 1)
  {
    WriteAnnounceOutside(h, t);
    WriteAnnounceInside(h, t);
    Together(WriteAnnounced(h), WroteTags(h, t), Progress(h, t) + 1);
  }
}
