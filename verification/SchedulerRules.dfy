/** host.c: which SPE gets a task, and which slot is taken after a result. */
module SchedulerRules {
  import opened Slots
  import opened Pipeline

  // ----- the SPE that gets a task

  /** The SPE at place i of the scan, from the next in turn on, has room in its mailbox. */
  ghost predicate RoomAt(d: Desk, depth: nat, i: nat)
    requires d.Shape()
  {
    i < d.Spes() && d.mboxq[(d.nextSpe + i) % d.Spes()] < depth
  }

  /** Place i is the first one with room. */
  ghost predicate FirstRoom(d: Desk, depth: nat, i: nat)
    requires d.Shape()
  {
    RoomAt(d, depth, i) && forall j: nat :: j < i ==> !RoomAt(d, depth, j)
  }

  /** r is d after the slot was sent to SPE c, and the turn has passed on to the SPE after it. */
  ghost predicate SentTo(d: Desk, r: Desk, slot: nat, c: nat)
    requires d.Shape() && slot < d.Slots() && c < d.Spes()
  {
    && r.inbox == d.inbox[c := d.inbox[c] + [Msg(slot, d.inBuf[slot])]]
    && r.mboxq == d.mboxq[c := d.mboxq[c] + 1] && r.nextSpe == (c + 1) % d.Spes()
    && r.inState == d.inState[slot := Running] && r.outState == d.outState[slot := Running]
    && r.workq == d.workq + 1 && r.readq == d.readq - 1
    && r.inBuf == d.inBuf && r.outBuf == d.outBuf && r.inSem == d.inSem && r.outSem == d.outSem
    && r.writeq == d.writeq && r.ackq == d.ackq && r.eof == d.eof && r.done == d.done && r.dead == d.dead
  }

  lemma {:induction false} FindFirst(d: Desk, depth: nat, i: nat) returns (j: nat)
    requires d.Shape() && i <= d.Spes()
    ensures i <= j <= d.Spes() && (forall k: nat :: i <= k < j ==> !RoomAt(d, depth, k))
    ensures var r := FindSpe(d.mboxq, d.nextSpe, depth, i);
      if j < d.Spes() then RoomAt(d, depth, j) && r.Some? && r.value == (d.nextSpe + j) % d.Spes() else r.None?
    decreases d.Spes() - i
  {
    if i == d.Spes() || RoomAt(d, depth, i) { j := i; } else { j := FindFirst(d, depth, i + 1); }
  }

  /** A task can be started. */
  ghost predicate Startable(d: Desk, depth: nat, slot: nat)
    requires d.Shape() && slot < d.Slots()
  {
    && d.workq < d.Spes() * depth && d.inState[slot] == Runnable && d.outState[slot] == Empty
    && exists i: nat :: RoomAt(d, depth, i)
  }

  ghost predicate SentFirst(d: Desk, depth: nat, r: Desk, slot: nat, i: nat)
    requires d.Shape() && slot < d.Slots()
  {
    FirstRoom(d, depth, i) && SentTo(d, r, slot, (d.nextSpe + i) % d.Spes())
  }

  /** A task goes to the first SPE with room, from the next in turn on; if it cannot be started, nothing changes. */
  lemma TaskRule(d: Desk, depth: nat, slot: nat)
    requires d.Shape() && slot < d.Slots()
    ensures var r := ScheduleTask(d, depth, slot);
      if Startable(d, depth, slot) then exists i: nat :: SentFirst(d, depth, r, slot, i) else r == d
  {
    var j := FindFirst(d, depth, 0);
    if j < d.Spes() && d.workq < d.Spes() * depth && d.Schedulable(slot) {
      WrapIsMod((d.nextSpe + j) % d.Spes(), d.Spes());
      assert FirstRoom(d, depth, j);
      assert SentFirst(d, depth, ScheduleTask(d, depth, slot), slot, j);
    }
  }

  // ----- the slot that is taken after a result

  ghost predicate ReadyAt(d: Desk, slot: nat, i: nat)
    requires d.Shape()
  {
    && 1 <= i < d.Slots()
    && d.inState[(slot + i) % d.Slots()] == Runnable && d.outState[(slot + i) % d.Slots()] == Empty
  }

  ghost predicate FirstReady(d: Desk, slot: nat, i: nat)
    requires d.Shape()
  {
    ReadyAt(d, slot, i) && forall j: nat :: j < i ==> !ReadyAt(d, slot, j)
  }

  /** The first slot after the one of the result that is ready to run is scheduled, and no other. */
  lemma ScanRule(d: Desk, depth: nat, slot: nat)
    requires d.Shape() && slot < d.Slots()
    ensures forall i: nat :: FirstReady(d, slot, i) ==>
      ScanSlots(d, depth, slot, 1) == ScheduleTask(d, depth, (slot + i) % d.Slots())
    ensures (forall i: nat :: !ReadyAt(d, slot, i)) ==> ScanSlots(d, depth, slot, 1) == d
  {
    var j := ScanFirst(d, depth, slot, 1);
    forall i: nat | FirstReady(d, slot, i)
      ensures ScanSlots(d, depth, slot, 1) == ScheduleTask(d, depth, (slot + i) % d.Slots())
    {
      assert i == j;
    }
  }

  lemma {:induction false} ScanFirst(d: Desk, depth: nat, slot: nat, i: nat) returns (j: nat)
    requires d.Shape() && slot < d.Slots() && 1 <= i
    ensures i <= j && (forall k: nat :: i <= k < j ==> !ReadyAt(d, slot, k))
    ensures var r := ScanSlots(d, depth, slot, i);
      if j < d.Slots() then ReadyAt(d, slot, j) && r == ScheduleTask(d, depth, (slot + j) % d.Slots()) else r == d
    decreases d.Slots() - i
  {
    if i >= d.Slots() || ReadyAt(d, slot, i) { j := i; } else { j := ScanFirst(d, depth, slot, i + 1); }
  }

  // ----- in turn

  /** Tasks scheduled one after the other. */
  function StartAll(d: Desk, depth: nat, tasks: seq<nat>): (r: Desk)
    requires d.Shape() && forall k :: 0 <= k < |tasks| ==> tasks[k] < d.Slots()
    ensures r.Shape() && r.Slots() == d.Slots() && r.Spes() == d.Spes()
  {
    if tasks == [] then d else ScheduleTask(StartAll(d, depth, tasks[..|tasks| - 1]), depth, tasks[|tasks| - 1])
  }

  /** All tasks can be started, and all mailboxes have room. */
  ghost predicate CanDeal(d: Desk, depth: nat, tasks: seq<nat>) {
    && d.Shape() && d.nextSpe < d.Spes() && |tasks| <= d.Spes() && d.workq + |tasks| <= d.Spes() * depth
    && (forall k :: 0 <= k < |tasks| ==> tasks[k] < d.Slots() && d.Schedulable(tasks[k]))
    && (forall i, j :: 0 <= i < j < |tasks| ==> tasks[i] != tasks[j])
    && (forall c :: 0 <= c < d.Spes() ==> d.mboxq[c] < depth)
  }

  /** The SPE j places after the next in turn. */
  function PlaceAt(d: Desk, j: nat): (c: nat)
    requires d.Shape()
    ensures c < d.Spes()
  {
    (d.nextSpe + j) % d.Spes()
  }

  /** Mailbox number j from the next in turn on has got task number j, if there is one. */
  ghost predicate DealtAt(d: Desk, r: Desk, tasks: seq<nat>, j: nat)
    requires d.Shape() && r.Shape() && r.Spes() == d.Spes() && j < d.Spes()
    requires forall k :: 0 <= k < |tasks| ==> tasks[k] < d.Slots()
  {
    var c := PlaceAt(d, j);
    assert j < |tasks| ==> tasks[j] < d.Slots() == |d.inBuf|;
    && r.inbox[c] == d.inbox[c] + (if j < |tasks| then [Msg(tasks[j], d.inBuf[tasks[j]])] else [])
    && r.mboxq[c] == d.mboxq[c] + (if j < |tasks| then 1 else 0)
  }

  ghost predicate Dealt(d: Desk, r: Desk, tasks: seq<nat>)
    requires d.Shape() && r.Shape() && r.Spes() == d.Spes()
    requires forall k :: 0 <= k < |tasks| ==> tasks[k] < d.Slots()
  {
    forall j: nat :: j < d.Spes() ==> DealtAt(d, r, tasks, j)
  }

  ghost predicate AllStillReady(d: Desk, r: Desk, tasks: seq<nat>) {
    && d.Shape() && r.Shape() && d.Slots() == r.Slots()
    && forall slot: nat :: slot < d.Slots() ==> StillReady(d, r, tasks, slot)
  }

  /** What has been dealt, and what has not changed. */
  ghost predicate DealtTo(d: Desk, r: Desk, tasks: seq<nat>) {
    && d.Shape() && r.Shape() && r.Slots() == d.Slots() && r.Spes() == d.Spes()
    && (forall k :: 0 <= k < |tasks| ==> tasks[k] < d.Slots()) && Dealt(d, r, tasks)
    && r.nextSpe == (d.nextSpe + |tasks|) % d.Spes() && r.workq == d.workq + |tasks| && r.inBuf == d.inBuf
    && AllStillReady(d, r, tasks)
  }

  ghost predicate StillReady(d: Desk, r: Desk, tasks: seq<nat>, slot: nat)
    requires d.Shape() && r.Shape() && slot < d.Slots() == r.Slots()
  {
    slot !in tasks ==> r.inState[slot] == d.inState[slot] && r.outState[slot] == d.outState[slot]
  }

  lemma DifferentSpes(n: nat, spes: nat, i: nat, j: nat)
    requires i < j < spes && n < spes
    ensures (n + i) % spes != (n + j) % spes
  {
    ModOnce(n + i, spes);
    ModOnce(n + j, spes);
  }

  lemma ModOnce(a: nat, n: nat)
    requires 0 < n && a < 2 * n
    ensures a % n == if a < n then a else a - n
  {
    if a >= n { assert a == n + (a - n); }
  }

  lemma NextTurn(n: nat, spes: nat, k: nat)
    requires n < spes && k < spes
    ensures ((n + k) % spes + 1) % spes == (n + (k + 1)) % spes
  {
    ModOnce(n + k, spes);
    if n + k + 1 == 2 * spes {
      assert false;
    }
    ModOnce(n + k + 1, spes);
    ModOnce((n + k) % spes + 1, spes);
  }

  lemma Fewer(d: Desk, depth: nat, tasks: seq<nat>, k: nat)
    requires CanDeal(d, depth, tasks) && k <= |tasks|
    ensures CanDeal(d, depth, tasks[..k])
  {
  }

  /** Tasks that are scheduled one after the other, no more than there are SPEs, go to the SPEs in turn: task
      number j to the SPE j places after the next in turn, so no two to the same one. */
  lemma {:induction false} InTurn(d: Desk, depth: nat, tasks: seq<nat>)
    requires CanDeal(d, depth, tasks)
    ensures DealtTo(d, StartAll(d, depth, tasks), tasks)
    decreases |tasks|
  {
    if tasks == [] {
      ModOnce(d.nextSpe, d.Spes());
    } else {
      var before, slot := tasks[..|tasks| - 1], tasks[|tasks| - 1];
      Fewer(d, depth, tasks, |tasks| - 1);
      InTurn(d, depth, before);
      assert before + [slot] == tasks;
      DealOne(d, depth, StartAll(d, depth, before), before, slot, StartAll(d, depth, tasks));
    }
  }

  lemma DealOne(d: Desk, depth: nat, g: Desk, before: seq<nat>, slot: nat, r: Desk)
    requires CanDeal(d, depth, before + [slot]) && DealtTo(d, g, before)
    requires slot < g.Slots() && r == ScheduleTask(g, depth, slot)
    ensures DealtTo(d, r, before + [slot])
  {
    var tasks, k, spes := before + [slot], |before|, d.Spes();
    assert tasks[k] == slot && forall i :: 0 <= i < k ==> before[i] == tasks[i];
    assert StillReady(d, g, before, slot) && DealtAt(d, g, before, k);
    ModOnce(g.nextSpe + 0, spes);
    assert RoomAt(g, depth, 0);
    TaskRule(g, depth, slot);
    assert Startable(g, depth, slot);
    var i: nat :| SentFirst(g, depth, r, slot, i);
    assert i == 0;
    NextTurn(d.nextSpe, spes, k);
    forall j: nat | j < spes ensures DealtAt(d, r, tasks, j) {
      assert DealtAt(d, g, before, j);
      if j < k { DifferentSpes(d.nextSpe, spes, j, k); }
      if k < j { DifferentSpes(d.nextSpe, spes, k, j); }
    }
    forall s: nat | s < d.Slots() ensures StillReady(d, r, tasks, s) { assert StillReady(d, g, before, s); }
  }
}
