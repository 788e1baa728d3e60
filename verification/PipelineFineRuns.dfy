/** Runs of the pipeline in which other threads run while the scheduler handles an event. */
module PipelineFineRuns {
  import opened Lists
  import opened Pipeline
  import opened PipelineTheorems
  import opened PipelineFine
  import opened PipelineFineSteps

  // ----- runs

  function FineAfter(f: Fine, steps: seq<FineStep>): Option<Fine> {
    if steps == [] then Some(f) else
    var r := FineAfter(f, steps[..|steps| - 1]);
    var s := steps[|steps| - 1];
    if r.Some? && r.value.Shape() && FineEnabled(r.value, s) then Some(FineNext(r.value, s)) else None
  }

  /** The steps of the model with whole events: taking an event is the step that handles it. */
  function Seen(steps: seq<FineStep>): (r: seq<Step>)
    ensures |r| <= |steps|
  {
    if steps == [] then [] else
    Seen(steps[..|steps| - 1])
    + match steps[|steps| - 1]
      case Take => [Schedule]
      case Other(s) => [s]
      case _ => []
  }

  lemma SameSeen(h: Host, steps: seq<Step>, g: Host, s: Step)
    requires After(h, steps) == Some(g) && g.Shape() && Enabled(g, s)
    ensures After(h, steps + [s]) == Some(Next(g, s))
  {
    assert (steps + [s])[..|steps|] == steps;
  }

  lemma QuietWhole(f: Fine)
    requires f.Shape() && f.todo == [] && !f.closing
    ensures Whole(f) == f.h
  {
    assert ToDo(f) == [];
  }

  lemma FineStepKeeps(h0: Host, seen: seq<Step>, f: Fine, s: FineStep)
    requires FineSound(f, |seen|) && After(h0, seen) == Some(Whole(f)) && FineEnabled(f, s)
    ensures var seen' := seen + match s case Take => [Schedule] case Other(s) => [s] case _ => [];
      FineSound(FineNext(f, s), |seen'|) && After(h0, seen') == Some(Whole(FineNext(f, s)))
  {
    match s
    case Take =>
      QuietWhole(f);
      TakeCalm(f.h, |seen|);
      TakeWhole(f.h);
      SameSeen(h0, seen, f.h, Schedule);
    case Access =>
      AccessCalm(f, |seen|);
      AccessWhole(f);
      assert seen + [] == seen;
    case Close =>
      CloseCalm(f, |seen|);
      CloseWhole(f);
      assert seen + [] == seen;
    case Other(x) =>
      OtherCalm(f, x, |seen|);
      SameSeen(h0, seen, Whole(f), x);
  }

  /** Whatever runs between the accesses of an event's handling: with the rest of the handling done, the state is
      the one that the same steps lead to when events are handled at once. */
  lemma {:induction false} FineRefines(f0: Fine, steps: seq<FineStep>, f: Fine)
    requires FineSound(f0, 0) && FineAfter(f0, steps) == Some(f)
    ensures FineSound(f, |Seen(steps)|) && After(Whole(f0), Seen(steps)) == Some(Whole(f))
    decreases |steps|
  {
    if steps != [] {
      var n := |steps| - 1;
      FineRefines(f0, steps[..n], FineAfter(f0, steps[..n]).value);
      FineStepKeeps(Whole(f0), Seen(steps[..n]), FineAfter(f0, steps[..n]).value, steps[n]);
    }
  }

  function FineStart(p: Params, input: seq<bv16>, inBuf: seq<bv16>, outBuf: seq<bv16>): Fine
    requires p.Ok() && |inBuf| == |outBuf| == p.slots
  {
    Fine(Start(p, input, inBuf, outBuf), [], false)
  }

  lemma FineStartSound(p: Params, input: seq<bv16>, inBuf: seq<bv16>, outBuf: seq<bv16>)
    requires Starting(p, input, inBuf, outBuf)
    ensures var f := FineStart(p, input, inBuf, outBuf); FineSound(f, 0) && Whole(f) == f.h
  {
    var f := FineStart(p, input, inBuf, outBuf);
    StartSound(p, input, inBuf, outBuf);
    StepKeeps(f.h, Schedule, 0);
    QuietWhole(f);
  }

  // ----- mailboxes

  lemma InboxBound(f: Fine, n: int, c: nat)
    requires FineSound(f, n) && c < f.h.desk.Spes()
    ensures |f.h.desk.inbox[c]| <= f.h.depth
  {
    InboxGrows(f.h.desk.Slots(), f.h.desk.Spes(), Shared(f.h.desk), ToDo(f), c);
    WorkIsConserved(Whole(f), n);
  }

  /** When the scheduler is about to send a message, there is room in the mailbox: the blocking write returns. */
  lemma NeverBlocks(f: Fine, n: int)
    requires FineSound(f, n) && f.todo != [] && (f.todo[0].SendSlot? || f.todo[0].SendIdle?)
    ensures f.todo[0].spe < f.h.desk.Spes() && |f.h.desk.inbox[f.todo[0].spe]| < f.h.depth
  {
    assert OpOk(f.h.desk.Slots(), f.h.desk.Spes(), f.todo[0]);
    AccessCalm(f, n);
    InboxBound(Accessed(f), n, f.todo[0].spe);
  }

  // ----- the length of a run

  /** Accesses that are still to come from the event in hand, at most. */
  function Pending(f: Fine): nat {
    |f.todo| + if f.closing then 1 + |f.h.desk.mboxq| else 0
  }

  lemma {:induction false} EofLength(slots: nat, spes: nat, i: nat)
    requires i <= slots
    ensures |EofOps(slots, spes, i)| == 2 * (slots - i)
    decreases slots - i
  {
    if i < slots { EofLength(slots, spes, i + 1); }
  }

  lemma {:induction false} ScanLength(d: Desk, depth: nat, slot: nat, i: nat)
    requires d.Shape() && slot < d.Slots() && 0 < i
    ensures |PlanScan(d, depth, slot, i)| <= 2
    decreases d.Slots() - i
  {
    if i < d.Slots() { ScanLength(d, depth, slot, i + 1); }
  }

  lemma PlanLength(d: Desk, depth: nat, e: Event)
    requires d.Shape() && EventOk(d.Slots(), d.Spes(), e)
    ensures |Plan(d, depth, e)| <= 2 * d.Slots() + d.Spes() + 6
  {
    EofLength(d.Slots(), d.Spes(), 0);
    if e.SpuDone? { ScanLength(Collected(d, e.spe, e.msg), depth, e.msg.addr, 1); }
  }

  function PerStep(slots: nat, spes: nat): nat {
    2 * slots + 2 * spes + 8
  }

  predicate SameSize(f: Fine, g: Fine) {
    && f.h.desk.Shape() && g.h.desk.Shape()
    && g.h.desk.Slots() == f.h.desk.Slots() && g.h.desk.Spes() == f.h.desk.Spes()
  }

  /** What a step adds to the accesses that are to come. */
  function Adds(s: FineStep, per: nat): nat {
    if s.Take? || s.Other? then per else 0
  }

  lemma TakeLength(h: Host)
    requires h.Shape() && h.queue != []
    ensures SameSize(Fine(h, [], false), TakenBy(h))
    ensures Pending(TakenBy(h)) + 1 <= PerStep(h.desk.Slots(), h.desk.Spes())
  {
    assert EventAt(h.desk.Slots(), h.desk.Spes(), h.queue, 0);
    PlanLength(h.desk, h.depth, h.queue[0]);
  }

  lemma OtherLength(f: Fine, s: Step)
    requires f.Shape() && s != Schedule && Enabled(f.h, s)
    ensures var g := f.(h := Next(f.h, s)); SameSize(f, g) && Pending(g) == Pending(f)
  {
  }

  lemma StepLength(f: Fine, s: FineStep, per: nat)
    requires f.Shape() && FineEnabled(f, s) && per == PerStep(f.h.desk.Slots(), f.h.desk.Spes())
    ensures SameSize(f, FineNext(f, s)) && Pending(FineNext(f, s)) + 1 <= Pending(f) + Adds(s, per)
  {
    match s
    case Take => TakeLength(f.h);
    case Access =>
    case Close =>
    case Other(x) => OtherLength(f, x);
  }

  function Budget(steps: seq<FineStep>, per: nat): nat {
    if steps == [] then 0 else Budget(steps[..|steps| - 1], per) + Adds(steps[|steps| - 1], per)
  }

  lemma {:induction false} BudgetIs(steps: seq<FineStep>, per: nat)
    ensures Budget(steps, per) == per * |Seen(steps)|
    decreases |steps|
  {
    if steps != [] {
      BudgetIs(steps[..|steps| - 1], per);
      var k := |Seen(steps[..|steps| - 1])|;
      assert per * (k + 1) == per * k + per;
    }
  }

  lemma {:induction false} FineLength(f0: Fine, steps: seq<FineStep>, f: Fine, per: nat)
    requires f0.Shape() && FineAfter(f0, steps) == Some(f) && per == PerStep(f0.h.desk.Slots(), f0.h.desk.Spes())
    ensures SameSize(f0, f) && |steps| + Pending(f) <= Pending(f0) + Budget(steps, per)
    decreases |steps|
  {
    if steps != [] {
      var n := |steps| - 1;
      var g := FineAfter(f0, steps[..n]).value;
      FineLength(f0, steps[..n], g, per);
      StepLength(g, steps[n], per);
    }
  }

  // ----- the main results

  /** However the threads run between the accesses, the output so far is a prefix of the transformed input, and the
      scheduler does not fail. */
  lemma EveryFineRun(p: Params, input: seq<bv16>, inBuf: seq<bv16>, outBuf: seq<bv16>, steps: seq<FineStep>, f: Fine)
    requires Starting(p, input, inBuf, outBuf) && FineAfter(FineStart(p, input, inBuf, outBuf), steps) == Some(f)
    ensures f.h.out <= Transform(input) && CaseChangedIn(input, f.h.out) && !f.h.desk.dead
  {
    FineStartSound(p, input, inBuf, outBuf);
    FineRefines(FineStart(p, input, inBuf, outBuf), steps, f);
    EveryRun(p, input, inBuf, outBuf, Seen(steps), Whole(f));
  }

  lemma TimesGrows(k: nat, a: nat, b: nat)
    requires a <= b
    ensures k * a <= k * b
  {
  }

  /** No run is longer than n steps of whole events, with `per` accesses for each. */
  lemma FineRunLength(p: Params, input: seq<bv16>, inBuf: seq<bv16>, outBuf: seq<bv16>, steps: seq<FineStep>, f: Fine,
                      per: nat, n: nat)
    requires Starting(p, input, inBuf, outBuf) && FineAfter(FineStart(p, input, inBuf, outBuf), steps) == Some(f)
    requires per == PerStep(p.slots, p.spes) && n == 13 * |input| + 6 * p.spes + 4
    ensures |steps| <= per * n
  {
    FineStartSound(p, input, inBuf, outBuf);
    FineRefines(FineStart(p, input, inBuf, outBuf), steps, f);
    EveryRun(p, input, inBuf, outBuf, Seen(steps), Whole(f));
    FineLength(FineStart(p, input, inBuf, outBuf), steps, f, per);
    BudgetIs(steps, per);
    TimesGrows(per, |Seen(steps)|, n);
  }

  ghost predicate FineStuck(f: Fine) {
    f.Shape() && forall s: FineStep :: !FineEnabled(f, s)
  }

  lemma StuckWhole(f: Fine)
    requires FineStuck(f)
    ensures f.todo == [] && Whole(f) == f.h && Stuck(f.h)
  {
    assert !FineEnabled(f, Access) && !FineEnabled(f, Close) && !FineEnabled(f, Take);
    QuietWhole(f);
    forall s: Step ensures !Enabled(f.h, s) {
      if s != Schedule { assert !FineEnabled(f, Other(s)); }
    }
  }

  /** A run that cannot go on has written the whole transformed input, and all threads have returned. */
  lemma EveryCompleteFineRun(p: Params, input: seq<bv16>, inBuf: seq<bv16>, outBuf: seq<bv16>, steps: seq<FineStep>,
                             f: Fine)
    requires Starting(p, input, inBuf, outBuf) && FineAfter(FineStart(p, input, inBuf, outBuf), steps) == Some(f)
    requires FineStuck(f)
    ensures AllDone(f.h) && f.h.out == Transform(input) && f.todo == []
    ensures |f.h.out| == |input| && CaseChangedIn(input, f.h.out)
  {
    FineStartSound(p, input, inBuf, outBuf);
    FineRefines(FineStart(p, input, inBuf, outBuf), steps, f);
    StuckWhole(f);
    EveryCompleteRun(p, input, inBuf, outBuf, Seen(steps), f.h);
  }
}
