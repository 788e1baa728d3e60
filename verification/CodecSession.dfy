/** codec.c: the decoder's side of the main loop, and the whole loop. */
module CodecSession {
  import opened Lists
  import opened Blocks
  import opened Peeling
  import opened PeelingInvariant
  import opened PeelingRuns
  import opened PeelingEquations
  import opened PeelingTheorems
  import opened Expansion
  import opened OcGraphs
  import opened Decoder
  import opened CodecValues
  import opened EmptyLists
  import opened Codec

  /** The cached copy of solved node x is right. */
  ghost predicate Decoded(n: nat, msg: seq<Block>, co: nat, edges: seq<Edge>, dMessage: seq<bv8>, dAux: seq<bv8>,
                          x: nat) {
    x < co && CompositeStored(n, msg, edges, dMessage, dAux, x)
  }

  ghost predicate CheckCached(n: nat, msg: seq<Block>, co: nat, edges: seq<Edge>, arr: seq<Option<seq<nat>>>,
                              chk: seq<bv8>, j: nat) {
    SlotIs(chk, n, j, TrueValue(n, msg, co, edges, arr, co + j))
  }

  /** Every check block so far is cached, and the first k nodes of the log. */
  ghost predicate Caches(n: nat, msg: seq<Block>, co: nat, edges: seq<Edge>, arr: seq<Option<seq<nat>>>, log: seq<nat>,
                         k: nat,
                         dMessage: seq<bv8>, dAux: seq<bv8>, chk: seq<bv8>)
    requires k <= |log|
  {
    && (forall j :: 0 <= j < |arr| ==> CheckCached(n, msg, co, edges, arr, chk, j))
    && (forall i {:trigger log[i]} :: 0 <= i < k ==> Decoded(n, msg, co, edges, dMessage, dAux, log[i]))
  }

  /** Where the decoder finds block y, and the flags it may be used under. */
  ghost predicate Available(n: nat, m: nat, co: nat, f: Flags, dMessage: seq<bv8>, dAux: seq<bv8>, chk: seq<bv8>,
                            val: nat -> Block, y: nat)
  {
    if y < m then !f.msg && SlotIs(dMessage, n, y, val(y))
    else if y >= co then SlotIs(chk, n, y - co, val(y))
    else !f.aux && SlotIs(dAux, n, y - m, val(y))
  }

  ghost predicate AllAvailable(n: nat, m: nat, co: nat, f: Flags, dMessage: seq<bv8>, dAux: seq<bv8>, chk: seq<bv8>,
                               val: nat -> Block, s: seq<nat>)
  {
    forall y :: y in s ==> Available(n, m, co, f, dMessage, dAux, chk, val, y)
  }

  lemma FinalsCached(n: nat, msg: seq<Block>, g: Graph, edges: seq<Edge>, arr: seq<Option<seq<nat>>>, log: seq<nat>,
                     k: nat,
                     f: Flags, dMessage: seq<bv8>, dAux: seq<bv8>, chk: seq<bv8>, s: seq<nat>)
    requires k <= |log| && Caches(n, msg, g.co, edges, arr, log, k, dMessage, dAux, chk)
    requires forall y :: y in s ==> Final(g, log, f, y, k)
    requires |msg| == g.m <= g.co && g.m + |g.bones| == g.co + |arr|
    ensures AllAvailable(n, g.m, g.co, f, dMessage, dAux, chk, TrueOf(n, msg, g.co, edges, arr), s)
  {
    forall y | y in s ensures Available(n, g.m, g.co, f, dMessage, dAux, chk, TrueOf(n, msg, g.co, edges, arr), y) {
      assert Final(g, log, f, y, k);
      FinalCached(n, msg, g, edges, arr, log, k, f, dMessage, dAux, chk, y);
    }
  }

  lemma FinalCached(n: nat, msg: seq<Block>, g: Graph, edges: seq<Edge>, arr: seq<Option<seq<nat>>>, log: seq<nat>,
                    k: nat,
                    f: Flags, dMessage: seq<bv8>, dAux: seq<bv8>, chk: seq<bv8>, y: nat)
    requires k <= |log| && Caches(n, msg, g.co, edges, arr, log, k, dMessage, dAux, chk) && Final(g, log, f, y, k)
    requires |msg| == g.m <= g.co && g.m + |g.bones| == g.co + |arr|
    ensures Available(n, g.m, g.co, f, dMessage, dAux, chk, TrueOf(n, msg, g.co, edges, arr), y)
  {
    if y >= g.co {
      assert CheckCached(n, msg, g.co, edges, arr, chk, y - g.co);
    } else {
      assert log[IndexOf(log, y)] == y;
      assert Decoded(n, msg, g.co, edges, dMessage, dAux, y);
    }
  }

  lemma LongerLog(n: nat, msg: seq<Block>, co: nat, edges: seq<Edge>, arr: seq<Option<seq<nat>>>, log: seq<nat>,
                  more: seq<nat>, dMessage: seq<bv8>, dAux: seq<bv8>, chk: seq<bv8>)
    requires Caches(n, msg, co, edges, arr, log, |log|, dMessage, dAux, chk)
    ensures Caches(n, msg, co, edges, arr, log + more, |log|, dMessage, dAux, chk)
  {
    forall i | 0 <= i < |log| ensures Decoded(n, msg, co, edges, dMessage, dAux, (log + more)[i]) {
      assert Decoded(n, msg, co, edges, dMessage, dAux, log[i]);
    }
  }

  datatype Acceptance = Accepted | Refused | PastCache

  class Session {
    const n: nat
    const flags: Flags
    const decoder: OcGraph
    const dMessage: array<bv8>
    const dAux: array<bv8>
    const chk: array<bv8>
    var checkCount: nat

    ghost const msg: seq<Block>
    ghost const edges: seq<Edge>
    ghost var events: seq<Event>
    ghost var log: seq<nat>

    ghost function Arrived(): seq<Option<seq<nat>>>
      reads this
    {
      Arrivals(events)
    }

    ghost function Buffers(): set<object> {
      {dMessage, dAux, chk}
    }

    ghost predicate Fixed()
      reads decoder
    {
      && dMessage != dAux && dMessage != chk && dAux != chk && Buffers() !! decoder.Arrays()
      && 1 <= |msg| == decoder.m <= decoder.co && EdgesOk(decoder.m, decoder.co, edges) && MessageOk(n, msg)
      && At(n, decoder.m) <= dMessage.Length && At(n, decoder.co - decoder.m) <= dAux.Length
    }

    /** The decoder is where the events so far lead. */
    ghost predicate OnTrack()
      reads this, decoder, decoder.vCount, decoder.top, decoder.solution, decoder.boneA, decoder.boneB,
            decoder.upper, decoder.left, decoder.right
    {
      && Fixed() && decoder.Valid() && EventsOk(decoder.co, events)
      && Run(decoder.m, decoder.co, edges, events) == RunState(decoder.graph, log)
      && checkCount == |Arrived()| && decoder.nodes == decoder.co + checkCount
    }

    ghost predicate Cached(k: nat)
      requires k <= |log|
      reads this, dMessage, dAux, chk
    {
      Caches(n, msg, decoder.co, edges, Arrived(), log, k, dMessage[..], dAux[..], chk[..])
    }

    ghost predicate Valid()
      reads this, decoder, decoder.vCount, decoder.top, decoder.solution, decoder.boneA, decoder.boneB,
            decoder.upper, decoder.left, decoder.right, dMessage, dAux, chk
    {
      OnTrack() && Cached(|log|)
    }

    constructor (blockSize: nat, f: Flags, d: OcGraph, ghost message: seq<Block>, ghost auxMap: seq<Edge>,
                 chkBytes: nat)
      requires d.Valid() && 1 <= |message| == d.m <= d.co && EdgesOk(d.m, d.co, auxMap) && MessageOk(blockSize, message)
      requires d.graph == Init(d.m, d.co, auxMap) && d.nodes == d.co
      ensures Valid() && fresh(Buffers()) && decoder == d && n == blockSize && flags == f && msg == message
      ensures edges == auxMap
      ensures events == [] && log == [] && chk.Length == chkBytes && dMessage.Length == At(blockSize, d.m)
    {
      n, flags, decoder, msg, edges := blockSize, f, d, message, auxMap;
      checkCount, events, log := 0, [], [];
      AtTimes(blockSize, d.m);
      AtTimes(blockSize, d.co - d.m);
      dMessage := new bv8[d.m * blockSize](_ => 0);
      dAux := new bv8[(d.co - d.m) * blockSize](_ => 0);
      chk := new bv8[chkBytes](_ => 0);
    }

    /** The check block does not fit into the cache. */
    predicate CacheFull()
      reads this
    {
      checkCount * n + n > chk.Length
    }

    /** A check block arrives: cache it and graph it, unless the copy would run past the end of the cache or the
        decoder has no room. */
    method Accept(xmit: array<bv8>, list: seq<nat>) returns (a: Acceptance)
      requires Valid() && Within(list, 0, decoder.co) && xmit !in Buffers() && xmit.Length == n
      requires xmit[..] == XorSum(n, CompositeOf(n, msg, edges), list)
      modifies this`checkCount, this`events, decoder, decoder.vCount, decoder.top, decoder.boneA, decoder.boneB,
               decoder.upper, decoder.left, decoder.right, chk
      ensures a.PastCache? <==> old(CacheFull())
      ensures a.Refused? ==>
        old(decoder.nodes) >= decoder.nodeSpace || |list| + 2 + old(decoder.boneNext) >= decoder.boneA.Length
      ensures a.Accepted? ==>
        old(decoder.nodes) < decoder.nodeSpace && |list| + 2 + old(decoder.boneNext) < decoder.boneA.Length
      ensures a.Accepted? ==> Valid() && Arrived() == old(Arrived()) + [Some(list)]
      ensures a.Accepted? ==> decoder.boneNext == old(decoder.boneNext) + |list| + 2
    {
      if CacheFull() {
        return PastCache;
      }
      var ok := AcceptFitting(xmit, list);
      a := if ok then Accepted else Refused;
    }

    method AcceptFitting(xmit: array<bv8>, list: seq<nat>) returns (ok: bool)
      requires Valid() && Within(list, 0, decoder.co) && xmit !in Buffers() && xmit.Length == n && !CacheFull()
      requires xmit[..] == XorSum(n, CompositeOf(n, msg, edges), list)
      modifies this`checkCount, this`events, decoder, decoder.vCount, decoder.top, decoder.boneA, decoder.boneB,
               decoder.upper, decoder.left, decoder.right, chk
      ensures ok <==>
        old(decoder.nodes) < decoder.nodeSpace && |list| + 2 + old(decoder.boneNext) < decoder.boneA.Length
      ensures ok ==> Valid() && Arrived() == old(Arrived()) + [Some(list)]
      ensures ok ==> decoder.boneNext == old(decoder.boneNext) + |list| + 2
    {
      AtTimes(n, checkCount);
      CacheCheck(xmit, list);
      ok := GraphCheck(list);
    }

    method GraphCheck(list: seq<nat>) returns (ok: bool)
      requires OnTrack() && Within(list, 0, decoder.co)
      modifies this`checkCount, this`events, decoder, decoder.vCount, decoder.top, decoder.boneA, decoder.boneB,
               decoder.upper, decoder.left, decoder.right
      ensures ok <==>
        old(decoder.nodes) < decoder.nodeSpace && |list| + 2 + old(decoder.boneNext) < decoder.boneA.Length
      ensures ok ==> OnTrack() && Arrived() == old(Arrived()) + [Some(list)]
      ensures ok ==> decoder.boneNext == old(decoder.boneNext) + |list| + 2
    {
      Graphed(decoder.m, decoder.co, edges, events, list);
      var node := decoder.CheckBlock(list);
      if node == -1 {
        return false;
      }
      checkCount := checkCount + 1;
      events := events + [Check(list)];
      return true;
    }

    /** The copy of a check block in the cache, ready for its arrival. */
    method CacheCheck(xmit: array<bv8>, list: seq<nat>)
      requires Fixed() && Cached(|log|) && checkCount == |Arrived()| && xmit !in Buffers() && xmit.Length == n
      requires xmit[..] == XorSum(n, CompositeOf(n, msg, edges), list)
      requires At(n, checkCount) + n <= chk.Length
      modifies chk
      ensures Caches(n, msg, decoder.co, edges, Arrived() + [Some(list)], log, |log|, dMessage[..], dAux[..], chk[..])
    {
      ghost var was := chk[..];
      CopySlot(chk, checkCount, xmit, n);
      assert xmit[..n] == xmit[..];
      MoreChecks(n, msg, decoder.co, edges, Arrived(), list, log, dMessage[..], dAux[..], was, chk[..]);
    }

    /** XOR of the cached copies of everything in a list from oc_expansion. */
    method XorList(list: array<int>, ghost s: seq<nat>, ghost val: nat -> Block) returns (xmit: array<bv8>)
      requires list.Length == |s| + 1 && list[0] == |s| && HoldsList(list[..], 1, s) && SizedOn(n, val, s)
      requires AllAvailable(n, decoder.m, decoder.co, flags, dMessage[..], dAux[..], chk[..], val, s)
      ensures fresh(xmit) && xmit.Length == n && xmit[..] == XorSum(n, val, s)
    {
      ghost var dm, da, ch := dMessage[..], dAux[..], chk[..];
      xmit := new bv8[n](_ => 0);
      assert xmit[..] == Zero(n) && s[..0] == [];
      var i := 0;
      while i < list[0]
        invariant i <= |s| && SizedOn(n, val, s[..i]) && xmit[..] == XorSum(n, val, s[..i])
        invariant dMessage[..] == dm && dAux[..] == da && chk[..] == ch
      {
        assert list[..][1 + i] == s[i] && s[i] in s;
        assert Available(n, decoder.m, decoder.co, flags, dm, da, ch, val, s[i]);
        SumNext(n, val, s, i);
        XorOne(xmit, list[1 + i], val);
        i := i + 1;
      }
      assert s[..|s|] == s;
    }

    /** One node of the list: it is a check block, or was solved and cached before.  The flags never
        leave a message in the list when messages are expanded, nor an auxiliary block. */
    method XorOne(xmit: array<bv8>, j: nat, ghost val: nat -> Block)
      requires Available(n, decoder.m, decoder.co, flags, dMessage[..], dAux[..], chk[..], val, j)
      requires xmit !in Buffers() && xmit.Length == n
      modifies xmit
      ensures |val(j)| == n && xmit[..] == Xor(old(xmit[..]), val(j))
    {
      if j < decoder.m {
        assert !flags.msg;
        XorWhole(xmit, dMessage, j, n, val(j));
      } else if j >= decoder.co {
        XorWhole(xmit, chk, j - decoder.co, n, val(j));
      } else {
        assert !flags.aux;
        XorWhole(xmit, dAux, j - decoder.m, n, val(j));
      }
    }

    /** The node that was logged last has an XOR list that cancels to nothing. */
    ghost predicate Stuck()
      reads this, decoder
    {
      exists x :: log != [] && x == log[|log| - 1] && CancelsOut(decoder.m, decoder.co, edges, events, flags, x)
    }

    /** The XOR list of the node that was solved last, as far as the cached blocks go. */
    method ListOf(i: nat) returns (list: array<int>, ghost s: seq<nat>)
      requires OnTrack() && log != [] && i == log[|log| - 1] && Cached(|log| - 1)
      ensures fresh(list) && list.Length == |s| + 1 && list[0] == |s| && HoldsList(list[..], 1, s)
      ensures s == [] <==> Stuck()
      ensures var val := TrueOf(n, msg, decoder.co, edges, Arrived());
        && SizedOn(n, val, s) && XorSum(n, val, s) == val(i)
        && AllAvailable(n, decoder.m, decoder.co, flags, dMessage[..], dAux[..], chk[..], val, s)
    {
      RunIsTraced(RunState(decoder.graph, log));
      LastLogged(decoder.graph, log);
      DecodingSound(n, msg, decoder.m, decoder.co, edges, events, flags, i);
      s := Odds(Sort(Expanded(decoder.graph, log, flags, i)));
      RunEquations(decoder.m, decoder.co, edges, events);
      FinalsCached(n, msg, decoder.graph, edges, Arrived(), log, |log| - 1, flags, dMessage[..], dAux[..], chk[..], s);
      assert s == [] <==> CancelsOut(decoder.m, decoder.co, edges, events, flags, i);
      list := OcExpansion(decoder, log, flags, i);
    }

    /** Save the newly decoded block. */
    method Save(i: nat, xmit: array<bv8>)
      requires Fixed() && LogOk(decoder.graph, log) && |decoder.graph.sol| == decoder.co
      requires log != [] && i == log[|log| - 1] && Cached(|log| - 1)
      requires xmit !in Buffers() && xmit.Length == n && xmit[..] == TrueValue(n, msg, decoder.co, edges, Arrived(), i)
      modifies dMessage, dAux
      ensures Cached(|log|)
    {
      assert xmit[..n] == xmit[..];
      assert LogEntryOk(decoder.graph, log, |log| - 1);
      ghost var dm, da := dMessage[..], dAux[..];
      if i < decoder.m {
        AtBelow(n, i, decoder.m);
        CopySlot(dMessage, i, xmit, n);
      } else {
        AtBelow(n, i - decoder.m, decoder.co - decoder.m);
        CopySlot(dAux, i - decoder.m, xmit, n);
      }
      OneMoreDecoded(n, msg, decoder.co, edges, Arrived(), log, dm, da, dMessage[..], dAux[..], chk[..]);
    }

    /** Decode the node that was solved last, from cached blocks only.  False when its list cancels to
        nothing. */
    method DecodeNode(i: nat) returns (ok: bool)
      requires OnTrack() && log != [] && i == log[|log| - 1] && Cached(|log| - 1)
      modifies dMessage, dAux
      ensures ok ==> Cached(|log|)
      ensures ok <==> !Stuck()
    {
      var list;
      ghost var s;
      list, s := ListOf(i);
      if list[0] == 0 {
        return false;
      }
      var xmit := XorList(list, s, TrueOf(n, msg, decoder.co, edges, Arrived()));
      Save(i, xmit);
      return true;
    }

    /** One resolve call: the nodes that it solved are logged. */
    method ResolveOnce() returns (finished: bool, solved: seq<nat>)
      requires OnTrack()
      modifies this`events, this`log, decoder`graph, decoder`pending, decoder`unsolved, decoder`done, decoder.vCount,
               decoder.top, decoder.solution, decoder.boneA, decoder.boneB, decoder.upper, decoder.left, decoder.right
      ensures OnTrack() && Arrived() == old(Arrived()) && finished == decoder.graph.done
      ensures log == old(log) + solved && |solved| <= 1
      ensures solved != [] ==> CountNone(decoder.graph.sol, decoder.co) < old(CountNone(decoder.graph.sol, decoder.co))
      ensures solved == [] ==>
        finished || LeastClosed(decoder.m, decoder.co, edges, Arrived(), SolvedSet(decoder.graph))
    {
      ghost var es := events;
      finished, solved := decoder.OcResolve();
      Polled(decoder.m, decoder.co, edges, es);
      events := es + [Poll];
      log := log + solved;
    }

    /** One resolve call, and the decoding of what it solved. */
    method Round() returns (ok: bool, finished: bool, more: bool)
      requires OnTrack() && Cached(|log|)
      modifies this`events, this`log, decoder`graph, decoder`pending, decoder`unsolved, decoder`done, decoder.vCount,
               decoder.top, decoder.solution, decoder.boneA, decoder.boneB, decoder.upper, decoder.left, decoder.right,
               dMessage, dAux
      ensures OnTrack() && Arrived() == old(Arrived()) && finished == decoder.graph.done
      ensures ok ==> Cached(|log|)
      ensures more ==> CountNone(decoder.graph.sol, decoder.co) < old(CountNone(decoder.graph.sol, decoder.co))
      ensures !more ==> finished || LeastClosed(decoder.m, decoder.co, edges, Arrived(), SolvedSet(decoder.graph))
      ensures !ok ==> Stuck()
    {
      ghost var was := log;
      var solved;
      finished, solved := ResolveOnce();
      LongerLog(n, msg, decoder.co, edges, Arrived(), was, solved, dMessage[..], dAux[..], chk[..]);
      ok, more := true, solved != [];
      if more {
        assert |log| - 1 == |was|;
        ok := DecodeNode(solved[0]);
      }
    }

    /** Resolve until nothing more is solved, decoding each solved node.  When that was not enough,
        the solved nodes are exactly the least set closed under the peeling rules. */
    method Drain() returns (ok: bool, finished: bool)
      requires Valid()
      modifies this`events, this`log, decoder`graph, decoder`pending, decoder`unsolved, decoder`done, decoder.vCount,
               decoder.top, decoder.solution, decoder.boneA, decoder.boneB, decoder.upper, decoder.left, decoder.right,
               dMessage, dAux
      ensures OnTrack() && Arrived() == old(Arrived())
      ensures ok ==> Cached(|log|) && finished == decoder.graph.done
      ensures ok && !finished ==> LeastClosed(decoder.m, decoder.co, edges, Arrived(), SolvedSet(decoder.graph))
      ensures !ok ==> Stuck()
    {
      var more;
      ok, finished, more := Round();
      while ok && !finished && more
        invariant OnTrack() && Arrived() == old(Arrived()) && finished == decoder.graph.done
        invariant ok ==> Cached(|log|)
        invariant !more ==> finished || LeastClosed(decoder.m, decoder.co, edges, Arrived(), SolvedSet(decoder.graph))
        invariant !ok ==> Stuck()
        decreases more, CountNone(decoder.graph.sol, decoder.co)
      {
        ok, finished, more := Round();
      }
    }
  }

  /** What the arrival of a check block does to a run. */
  lemma Graphed(m: nat, co: nat, edges: seq<Edge>, es: seq<Event>, list: seq<nat>)
    requires 1 <= m <= co && EdgesOk(m, co, edges) && EventsOk(co, es) && Within(list, 0, co)
    ensures EventsOk(co, es + [Check(list)]) && Arrivals(es + [Check(list)]) == Arrivals(es) + [Some(list)]
    ensures var r := Run(m, co, edges, es);
      Run(m, co, edges, es + [Check(list)]) == RunState(AddCheck(r.graph, list), r.log)
  {
    var fs := es + [Check(list)];
    assert fs[..|fs| - 1] == es;
  }

  /** What one more resolve call does to a run. */
  lemma Polled(m: nat, co: nat, edges: seq<Edge>, es: seq<Event>)
    requires 1 <= m <= co && EdgesOk(m, co, edges) && EventsOk(co, es)
    ensures EventsOk(co, es + [Poll]) && Arrivals(es + [Poll]) == Arrivals(es)
    ensures var r := Run(m, co, edges, es); var o := Resolve(r.graph);
      Run(m, co, edges, es + [Poll]) == RunState(o.graph, if o.solved.Some? then r.log + [o.solved.value] else r.log)
    ensures var g := Run(m, co, edges, es).graph; var o := Resolve(g);
      && |g.sol| == |o.graph.sol| == co
      && if o.solved.Some? then CountNone(o.graph.sol, co) < CountNone(g.sol, co)
         else o.graph.done || LeastClosed(m, co, edges, Arrivals(es), SolvedSet(o.graph))
  {
    var fs := es + [Poll];
    assert fs[..|fs| - 1] == es;
    var g := Run(m, co, edges, es).graph;
    var o := Resolve(g);
    var u, i := ResolveEffect(g);
    if o.solved.Some? {
      CountNoneSolve(g.sol, co, g.bones[u - g.m].elems[i], u);
    } else if !o.graph.done {
      PeelingComplete(m, co, edges, es);
    }
  }

  lemma LastLogged(g: Graph, log: seq<nat>)
    requires LogOk(g, log) && log != []
    ensures IndexOf(log, log[|log| - 1]) == |log| - 1
  {
  }

  lemma OneMoreDecoded(n: nat, msg: seq<Block>, co: nat, edges: seq<Edge>, arr: seq<Option<seq<nat>>>, log: seq<nat>,
                       dm: seq<bv8>, da: seq<bv8>, dm': seq<bv8>, da': seq<bv8>, chk: seq<bv8>)
    requires log != [] && Caches(n, msg, co, edges, arr, log, |log| - 1, dm, da, chk) && log[|log| - 1] < co
    requires forall i, j :: 0 <= i < j < |log| ==> log[i] != log[j]
    requires var x := log[|log| - 1]; var v := CompositeValue(n, msg, edges, x);
      if x < |msg| then SlotSet(dm, dm', n, x, v) && da' == da else SlotSet(da, da', n, x - |msg|, v) && dm' == dm
    ensures Caches(n, msg, co, edges, arr, log, |log|, dm', da', chk)
  {
    var x := log[|log| - 1];
    forall i: nat | i < |log| ensures Decoded(n, msg, co, edges, dm', da', log[i]) {
      if i < |log| - 1 {
        assert Decoded(n, msg, co, edges, dm, da, log[i]);
        StillDecoded(n, msg, co, edges, x, dm, da, dm', da', log[i]);
      }
    }
  }

  lemma StillDecoded(n: nat, msg: seq<Block>, co: nat, edges: seq<Edge>, x: nat,
                     dm: seq<bv8>, da: seq<bv8>, dm': seq<bv8>, da': seq<bv8>, y: nat)
    requires Decoded(n, msg, co, edges, dm, da, y) && y != x
    requires var v := CompositeValue(n, msg, edges, x);
      if x < |msg| then SlotSet(dm, dm', n, x, v) && da' == da else SlotSet(da, da', n, x - |msg|, v) && dm' == dm
    ensures Decoded(n, msg, co, edges, dm', da', y)
  {
    var v, w := CompositeValue(n, msg, edges, x), CompositeValue(n, msg, edges, y);
    if x < |msg| && y < |msg| {
      OtherSlots(dm, dm', n, x, v, y, w);
    } else if x >= |msg| && y >= |msg| {
      OtherSlots(da, da', n, x - |msg|, v, y - |msg|, w);
    }
  }

  lemma MoreChecks(n: nat, msg: seq<Block>, co: nat, edges: seq<Edge>, arr: seq<Option<seq<nat>>>, list: seq<nat>,
                   log: seq<nat>, dMessage: seq<bv8>, dAux: seq<bv8>, chk: seq<bv8>, chk': seq<bv8>)
    requires Caches(n, msg, co, edges, arr, log, |log|, dMessage, dAux, chk)
    requires SlotSet(chk, chk', n, |arr|, XorSum(n, CompositeOf(n, msg, edges), list))
    ensures Caches(n, msg, co, edges, arr + [Some(list)], log, |log|, dMessage, dAux, chk')
  {
    var arr' := arr + [Some(list)];
    forall j: nat | j < |arr'| ensures CheckCached(n, msg, co, edges, arr', chk', j) {
      if j < |arr| {
        assert CheckCached(n, msg, co, edges, arr, chk, j);
        OtherSlots(chk, chk', n, |arr|, XorSum(n, CompositeOf(n, msg, edges), list), j,
                   TrueValue(n, msg, co, edges, arr, co + j));
      }
    }
  }

  // ----- the whole program

  /** How the program ends: with the decoded text; with one of its error returns (no decoder graph, no
      room for a check block, an empty XOR list); in a copy past the end of its check cache, which it does not test
      for; or because the check blocks ran out. */
  datatype Ending = Text(text: array<bv8>) | NoGraph | NoRoom | CacheOverrun | EmptyList | NeedMore

  function Sent(lists: seq<seq<nat>>): (r: seq<Option<seq<nat>>>)
    ensures |r| == |lists|
  {
    seq(|lists|, i requires 0 <= i < |lists| => Some(lists[i]))
  }

  /** The peeling rules do not reach every message. */
  ghost predicate FallsShort(m: nat, co: nat, edges: seq<Edge>, arr: seq<Option<seq<nat>>>, S: set<nat>, x: nat) {
    LeastClosed(m, co, edges, arr, S) && x < m && x !in S
  }

  /** Before the first check block, nothing is solved and nothing could be. */
  lemma InitSession(m: nat, co: nat, edges: seq<Edge>)
    requires m <= co
    ensures LeastClosed(m, co, edges, [], SolvedSet(Init(m, co, edges)))
  {
    var S := SolvedSet(Init(m, co, edges));
    assert S == {};
    forall a: nat | m <= a < co ensures AuxClosed(edges, a, S) {
      var c := MessagesOf(edges, a);
      if c != [] { assert c[0] in c; }
    }
  }

  lemma SentNext(lists: seq<seq<nat>>, k: nat)
    requires k < |lists|
    ensures Sent(lists[..k + 1]) == Sent(lists[..k]) + [Some(lists[k])]
  {
  }

  ghost predicate SameSlot(a: seq<bv8>, b: seq<bv8>, n: nat, count: nat, k: nat)
    requires At(n, count) <= |a| && k < count
  {
    SlotIs(b, n, k, Cut(a, n, count)[k])
  }

  lemma {:induction false} SameSlots(a: seq<bv8>, b: seq<bv8>, n: nat, count: nat)
    requires At(n, count) <= |a| && At(n, count) <= |b|
    requires forall k :: 0 <= k < count ==> SameSlot(a, b, n, count, k)
    ensures a[..At(n, count)] == b[..At(n, count)]
  {
    if count > 0 {
      var c := count - 1;
      var at := At(n, c);
      forall k | 0 <= k < c ensures SameSlot(a, b, n, c, k) {
        assert SameSlot(a, b, n, count, k);
      }
      SameSlots(a, b, n, c);
      assert SameSlot(a, b, n, count, c);
      assert a[..at + n] == a[..at] + a[at..at + n] && b[..at + n] == b[..at] + b[at..at + n];
    }
  }

  lemma TextDecoded(s: Session, message: seq<bv8>)
    requires s.Valid() && s.decoder.graph.done && At(s.n, s.decoder.m) <= |message|
    requires s.msg == Cut(message, s.n, s.decoder.m) && s.dMessage.Length == At(s.n, s.decoder.m)
    ensures s.dMessage[..] == message[..At(s.n, s.decoder.m)]
  {
    var g, m, n := s.decoder.graph, s.decoder.m, s.n;
    DoneMeansAllMessages(g);
    forall x: nat | x < m ensures SameSlot(message, s.dMessage[..], n, m, x) {
      assert x in SolvedSet(g);
      assert s.log[IndexOf(s.log, x)] == x;
      assert Decoded(n, s.msg, g.co, s.edges, s.dMessage[..], s.dAux[..], x);
    }
    SameSlots(message, s.dMessage[..], n, m);
    assert s.dMessage[..] == s.dMessage[..At(n, m)];
  }

  /** After the first k check blocks and some resolve calls, node x was solved by the auxiliary rule although
      every message is mapped to it an even number of times. */
  ghost predicate GoesEmpty(m: nat, co: nat, edges: seq<Edge>, lists: seq<seq<nat>>, k: nat, es: seq<Event>, x: nat) {
    k <= |lists| && Arrivals(es) == Sent(lists[..k]) && EvenByItself(m, co, edges, es, x)
  }

  /** The cells of the boneyard that the bones of check blocks take. */
  function CellsOf(lists: seq<seq<nat>>): nat {
    if lists == [] then 0 else CellsOf(lists[..|lists| - 1]) + |lists[|lists| - 1]| + 2
  }

  lemma CellsNext(lists: seq<seq<nat>>, k: nat)
    requires k < |lists|
    ensures CellsOf(lists[..k + 1]) == CellsOf(lists[..k]) + |lists[k]| + 2
  {
    assert lists[..k + 1][..k] == lists[..k];
  }

  /** There is no room for the k-th check block: too many, or a boneyard that is too small. */
  ghost predicate Overflows(m: nat, co: nat, edges: seq<Edge>, lists: seq<seq<nat>>, nodeSpace: nat, boneSpace: nat,
                            k: nat) {
    k < |lists| && (co + k >= nodeSpace || |edges| + 3 * (co - m) + CellsOf(lists[..k + 1]) >= boneSpace)
  }

  ghost predicate FindsEmpty(m: nat, co: nat, edges: seq<Edge>, lists: seq<seq<nat>>) {
    exists k, es, x :: GoesEmpty(m, co, edges, lists, k, es, x)
  }

  /** No amount of peeling recovers the message from all these check blocks. */
  ghost predicate TooFew(m: nat, co: nat, edges: seq<Edge>, lists: seq<seq<nat>>) {
    exists S, x :: FallsShort(m, co, edges, Sent(lists), S, x)
  }

  ghost predicate AllInside(m: nat, S: set<nat>) {
    forall x: nat :: x < m ==> x in S
  }

  ghost predicate Covers(m: nat, co: nat, edges: seq<Edge>, lists: seq<seq<nat>>, S: set<nat>) {
    Closed(m, co, edges, Sent(lists), S) ==> AllInside(m, S)
  }

  /** Peeling recovers the message from these check blocks. */
  ghost predicate Peels(m: nat, co: nat, edges: seq<Edge>, lists: seq<seq<nat>>) {
    forall S :: Covers(m, co, edges, lists, S)
  }

  /** What the program is given: the size of blocks, the code, and how much space there is. */
  datatype Setup = Setup(n: nat, m: nat, co: nat, edges: seq<Edge>, nodeSpace: nat, boneSpace: nat, chkBytes: nat)

  /** There is room for the k-th check block, in the cache, among the nodes and in the boneyard. */
  ghost predicate FitsAt(u: Setup, lists: seq<seq<nat>>, k: nat) {
    && k < |lists| && u.m <= u.co && At(u.n, k + 1) <= u.chkBytes
    && !Overflows(u.m, u.co, u.edges, lists, u.nodeSpace, u.boneSpace, k)
  }

  /** There is room for the first k check blocks. */
  ghost predicate Fits(u: Setup, lists: seq<seq<nat>>, k: nat) {
    k <= |lists| && forall j: nat :: j < k ==> FitsAt(u, lists, j)
  }

  /** There is room for the first k check blocks, but they are too few. */
  ghost predicate GoesOn(u: Setup, lists: seq<seq<nat>>, k: nat) {
    Fits(u, lists, k) && TooFew(u.m, u.co, u.edges, lists[..k])
  }

  ghost predicate EmptyAt(u: Setup, lists: seq<seq<nat>>, k: nat) {
    exists es, x :: GoesEmpty(u.m, u.co, u.edges, lists, k, es, x)
  }

  /** The program ends at the k-th check block, or after k of them.  It goes on to the next check block only if those
      before are too few; the copy into the cache comes before the test for room in the graph. */
  ghost predicate StopsAt(r: Ending, u: Setup, lists: seq<seq<nat>>, k: nat) {
    match r
    case Text(_) =>
      k > 0 && Fits(u, lists, k) && Peels(u.m, u.co, u.edges, lists[..k]) && GoesOn(u, lists, k - 1)
    case CacheOverrun => k < |lists| && GoesOn(u, lists, k) && At(u.n, k + 1) > u.chkBytes
    case NoRoom =>
      && k < |lists| && GoesOn(u, lists, k) && At(u.n, k + 1) <= u.chkBytes && u.m <= u.co
      && Overflows(u.m, u.co, u.edges, lists, u.nodeSpace, u.boneSpace, k)
    case EmptyList => k > 0 && Fits(u, lists, k) && EmptyAt(u, lists, k) && GoesOn(u, lists, k - 1)
    case NeedMore => k == |lists| && GoesOn(u, lists, k)
    case NoGraph => false
  }

  ghost predicate Stops(r: Ending, u: Setup, lists: seq<seq<nat>>) {
    exists k: nat :: StopsAt(r, u, lists, k)
  }

  /** More check blocks do not undo what peeling gives. */
  lemma StillPeels(m: nat, co: nat, edges: seq<Edge>, lists: seq<seq<nat>>, j: nat, k: nat)
    requires j <= k <= |lists| && Peels(m, co, edges, lists[..j])
    ensures !TooFew(m, co, edges, lists[..k])
  {
    forall S, x ensures !FallsShort(m, co, edges, Sent(lists[..k]), S, x) {
      assert Covers(m, co, edges, lists[..j], S);
      if Closed(m, co, edges, Sent(lists[..k]), S) { ClosedForFewer(m, co, edges, lists, j, k, S); }
    }
  }

  lemma ClosedForFewer(m: nat, co: nat, edges: seq<Edge>, lists: seq<seq<nat>>, j: nat, k: nat, S: set<nat>)
    requires j <= k <= |lists| && Closed(m, co, edges, Sent(lists[..k]), S)
    ensures Closed(m, co, edges, Sent(lists[..j]), S)
  {
    forall i: nat | i < j ensures ArrivalPeeled(Sent(lists[..j]), i, S) {
      assert ArrivalPeeled(Sent(lists[..k]), i, S);
    }
  }

  /** If some of the check blocks, all of which fit, are enough for peeling, and no XOR list is empty, the program
      prints the text. */
  lemma TextForced(r: Ending, u: Setup, lists: seq<seq<nat>>, j: nat)
    requires Stops(r, u, lists) && Fits(u, lists, j) && Peels(u.m, u.co, u.edges, lists[..j])
    requires !FindsEmpty(u.m, u.co, u.edges, lists)
    ensures r.Text?
  {
    var k: nat :| StopsAt(r, u, lists, k);
    assert k < j ==> FitsAt(u, lists, k);
    if j <= k { StillPeels(u.m, u.co, u.edges, lists, j, k); }
  }

  /** Where the main loop stands after k check blocks. */
  ghost predicate Turn(s: Session, lists: seq<seq<nat>>, k: nat, finished: bool)
    requires k <= |lists|
    reads s, s.decoder, s.decoder.vCount, s.decoder.top, s.decoder.solution, s.decoder.boneA, s.decoder.boneB,
          s.decoder.upper, s.decoder.left, s.decoder.right, s.dMessage, s.dAux, s.chk
  {
    && s.Valid() && s.Arrived() == Sent(lists[..k]) && finished == s.decoder.graph.done
    && s.decoder.boneNext == |s.edges| + 3 * (s.decoder.co - s.decoder.m) + CellsOf(lists[..k])
    && (!finished ==> LeastClosed(s.decoder.m, s.decoder.co, s.edges, s.Arrived(), SolvedSet(s.decoder.graph)))
  }

  /** The session has this setup. */
  ghost predicate SetUp(s: Session, u: Setup) {
    && s.n == u.n && s.decoder.m == u.m && s.decoder.co == u.co && s.edges == u.edges && u.m <= u.co
    && s.decoder.nodeSpace == u.nodeSpace && s.decoder.boneA.Length == u.boneSpace && s.chk.Length == u.chkBytes
  }

  lemma NotFinished(s: Session, lists: seq<seq<nat>>, k: nat)
    requires k <= |lists| && Turn(s, lists, k, false)
    ensures TooFew(s.decoder.m, s.decoder.co, s.edges, lists[..k])
  {
    DoneMeansAllMessages(s.decoder.graph);
    var x: nat :| x < s.decoder.m && x !in SolvedSet(s.decoder.graph);
    assert FallsShort(s.decoder.m, s.decoder.co, s.edges, Sent(lists[..k]), SolvedSet(s.decoder.graph), x);
  }

  lemma Finished(s: Session, lists: seq<seq<nat>>, k: nat)
    requires k <= |lists| && Turn(s, lists, k, true)
    ensures Peels(s.decoder.m, s.decoder.co, s.edges, lists[..k])
  {
    DoneMeansAllMessages(s.decoder.graph);
    forall S ensures Covers(s.decoder.m, s.decoder.co, s.edges, lists[..k], S) {
      if Closed(s.decoder.m, s.decoder.co, s.edges, Sent(lists[..k]), S) {
        PeelingSound(s.decoder.m, s.decoder.co, s.edges, s.events, S);
      }
    }
  }

  /** One turn of the main loop. */
  method OneCheck(s: Session, message: array<bv8>, cache: array<bv8>, lists: seq<seq<nat>>, k: nat, ghost u: Setup)
    returns (error: Ending, finished: bool)
    requires k < |lists| && Turn(s, lists, k, false) && Within(lists[k], 0, s.decoder.co)
    requires At(s.n, s.decoder.m) <= message.Length && SetUp(s, u) && Fits(u, lists, k)
    requires s.msg == Cut(message[..], s.n, s.decoder.m)
    requires AllStored(s.n, s.msg, s.decoder.co, s.edges, message[..], cache[..])
    modifies s, s.decoder, s.decoder.Arrays(), s.Buffers()
    ensures GoesOn(u, lists, k)
    ensures error != NeedMore ==> !error.Text? && !error.NoGraph? && Stops(error, u, lists)
    ensures error == NeedMore ==> Turn(s, lists, k + 1, finished) && Fits(u, lists, k + 1)
  {
    NotFinished(s, lists, k);
    var a := Deliver(s, message, cache, lists, k, u);
    if !a.Accepted? {
      error, finished := if a.Refused? then NoRoom else CacheOverrun, false;
      assert StopsAt(error, u, lists, k);
      return;
    }
    error, finished := Settle(s, lists, k + 1, u);
    if error == EmptyList { assert StopsAt(error, u, lists, k + 1); }
  }

  /** The first k check blocks have arrived. */
  ghost predicate Delivered(s: Session, lists: seq<seq<nat>>, k: nat)
    requires k <= |lists|
    reads s, s.decoder, s.decoder.vCount, s.decoder.top, s.decoder.solution, s.decoder.boneA, s.decoder.boneB,
          s.decoder.upper, s.decoder.left, s.decoder.right, s.dMessage, s.dAux, s.chk
  {
    && s.Valid() && s.Arrived() == Sent(lists[..k])
    && s.decoder.boneNext == |s.edges| + 3 * (s.decoder.co - s.decoder.m) + CellsOf(lists[..k])
  }

  /** Encode a check block, and hand it to the decoder. */
  method Deliver(s: Session, message: array<bv8>, cache: array<bv8>, lists: seq<seq<nat>>, k: nat, ghost u: Setup)
    returns (a: Acceptance)
    requires k < |lists| && Delivered(s, lists, k) && Within(lists[k], 0, s.decoder.co)
    requires At(s.n, s.decoder.m) <= message.Length && SetUp(s, u)
    requires s.msg == Cut(message[..], s.n, s.decoder.m)
    requires AllStored(s.n, s.msg, s.decoder.co, s.edges, message[..], cache[..])
    modifies s, s.decoder, s.decoder.Arrays(), s.chk
    ensures a.Accepted? ==> Delivered(s, lists, k + 1) && FitsAt(u, lists, k)
    ensures a.Refused? ==>
      At(u.n, k + 1) <= u.chkBytes && Overflows(u.m, u.co, u.edges, lists, u.nodeSpace, u.boneSpace, k)
    ensures a.PastCache? ==> At(u.n, k + 1) > u.chkBytes
  {
    SentNext(lists, k);
    ghost var full := s.CacheFull();
    ghost var tight := s.decoder.nodes >= u.nodeSpace || |lists[k]| + 2 + s.decoder.boneNext >= u.boneSpace;
    Judged(u, lists, k, full, tight);
    var xmit := EncodeCheck(s.n, s.decoder.m, s.decoder.co, message, cache, lists[k], s.edges);
    a := s.Accept(xmit, lists[k]);
    CellsNext(lists, k);
  }

  /** The two tests, in terms of the lists. */
  lemma Judged(u: Setup, lists: seq<seq<nat>>, k: nat, full: bool, tight: bool)
    requires k < |lists| && u.m <= u.co && (full <==> k * u.n + u.n > u.chkBytes)
    requires tight <==>
      u.co + k >= u.nodeSpace
      || |lists[k]| + 2 + (|u.edges| + 3 * (u.co - u.m) + CellsOf(lists[..k])) >= u.boneSpace
    ensures full <==> At(u.n, k + 1) > u.chkBytes
    ensures tight <==> Overflows(u.m, u.co, u.edges, lists, u.nodeSpace, u.boneSpace, k)
    ensures FitsAt(u, lists, k) <==> !full && !tight
  {
    AtTimes(u.n, k);
    CellsNext(lists, k);
  }

  /** Decode what the check blocks so far give. */
  method Settle(s: Session, ghost lists: seq<seq<nat>>, ghost k: nat, ghost u: Setup)
    returns (error: Ending, finished: bool)
    requires k <= |lists| && Delivered(s, lists, k) && SetUp(s, u)
    modifies s, s.decoder, s.decoder.Arrays(), s.Buffers()
    ensures error == NeedMore || error == EmptyList
    ensures error == NeedMore ==> Turn(s, lists, k, finished)
    ensures error == EmptyList ==> EmptyAt(u, lists, k)
  {
    var ok;
    ok, finished := s.Drain();
    if !ok {
      ghost var x := s.log[|s.log| - 1];
      CancelsIff(s.decoder.m, s.decoder.co, s.edges, s.events, s.flags, x);
      assert GoesEmpty(s.decoder.m, s.decoder.co, s.edges, lists, k, s.events, x);
      return EmptyList, false;
    }
    return NeedMore, finished;
  }

  /** Encoder and decoder together.  The block lists, which the program draws at random, are given.  The text that it
      prints is the message; how it ends, and at which check block, is Stops. */
  method RunCodec(n: nat, m: nat, ablocks: nat, checkSpace: nat, boneSpace: nat, chkBytes: nat, flags: Flags,
                  message: array<bv8>, edges: seq<Edge>, lists: seq<seq<nat>>) returns (r: Ending)
    requires At(n, m) <= message.Length && EdgesOk(m, m + ablocks, edges)
    requires forall i :: 0 <= i < |lists| ==> Within(lists[i], 0, m + ablocks)
    ensures r.Text? ==> r.text[..] == message[..At(n, m)]
    ensures r.NoGraph? <==> m < 1 || ablocks < 1 || |edges| + 3 * ablocks >= boneSpace
    ensures !r.NoGraph? ==>
      Stops(r, Setup(n, m, m + ablocks, edges, m + ablocks + checkSpace, boneSpace, chkBytes), lists)
  {
    var g := GraphInit(m, ablocks, checkSpace, boneSpace, edges);
    if g == null {
      return NoGraph;
    }
    var cache := EncodeAux(n, g.m, g.co, message, edges);
    r := RunWith(n, g, chkBytes, flags, message, cache, edges, lists);
  }

  method RunWith(n: nat, g: OcGraph, chkBytes: nat, flags: Flags, message: array<bv8>, cache: array<bv8>,
                 edges: seq<Edge>, lists: seq<seq<nat>>)
    returns (r: Ending)
    requires g.Valid() && 1 <= g.m <= g.co == g.nodes && g.graph == Init(g.m, g.co, edges) && EdgesOk(g.m, g.co, edges)
    requires At(n, g.m) <= message.Length && g.boneNext == |edges| + 3 * (g.co - g.m)
    requires forall i :: 0 <= i < |lists| ==> Within(lists[i], 0, g.co)
    requires {message, cache} !! g.Arrays()
    requires AllStored(n, Cut(message[..], n, g.m), g.co, edges, message[..], cache[..])
    modifies g, g.Arrays()
    ensures !r.NoGraph? && (r.Text? ==> r.text[..] == message[..At(n, g.m)])
    ensures Stops(r, Setup(n, g.m, g.co, edges, g.nodeSpace, g.boneA.Length, chkBytes), lists)
  {
    ghost var text, aux := message[..], cache[..];
    var s := Begin(n, flags, g, message, edges, lists, chkBytes);
    assert message[..] == text && cache[..] == aux;
    r := MainLoop(s, message, cache, lists, Setup(n, g.m, g.co, edges, g.nodeSpace, g.boneA.Length, chkBytes));
  }

  /** The decoder's side, before the first check block. */
  method Begin(n: nat, flags: Flags, g: OcGraph, message: array<bv8>, ghost edges: seq<Edge>,
               ghost lists: seq<seq<nat>>, chkBytes: nat)
    returns (s: Session)
    requires g.Valid() && 1 <= g.m <= g.co == g.nodes && g.graph == Init(g.m, g.co, edges) && EdgesOk(g.m, g.co, edges)
    requires At(n, g.m) <= message.Length && g.boneNext == |edges| + 3 * (g.co - g.m)
    ensures fresh(s) && fresh(s.Buffers()) && s.decoder == g && s.n == n && s.edges == edges
    ensures s.msg == Cut(message[..], n, g.m) && s.dMessage.Length == At(n, g.m) && s.chk.Length == chkBytes
    ensures Turn(s, lists, 0, false)
  {
    s := new Session(n, flags, g, Cut(message[..], n, g.m), edges, chkBytes);
    InitSession(g.m, g.co, edges);
    assert CellsOf(lists[..0]) == 0;
    assert Sent(lists[..0]) == [];
  }

  method MainLoop(s: Session, message: array<bv8>, cache: array<bv8>, lists: seq<seq<nat>>, ghost u: Setup)
    returns (r: Ending)
    requires Turn(s, lists, 0, false) && s.dMessage.Length == At(s.n, s.decoder.m) <= message.Length && SetUp(s, u)
    requires forall i :: 0 <= i < |lists| ==> Within(lists[i], 0, u.co)
    requires s.msg == Cut(message[..], s.n, u.m)
    requires AllStored(s.n, s.msg, u.co, s.edges, message[..], cache[..])
    requires {message, cache} !! {s, s.decoder} + s.Buffers() + s.decoder.Arrays()
    modifies s, s.decoder, s.decoder.Arrays(), s.Buffers()
    ensures !r.NoGraph? && (r.Text? ==> r.text[..] == message[..At(s.n, s.decoder.m)])
    ensures Stops(r, u, lists)
  {
    var k, finished := 0, false;
    while k < |lists| && !finished
      invariant k <= |lists| && Turn(s, lists, k, finished) && Fits(u, lists, k)
      invariant finished ==> k > 0 && GoesOn(u, lists, k - 1)
      invariant message[..] == old(message[..]) && cache[..] == old(cache[..])
      decreases |lists| - k
    {
      var error;
      error, finished := OneCheck(s, message, cache, lists, k, u);
      k := k + 1;
      if error != NeedMore {
        return error;
      }
    }
    if !finished {
      NotFinished(s, lists, k);
      assert StopsAt(NeedMore, u, lists, k);
      return NeedMore;
    }
    Finished(s, lists, k);
    TextDecoded(s, message[..]);
    r := Text(s.dMessage);
    assert StopsAt(r, u, lists, k);
  }
}
