/** The task queue of PS3-IDA/05-semaphore/host.c: a circular buffer behind two semaphores. */
module EventQueues {
  import opened Slots

  class EventQueue {
    const tasks: array<nat>
    const args: array<nat>
    const size: nat
    var head: nat
    var tail: nat
    var full: nat            // value of the semaphore of the same name
    var empty: nat
    ghost var shifted: nat   // entries taken out so far
    ghost var contents: seq<(nat, nat)>

    ghost predicate Valid()
      reads this, tasks, args
    {
      && size > 0 && tasks != args && tasks.Length == size == args.Length
      && full == |contents| && full + empty == size
      && tail == SlotOf(shifted, size) && head == SlotOf(shifted + full, size)
      && (forall k :: shifted <= k < shifted + full ==> Holds(k))
    }

    ghost predicate Holds(k: nat)
      requires size > 0 && tasks.Length == size == args.Length && shifted <= k < shifted + |contents|
      reads this, tasks, args
    {
      contents[k - shifted] == (tasks[SlotOf(k, size)], args[SlotOf(k, size)])
    }

    constructor (n: nat)
      requires n > 0
      ensures Valid() && size == n && contents == [] && fresh(tasks) && fresh(args)
    {
      size, head, tail, full, empty, shifted, contents := n, 0, 0, 0, n, 0, [];
      tasks := new nat[n];
      args := new nat[n];
    }

    /** event_queue_push, once the semaphore `empty` lets the caller through. */
    method Push(task: nat, arg: nat)
      requires Valid() && empty > 0
      modifies this, tasks, args
      ensures Valid() && contents == old(contents) + [(task, arg)] && shifted == old(shifted)
    {
      ghost var end := shifted + full;
      empty := empty - 1;
      tasks[head] := task;
      args[head] := arg;
      SlotNext(end, size);
      WrapIsMod(head, size);
      head := (head + 1) % size;
      full := full + 1;
      contents := contents + [(task, arg)];
      forall k | shifted <= k < shifted + full ensures Holds(k) {
        if k < end {
          SlotsDiffer(k, end, size);
          assert old(Holds(k));
        }
      }
    }

    /** event_queue_shift, once the semaphore `full` lets the caller through. */
    method Shift() returns (task: nat, arg: nat)
      requires Valid() && full > 0
      modifies this
      ensures Valid() && (task, arg) == old(contents)[0] && contents == old(contents)[1..]
      ensures shifted == old(shifted) + 1
    {
      assert Holds(shifted);
      full := full - 1;
      task, arg := tasks[tail], args[tail];
      SlotNext(shifted, size);
      WrapIsMod(tail, size);
      tail := (tail + 1) % size;
      empty := empty + 1;
      shifted, contents := shifted + 1, contents[1..];
      forall k | shifted <= k < shifted + full ensures Holds(k) {
        assert old(Holds(k));
      }
    }
  }
}
