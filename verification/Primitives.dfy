/** Lock, Semaphore and Queue as objects. Each blocking call is cut at its
    yield: one call of AcquireOnce, PutOnce or GetOnce is one pass of the
    loop, and it is made again when its task has been woken. */
module Primitives {
  import opened Wrappers
  import opened WaitRoom
  import opened Rings
  import Semaphores
  import QueueRuns

  /** An array of waiting tasks, first come first. */
  class Waiters {
    const tasks: array<Task>
    var count: nat

    ghost predicate Valid()
      reads this
    {
      count <= tasks.Length == WAITER_MAX
    }

    function Waiting(): (r: seq<Task>)
      reads this, tasks
      requires Valid()
    {
      tasks[..count]
    }

    constructor ()
      ensures Valid() && fresh(tasks) && Waiting() == []
    {
      tasks := new Task[WAITER_MAX](_ => 0);
      count := 0;
    }

    method Park(me: Task)
      requires Valid() && count < WAITER_MAX
      modifies this, tasks
      ensures Valid() && Waiting() == old(Waiting()) + [me]
    {
      tasks[count] := me;
      count := count + 1;
    }

    method WakeFirst() returns (next: Option<Task>)
      requires Valid()
      modifies this, tasks
      ensures Valid()
      ensures next == Popped(old(Waiting()))
      ensures Waiting() == Rest(old(Waiting()))
    {
      if count == 0 {
        return None;
      }
      next := Some(tasks[0]);
      var i := 1;
      while i < count
        invariant 1 <= i <= count == old(count)
        invariant forall k | 0 <= k < i - 1 :: tasks[k] == old(tasks[k + 1])
        invariant forall k | i - 1 <= k < count :: tasks[k] == old(tasks[k])
      {
        tasks[i - 1] := tasks[i];
        i := i + 1;
      }
      count := count - 1;
    }
  }

  class Lock {
    var locked: bool
    const waiters: Waiters

    ghost predicate Valid()
      reads this, waiters
    {
      waiters.Valid()
    }

    ghost function View(): Semaphores.LockState
      reads this, waiters, waiters.tasks
      requires Valid()
    {
      Semaphores.LockState(locked, waiters.Waiting())
    }

    constructor ()
      ensures Valid() && fresh(waiters) && fresh(waiters.tasks)
      ensures View() == Semaphores.FRESH_LOCK.lock
    {
      locked := false;
      waiters := new Waiters();
    }

    method AcquireOnce(me: Task) returns (outcome: Semaphores.Outcome)
      requires Valid()
      modifies this, waiters, waiters.tasks
      ensures Valid()
      ensures (View(), outcome) == Semaphores.LockAcquireOnce(old(View()), me)
    {
      if locked {
        if waiters.count >= WAITER_MAX {
          return Semaphores.Overflow;
        }
        waiters.Park(me);
        return Semaphores.Parked;
      }
      locked := true;
      outcome := Semaphores.Taken;
    }

    /** None when the lock is not locked: the assertion fails. */
    method Release() returns (next: Option<Option<Task>>)
      requires Valid()
      modifies this, waiters, waiters.tasks
      ensures Valid()
      ensures match Semaphores.LockRelease(old(View()))
              case None => next == None && View() == old(View())
              case Some((lock, woken)) => next == Some(woken) && View() == lock
    {
      hide Rest, Popped;
      if !locked {
        return None;
      }
      locked := false;
      var woken := waiters.WakeFirst();
      next := Some(woken);
    }
  }

  class Semaphore {
    var value: int
    const waiters: Waiters

    ghost predicate Valid()
      reads this, waiters
    {
      waiters.Valid()
    }

    ghost function View(): Semaphores.Sem
      reads this, waiters, waiters.tasks
      requires Valid()
    {
      Semaphores.Sem(value, waiters.Waiting())
    }

    constructor (initial: int)
      ensures Valid() && fresh(waiters) && fresh(waiters.tasks)
      ensures View() == Semaphores.Start(initial).sem
    {
      value := initial;
      waiters := new Waiters();
    }

    method AcquireOnce(me: Task) returns (outcome: Semaphores.Outcome)
      requires Valid()
      modifies this, waiters, waiters.tasks
      ensures Valid()
      ensures (View(), outcome) == Semaphores.AcquireOnce(old(View()), me)
    {
      if value <= 0 {
        if waiters.count >= WAITER_MAX {
          return Semaphores.Overflow;
        }
        waiters.Park(me);
        return Semaphores.Parked;
      }
      value := value - 1;
      outcome := Semaphores.Taken;
    }

    method Release() returns (next: Option<Task>)
      requires Valid()
      modifies this, waiters, waiters.tasks
      ensures Valid()
      ensures (View(), next) == Semaphores.Release(old(View()))
    {
      hide Rest, Popped;
      value := value + 1;
      next := waiters.WakeFirst();
    }
  }

  class Queue {
    const ring: Ring<QueueRuns.Item>
    const getWaiters: Waiters
    const putWaiters: Waiters

    ghost predicate Valid()
      reads this, ring, getWaiters, putWaiters
    {
      ring.Valid() && getWaiters.Valid() && putWaiters.Valid()
      && getWaiters != putWaiters && getWaiters.tasks != putWaiters.tasks
    }

    ghost function View(): QueueRuns.Chan
      reads this, ring, ring.buf, getWaiters, getWaiters.tasks, putWaiters, putWaiters.tasks
      requires Valid()
    {
      QueueRuns.Chan(ring.buf.Length, ring.Items(), getWaiters.Waiting(), putWaiters.Waiting())
    }

    ghost function Repr(): set<object>
      reads this
    {
      {this, ring, ring.buf, getWaiters, getWaiters.tasks, putWaiters, putWaiters.tasks}
    }

    constructor (capacity: nat)
      ensures Valid() && fresh(Repr())
      ensures View() == QueueRuns.Start(capacity).chan
    {
      ring := new Ring<QueueRuns.Item>(capacity, 0);
      getWaiters := new Waiters();
      putWaiters := new Waiters();
    }

    method PutOnce(me: Task, item: QueueRuns.Item) returns (outcome: QueueRuns.Outcome)
      requires Valid()
      modifies ring, ring.buf, getWaiters, getWaiters.tasks, putWaiters, putWaiters.tasks
      ensures Valid()
      ensures (View(), outcome) == QueueRuns.PutOnce(old(View()), me, item)
    {
      hide Rest, Popped;
      if ring.count == ring.buf.Length {
        if putWaiters.count >= WAITER_MAX {
          return QueueRuns.Overflow;
        }
        putWaiters.Park(me);
        return QueueRuns.Parked;
      }
      ring.Push(item);
      var next := getWaiters.WakeFirst();
      outcome := QueueRuns.Stored(next);
    }

    method GetOnce(me: Task) returns (outcome: QueueRuns.Outcome)
      requires Valid()
      modifies ring, ring.buf, getWaiters, getWaiters.tasks, putWaiters, putWaiters.tasks
      ensures Valid()
      ensures (View(), outcome) == QueueRuns.GetOnce(old(View()), me)
    {
      hide Rest, Popped;
      if ring.count == 0 {
        if getWaiters.count >= WAITER_MAX {
          return QueueRuns.Overflow;
        }
        getWaiters.Park(me);
        return QueueRuns.Parked;
      }
      var item := ring.Pop();
      var next := putWaiters.WakeFirst();
      outcome := QueueRuns.Fetched(item, next);
    }
  }
}
