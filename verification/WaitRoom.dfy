/** A queue of tasks waiting for something that can be counted, and the tasks
    already woken from it that have not run again yet. Another task may take
    what a woken task was woken for, so being woken promises nothing; what
    holds is that nothing on offer is left without a woken task to try for it. */
module WaitRoom {
  import opened Wrappers

  type Task = nat

  /** The arrays of waiters hold this many tasks. */
  const WAITER_MAX: nat := 64

  function Popped(waiting: seq<Task>): Option<Task>
  {
    if waiting == [] then None else Some(waiting[0])
  }

  function Rest(waiting: seq<Task>): seq<Task>
  {
    if waiting == [] then [] else waiting[1..]
  }

  function Woken(woken: set<Task>, next: Option<Task>): set<Task>
  {
    if next.Some? then woken + {next.value} else woken
  }

  /** The task that has waited longest has gone over to the woken. */
  predicate FirstWoken(waiting: seq<Task>, woken: set<Task>, waiting': seq<Task>, woken': set<Task>)
  {
    if waiting == [] then waiting' == [] && woken' == woken
    else waiting == [waiting[0]] + waiting' && woken' == woken + {waiting[0]}
  }

  lemma WakesFirst(waiting: seq<Task>, woken: set<Task>)
    ensures FirstWoken(waiting, woken, Rest(waiting), Woken(woken, Popped(waiting)))
  {}

  lemma WokenOnce(waiting: seq<Task>, woken: set<Task>, w1: seq<Task>, k1: set<Task>, w2: seq<Task>, k2: set<Task>)
    requires FirstWoken(waiting, woken, w1, k1) && FirstWoken(waiting, woken, w2, k2)
    ensures w1 == w2 && k1 == k2
  {
    if waiting != [] {
      assert w1 == waiting[1..] && w2 == waiting[1..];
    }
  }

  /** No task waits twice, and none is both waiting and woken. */
  predicate Tidy(waiting: seq<Task>, woken: set<Task>)
  {
    && (forall i, j | 0 <= i < j < |waiting| :: waiting[i] != waiting[j])
    && (forall t <- waiting :: t !in woken)
  }

  /** No wake-up is lost: while tasks wait, everything free has a woken task
      that will come for it. */
  predicate Covered(waiting: seq<Task>, woken: set<Task>, free: int)
  {
    waiting != [] ==> free <= |woken|
  }

  predicate Outside(t: Task, waiting: seq<Task>, woken: set<Task>)
  {
    t !in waiting && t !in woken
  }

  /** A task that finds nothing free joins the end. */
  lemma ParkKeeps(waiting: seq<Task>, woken: set<Task>, t: Task, free: int)
    requires Tidy(waiting, woken) && t !in waiting && free <= 0
    ensures Tidy(waiting + [t], woken - {t}) && Covered(waiting + [t], woken - {t}, free)
  {}

  /** A task that takes one unit, woken or barging in. */
  lemma TakeKeeps(waiting: seq<Task>, woken: set<Task>, t: Task, free: int)
    requires Tidy(waiting, woken) && Covered(waiting, woken, free)
    ensures Tidy(waiting, woken - {t}) && Covered(waiting, woken - {t}, free - 1)
  {
    if t in woken {
      assert woken == woken - {t} + {t};
    } else {
      assert woken - {t} == woken;
    }
  }

  /** One more unit, and the longest waiting task is woken for it. */
  lemma GiveKeeps(waiting: seq<Task>, woken: set<Task>, free: int)
    requires Tidy(waiting, woken) && Covered(waiting, woken, free)
    ensures Tidy(Rest(waiting), Woken(woken, Popped(waiting)))
    ensures Covered(Rest(waiting), Woken(woken, Popped(waiting)), free + 1)
  {
    if waiting != [] {
      assert waiting[0] in waiting;
      assert waiting == [waiting[0]] + waiting[1..];
    }
  }

  /** Waking a task changes nothing about who is outside. */
  lemma WakeStays(waiting: seq<Task>, woken: set<Task>)
    ensures forall t: Task ::
      Outside(t, Rest(waiting), Woken(woken, Popped(waiting))) == Outside(t, waiting, woken)
  {
    if waiting != [] {
      assert waiting == [waiting[0]] + waiting[1..];
    }
  }

  /** A task leaves the woken by acting; if it parks, it is inside again. */
  lemma ActStays(waiting: seq<Task>, woken: set<Task>, t: Task)
    ensures forall u: Task :: Outside(u, waiting + [t], woken - {t}) == (u != t && Outside(u, waiting, woken))
    ensures t !in waiting ==>
      forall u: Task :: Outside(u, waiting, woken - {t}) == (u == t || Outside(u, waiting, woken))
  {}
}
