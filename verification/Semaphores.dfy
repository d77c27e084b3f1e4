/** Locks and semaphores under every schedule. One action is what a task does
    between two of its yields; after a wake-up the condition is checked again,
    and other tasks may act in between. */
module Semaphores {
  import opened Wrappers
  import opened WaitRoom

  datatype Sem = Sem(value: int, waiting: seq<Task>)

  datatype Outcome = Parked | Taken | Overflow

  /** One pass of the acquiring loop. */
  function AcquireOnce(s: Sem, t: Task): (Sem, Outcome)
  {
    if s.value > 0 then
      (s.(value := s.value - 1), Taken)
    else if |s.waiting| < WAITER_MAX then
      (s.(waiting := s.waiting + [t]), Parked)
    else
      (s, Overflow)
  }

  function Release(s: Sem): (Sem, Option<Task>)
  {
    (Sem(s.value + 1, Rest(s.waiting)), Popped(s.waiting))
  }

  datatype Action = Acquire(task: Task) | Resume(task: Task) | Give(task: Task)

  datatype Event = Acquired(task: Task) | Released(task: Task)

  /** The semaphore, the woken tasks, and what has happened so far. */
  datatype System = System(sem: Sem, woken: set<Task>, log: seq<Event>)

  function Start(initial: int): System
  {
    System(Sem(initial, []), {}, [])
  }

  /** None for an action that cannot be taken now, and for one that trips an
      assertion. */
  function Act(s: System, a: Action): Option<System>
  {
    match a
    case Give(t) =>
      if !Outside(t, s.sem.waiting, s.woken) then None else
      var (sem, next) := Release(s.sem);
      Some(System(sem, Woken(s.woken, next), s.log + [Released(t)]))
    case _ =>
      if a.Acquire? && !Outside(a.task, s.sem.waiting, s.woken) then None else
      if a.Resume? && a.task !in s.woken then None else
      match AcquireOnce(s.sem, a.task)
      case (sem, Taken) => Some(System(sem, s.woken - {a.task}, s.log + [Acquired(a.task)]))
      case (sem, Parked) => Some(System(sem, s.woken - {a.task}, s.log))
      case (_, Overflow) => None
  }

  function Run(s: System, actions: seq<Action>): Option<System>
    decreases |actions|
  {
    if actions == [] then Some(s) else
    match Act(s, actions[0])
    case None => None
    case Some(s') => Run(s', actions[1..])
  }

  /** Acquisitions less releases. */
  function Net(log: seq<Event>): int
  {
    if log == [] then 0 else Net(log[..|log| - 1]) + if log[|log| - 1].Acquired? then 1 else -1
  }

  ghost predicate Inv(initial: int, s: System)
  {
    && Tidy(s.sem.waiting, s.woken)
    && Covered(s.sem.waiting, s.woken, s.sem.value)
    && s.sem.value + Net(s.log) == initial
    && (s.sem.value >= 0 || s.sem.value >= initial)
  }

  lemma NetSnoc(log: seq<Event>, e: Event)
    ensures Net(log + [e]) == Net(log) + if e.Acquired? then 1 else -1
  {
    assert (log + [e])[..|log|] == log;
  }

  lemma ActKeeps(initial: int, s: System, a: Action)
    requires Inv(initial, s) && Act(s, a).Some?
    ensures Inv(initial, Act(s, a).value)
  {
    var free := s.sem.value;
    NetSnoc(s.log, Acquired(a.task));
    NetSnoc(s.log, Released(a.task));
    match a
    case Give(t) =>
      GiveKeeps(s.sem.waiting, s.woken, free);
    case _ =>
      if free > 0 {
        TakeKeeps(s.sem.waiting, s.woken, a.task, free);
      } else {
        ParkKeeps(s.sem.waiting, s.woken, a.task, free);
      }
  }

  // ----- what each action does -----

  /** The task has acquired one unit, or waits behind all others. */
  predicate Tries(s: System, t: Task, s': System)
  {
    && s'.woken == s.woken - {t}
    && if s.sem.value > 0 then
         s'.sem == Sem(s.sem.value - 1, s.sem.waiting) && s'.log == s.log + [Acquired(t)]
       else |s.sem.waiting| < WAITER_MAX && s'.sem == Sem(s.sem.value, s.sem.waiting + [t]) && s'.log == s.log
  }

  /** What each call is to do; giving never waits. */
  predicate Does(s: System, a: Action, s': System)
  {
    match a
    case Acquire(t) => Outside(t, s.sem.waiting, s.woken) && Tries(s, t, s')
    case Resume(t) => t in s.woken && Tries(s, t, s')
    case Give(t) =>
      && Outside(t, s.sem.waiting, s.woken)
      && s'.sem.value == s.sem.value + 1 && s'.log == s.log + [Released(t)]
      && FirstWoken(s.sem.waiting, s.woken, s'.sem.waiting, s'.woken)
  }

  /** Which actions are possible: all, except for one that would have to wait
      in an array that is full. */
  predicate Possible(s: System, a: Action)
  {
    && (if a.Resume? then a.task in s.woken else Outside(a.task, s.sem.waiting, s.woken))
    && (a.Give? || s.sem.value > 0 || |s.sem.waiting| < WAITER_MAX)
  }

  /** An action leads to what it is to do and to nothing else, and is refused
      exactly if it is not possible. */
  lemma ActDoes(s: System, a: Action, s': System)
    ensures Act(s, a) == Some(s') <==> Does(s, a, s')
    ensures Act(s, a).Some? <==> Possible(s, a)
  {
    hide Rest, Woken, Popped;
    WakesFirst(s.sem.waiting, s.woken);
    if a.Give? && Does(s, a, s') {
      WokenOnce(s.sem.waiting, s.woken, s'.sem.waiting, s'.woken,
                Rest(s.sem.waiting), Woken(s.woken, Popped(s.sem.waiting)));
    }
  }

  /** Every state of every run: the value is what acquisitions and releases
      leave of the initial one, no acquisition makes it negative, and no
      wake-up is lost. */
  lemma {:induction false} SemaphoreRuns(initial: int, s: System, actions: seq<Action>)
    requires Inv(initial, s) && Run(s, actions).Some?
    ensures Inv(initial, Run(s, actions).value)
    decreases |actions|
  {
    if actions != [] {
      ActKeeps(initial, s, actions[0]);
      SemaphoreRuns(initial, Act(s, actions[0]).value, actions[1..]);
    }
  }

  /** A run that ends with no task about to try again leaves tasks waiting
      only if nothing is free. */
  lemma NobodyIsForgotten(initial: int, actions: seq<Action>)
    requires Run(Start(initial), actions).Some?
    ensures var s := Run(Start(initial), actions).value;
            s.woken == {} && s.sem.value > 0 ==> s.sem.waiting == []
  {
    SemaphoreRuns(initial, Start(initial), actions);
  }

  // Locks

  datatype LockState = LockState(locked: bool, waiting: seq<Task>)

  function LockAcquireOnce(l: LockState, t: Task): (LockState, Outcome)
  {
    if !l.locked then
      (l.(locked := true), Taken)
    else if |l.waiting| < WAITER_MAX then
      (l.(waiting := l.waiting + [t]), Parked)
    else
      (l, Overflow)
  }

  function LockRelease(l: LockState): Option<(LockState, Option<Task>)>
  {
    if !l.locked then None else Some((LockState(false, Rest(l.waiting)), Popped(l.waiting)))
  }

  datatype LockSystem = LockSystem(lock: LockState, woken: set<Task>, log: seq<Event>)

  function LockAct(s: LockSystem, a: Action): Option<LockSystem>
  {
    match a
    case Give(t) =>
      if !Outside(t, s.lock.waiting, s.woken) then None else
      (match LockRelease(s.lock)
       case None => None
       case Some((lock, next)) => Some(LockSystem(lock, Woken(s.woken, next), s.log + [Released(t)])))
    case _ =>
      if a.Acquire? && !Outside(a.task, s.lock.waiting, s.woken) then None else
      if a.Resume? && a.task !in s.woken then None else
      match LockAcquireOnce(s.lock, a.task)
      case (lock, Taken) => Some(LockSystem(lock, s.woken - {a.task}, s.log + [Acquired(a.task)]))
      case (lock, Parked) => Some(LockSystem(lock, s.woken - {a.task}, s.log))
      case (_, Overflow) => None
  }

  function LockRun(s: LockSystem, actions: seq<Action>): Option<LockSystem>
    decreases |actions|
  {
    if actions == [] then Some(s) else
    match LockAct(s, actions[0])
    case None => None
    case Some(s') => LockRun(s', actions[1..])
  }

  /** A lock is a semaphore that starts at one. */
  function AsSemaphore(s: LockSystem): System
  {
    System(Sem(if s.lock.locked then 0 else 1, s.lock.waiting), s.woken, s.log)
  }

  const FRESH_LOCK: LockSystem := LockSystem(LockState(false, []), {}, [])

  /** Every run of a lock is a run of that semaphore. */
  lemma {:induction false} LockRefinesSemaphore(s: LockSystem, actions: seq<Action>)
    requires LockRun(s, actions).Some?
    ensures Run(AsSemaphore(s), actions) == Some(AsSemaphore(LockRun(s, actions).value))
    decreases |actions|
  {
    if actions != [] {
      assert Act(AsSemaphore(s), actions[0]) == Some(AsSemaphore(LockAct(s, actions[0]).value));
      LockRefinesSemaphore(LockAct(s, actions[0]).value, actions[1..]);
    }
  }

  /** And a lock makes every step that the semaphore can make, except that it
      cannot be released while it is not locked. */
  lemma LockKeepsUp(s: LockSystem, a: Action)
    ensures LockAct(s, a).Some? <==> Act(AsSemaphore(s), a).Some? && (a.Give? ==> s.lock.locked)
  {}

  /** How often t has acquired less how often it has released. */
  function NetOf(log: seq<Event>, t: Task): int
  {
    if log == [] then 0 else
    var e := log[|log| - 1];
    NetOf(log[..|log| - 1], t) +
    if e.task != t then 0 else if e.Acquired? then 1 else -1
  }

  /** Tasks release only what they hold. */
  ghost predicate Disciplined(log: seq<Event>)
  {
    forall k | 0 <= k < |log| && log[k].Released? :: NetOf(log[..k], log[k].task) > 0
  }

  /** The task that holds, by the log: the last one to act, if it acquired. */
  function Holder(log: seq<Event>): Option<Task>
  {
    if log == [] || log[|log| - 1].Released? then None else Some(log[|log| - 1].task)
  }

  predicate Holds(log: seq<Event>, t: Task)
  {
    NetOf(log, t) > 0
  }

  /** Only the holder has acquired once more than it has released. */
  ghost predicate HeldBy(log: seq<Event>, holder: Option<Task>)
  {
    forall t: Task :: NetOf(log, t) == if holder == Some(t) then 1 else 0
  }

  ghost predicate LockInv(s: LockSystem)
  {
    && Inv(1, AsSemaphore(s))
    && (Disciplined(s.log) ==> s.lock.locked == Holder(s.log).Some? && HeldBy(s.log, Holder(s.log)))
  }

  lemma DisciplinedPrefix(log: seq<Event>, e: Event)
    requires Disciplined(log + [e])
    ensures Disciplined(log)
    ensures e.Released? ==> NetOf(log, e.task) > 0
  {
    assert (log + [e])[..|log|] == log;
    assert (log + [e])[|log|] == e;
    forall k | 0 <= k < |log| && log[k].Released? ensures NetOf(log[..k], log[k].task) > 0 {
      assert (log + [e])[..k] == log[..k];
      assert (log + [e])[k] == log[k];
    }
  }

  lemma HeldBySnoc(log: seq<Event>, e: Event)
    requires HeldBy(log, Holder(log)) && Disciplined(log + [e])
    requires e.Acquired? ==> Holder(log).None?
    ensures HeldBy(log + [e], Holder(log + [e]))
  {
    DisciplinedPrefix(log, e);
    assert (log + [e])[..|log|] == log;
    assert (log + [e])[|log|] == e;
    assert e.Released? ==> Holder(log) == Some(e.task);
  }

  lemma LockActKeeps(s: LockSystem, a: Action)
    requires LockInv(s) && LockAct(s, a).Some?
    ensures LockInv(LockAct(s, a).value)
  {
    hide HeldBy, Disciplined, Inv;
    var s' := LockAct(s, a).value;
    assert Inv(1, AsSemaphore(s')) by {
      assert Act(AsSemaphore(s), a) == Some(AsSemaphore(s'));
      ActKeeps(1, AsSemaphore(s), a);
    }
    if s'.log != s.log && Disciplined(s'.log) {
      var e := s'.log[|s.log|];
      DisciplinedPrefix(s.log, e);
      HeldBySnoc(s.log, e);
    }
  }

  /** At any time, under any schedule, at most one task holds the lock, and
      one does exactly when the lock is locked; an unlocked lock with tasks
      waiting has woken one of them. */
  lemma {:induction false} LockExcludes(s: LockSystem, actions: seq<Action>)
    requires LockInv(s) && LockRun(s, actions).Some?
    ensures LockInv(LockRun(s, actions).value)
    decreases |actions|
  {
    if actions != [] {
      LockActKeeps(s, actions[0]);
      LockExcludes(LockAct(s, actions[0]).value, actions[1..]);
    }
  }

  lemma OneHolder(actions: seq<Action>, t: Task, u: Task)
    requires LockRun(FRESH_LOCK, actions).Some?
    ensures var s := LockRun(FRESH_LOCK, actions).value;
            && (!s.lock.locked && s.lock.waiting != [] ==> s.woken != {})
            && (Disciplined(s.log) && Holds(s.log, t) ==> s.lock.locked)
            && (Disciplined(s.log) && Holds(s.log, t) && Holds(s.log, u) ==> t == u)
  {
    LockExcludes(FRESH_LOCK, actions);
  }
}
