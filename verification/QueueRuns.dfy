/** A bounded queue under every schedule. One action is what a task does
    between two of its yields; putters and getters may barge in between. */
module QueueRuns {
  import opened Wrappers
  import opened WaitRoom

  type Item = int

  /** The queue's own contents: items, and the tasks in its two arrays. */
  datatype Chan = Chan(cap: nat, items: seq<Item>, getting: seq<Task>, putting: seq<Task>)

  datatype Outcome =
    | Parked
    | Overflow
    | Stored(next: Option<Task>)
    | Fetched(item: Item, next: Option<Task>)

  /** One pass of put: store, or wait while the queue is full. */
  function PutOnce(c: Chan, t: Task, item: Item): (Chan, Outcome)
  {
    if |c.items| < c.cap then
      (c.(items := c.items + [item], getting := Rest(c.getting)), Stored(Popped(c.getting)))
    else if |c.putting| < WAITER_MAX then
      (c.(putting := c.putting + [t]), Parked)
    else
      (c, Overflow)
  }

  function GetOnce(c: Chan, t: Task): (Chan, Outcome)
  {
    if c.items != [] then
      (c.(items := c.items[1..], putting := Rest(c.putting)), Fetched(c.items[0], Popped(c.putting)))
    else if |c.getting| < WAITER_MAX then
      (c.(getting := c.getting + [t]), Parked)
    else
      (c, Overflow)
  }

  datatype Action =
    | Put(task: Task, item: Item)
    | PutNowait(task: Task, item: Item)
    | Get(task: Task)
    | GetNowait(task: Task)
    | ResumePut(task: Task)
    | ResumeGet(task: Task)

  datatype Deposit = Deposit(task: Task, item: Item)

  /** The queue, the woken tasks of either side, the item each putter still
      carries, and the history: what tasks called put with, what entered the
      queue, and what left it. */
  datatype System = System(
    chan: Chan,
    wokenGetters: set<Task>,
    wokenPutters: set<Task>,
    carried: map<Task, Item>,
    asked: seq<Deposit>,
    entered: seq<Deposit>,
    taken: seq<Item>)

  function Start(cap: nat): System
  {
    System(Chan(cap, [], [], []), {}, {}, map[], [], [], [])
  }

  predicate Idle(s: System, t: Task)
  {
    Outside(t, s.chan.getting, s.wokenGetters) && Outside(t, s.chan.putting, s.wokenPutters)
  }

  function TryPut(s: System, t: Task, item: Item): Option<System>
  {
    match PutOnce(s.chan, t, item)
    case (c, Stored(next)) =>
      Some(s.(chan := c, wokenGetters := Woken(s.wokenGetters, next), wokenPutters := s.wokenPutters - {t},
              carried := s.carried - {t}, entered := s.entered + [Deposit(t, item)]))
    case (c, Parked) =>
      Some(s.(chan := c, wokenPutters := s.wokenPutters - {t}, carried := s.carried[t := item]))
    case _ => None
  }

  function TryGet(s: System, t: Task): Option<System>
  {
    match GetOnce(s.chan, t)
    case (c, Fetched(item, next)) =>
      Some(s.(chan := c, wokenPutters := Woken(s.wokenPutters, next), wokenGetters := s.wokenGetters - {t},
              taken := s.taken + [item]))
    case (c, Parked) => Some(s.(chan := c, wokenGetters := s.wokenGetters - {t}))
    case _ => None
  }

  function Ask(s: System, t: Task, item: Item): System
  {
    s.(asked := s.asked + [Deposit(t, item)])
  }

  /** None for an action that cannot be taken now, and for one that trips an
      assertion. The calls that do not wait change nothing when they fail. */
  function Act(s: System, a: Action): Option<System>
  {
    match a
    case Put(t, item) => if Idle(s, t) then TryPut(Ask(s, t, item), t, item) else None
    case PutNowait(t, item) =>
      if !Idle(s, t) then None else if |s.chan.items| == s.chan.cap then Some(s) else TryPut(Ask(s, t, item), t, item)
    case Get(t) => if Idle(s, t) then TryGet(s, t) else None
    case GetNowait(t) => if !Idle(s, t) then None else if s.chan.items == [] then Some(s) else TryGet(s, t)
    case ResumePut(t) => if t in s.wokenPutters && t in s.carried then TryPut(s, t, s.carried[t]) else None
    case ResumeGet(t) => if t in s.wokenGetters then TryGet(s, t) else None
  }

  function Run(s: System, actions: seq<Action>): Option<System>
    decreases |actions|
  {
    if actions == [] then Some(s) else
    match Act(s, actions[0])
    case None => None
    case Some(s') => Run(s', actions[1..])
  }

  function ItemsOf(log: seq<Deposit>): seq<Item>
  {
    if log == [] then [] else ItemsOf(log[..|log| - 1]) + [log[|log| - 1].item]
  }

  /** The items of one task, in order. */
  function By(log: seq<Deposit>, t: Task): seq<Item>
  {
    if log == [] then [] else
    var last := log[|log| - 1];
    By(log[..|log| - 1], t) + if last.task == t then [last.item] else []
  }

  function Carried(s: System, t: Task): seq<Item>
  {
    if t in s.carried then [s.carried[t]] else []
  }

  /** Items leave in the order in which they entered. */
  ghost predicate InOrder(s: System)
  {
    s.taken + s.chan.items == ItemsOf(s.entered)
  }

  /** What each task asked to put has entered in its order, except the one
      item it still waits with. */
  ghost predicate Accounted(s: System)
  {
    forall t: Task :: By(s.asked, t) == By(s.entered, t) + Carried(s, t)
  }

  /** No wake-up is lost on either side. */
  predicate Awake(s: System)
  {
    && Tidy(s.chan.getting, s.wokenGetters)
    && Tidy(s.chan.putting, s.wokenPutters)
    && Covered(s.chan.getting, s.wokenGetters, |s.chan.items|)
    && Covered(s.chan.putting, s.wokenPutters, s.chan.cap - |s.chan.items|)
  }

  /** A task waits on one side only, and carries an item exactly while it
      waits to put. */
  ghost predicate Sided(s: System)
  {
    && (forall t: Task :: Outside(t, s.chan.getting, s.wokenGetters) || Outside(t, s.chan.putting, s.wokenPutters))
    && (forall t: Task :: t in s.carried <==> !Outside(t, s.chan.putting, s.wokenPutters))
  }

  ghost predicate Inv(s: System)
  {
    |s.chan.items| <= s.chan.cap && InOrder(s) && Accounted(s) && Awake(s) && Sided(s)
  }

  lemma Snoc(log: seq<Deposit>, d: Deposit)
    ensures ItemsOf(log + [d]) == ItemsOf(log) + [d.item]
    ensures forall t: Task :: By(log + [d], t) == By(log, t) + if d.task == t then [d.item] else []
  {
    assert (log + [d])[..|log|] == log;
  }

  /** A task about to act waits in neither array, and is woken on one side at
      most. */
  lemma Elsewhere(s: System, t: Task)
    requires Awake(s) && Sided(s)
    ensures Idle(s, t) || t in s.wokenPutters ==> t !in s.chan.putting && Outside(t, s.chan.getting, s.wokenGetters)
    ensures Idle(s, t) || t in s.wokenGetters ==> t !in s.chan.getting && Outside(t, s.chan.putting, s.wokenPutters)
  {
    assert Outside(t, s.chan.getting, s.wokenGetters) || Outside(t, s.chan.putting, s.wokenPutters);
  }

  lemma PutKeepsAwake(s: System, t: Task, item: Item)
    requires Awake(s) && Sided(s) && |s.chan.items| <= s.chan.cap
    requires Idle(s, t) || t in s.wokenPutters
    requires TryPut(s, t, item).Some?
    ensures Awake(TryPut(s, t, item).value)
  {
    hide Outside, Tidy, Covered, Rest, Woken, Popped, Sided;
    var c := s.chan;
    Elsewhere(s, t);
    if |c.items| < c.cap {
      GiveKeeps(c.getting, s.wokenGetters, |c.items|);
      TakeKeeps(c.putting, s.wokenPutters, t, c.cap - |c.items|);
    } else {
      ParkKeeps(c.putting, s.wokenPutters, t, 0);
    }
  }

  lemma PutKeepsSided(s: System, t: Task, item: Item)
    requires Awake(s) && Sided(s)
    requires Idle(s, t) || t in s.wokenPutters
    requires TryPut(s, t, item).Some?
    ensures Sided(TryPut(s, t, item).value)
  {
    hide Outside, Tidy, Covered, Rest, Woken, Popped, Awake;
    var c := s.chan;
    Elsewhere(s, t);
    ActStays(c.putting, s.wokenPutters, t);
    if |c.items| < c.cap {
      WakeStays(c.getting, s.wokenGetters);
    }
  }

  lemma GetKeepsAwake(s: System, t: Task)
    requires Awake(s) && Sided(s) && |s.chan.items| <= s.chan.cap
    requires Idle(s, t) || t in s.wokenGetters
    requires TryGet(s, t).Some?
    ensures Awake(TryGet(s, t).value)
  {
    hide Outside, Tidy, Covered, Rest, Woken, Popped, Sided;
    var c := s.chan;
    Elsewhere(s, t);
    if c.items != [] {
      GiveKeeps(c.putting, s.wokenPutters, c.cap - |c.items|);
      TakeKeeps(c.getting, s.wokenGetters, t, |c.items|);
    } else {
      ParkKeeps(c.getting, s.wokenGetters, t, 0);
    }
  }

  lemma GetKeepsSided(s: System, t: Task)
    requires Awake(s) && Sided(s)
    requires Idle(s, t) || t in s.wokenGetters
    requires TryGet(s, t).Some?
    ensures Sided(TryGet(s, t).value)
  {
    hide Outside, Tidy, Covered, Rest, Woken, Popped, Awake;
    var c := s.chan;
    Elsewhere(s, t);
    ActStays(c.getting, s.wokenGetters, t);
    if c.items != [] {
      WakeStays(c.putting, s.wokenPutters);
    }
  }

  /** A task asks before it tries, so the account is open by one item. */
  ghost predicate Asking(s: System, t: Task, item: Item)
  {
    forall u: Task :: By(s.asked, u) == By(s.entered, u) + if u == t then [item] else Carried(s, u)
  }

  lemma PutKeepsItems(s: System, t: Task, item: Item)
    requires InOrder(s) && Asking(s, t, item) && TryPut(s, t, item).Some?
    ensures InOrder(TryPut(s, t, item).value)
    ensures Accounted(TryPut(s, t, item).value)
  {
    hide By, ItemsOf, Woken, Rest, Popped;
    Snoc(s.entered, Deposit(t, item));
    assert s.taken + (s.chan.items + [item]) == (s.taken + s.chan.items) + [item];
  }

  lemma GetKeepsItems(s: System, t: Task)
    requires InOrder(s) && Accounted(s) && TryGet(s, t).Some?
    ensures InOrder(TryGet(s, t).value)
    ensures Accounted(TryGet(s, t).value)
  {
    if s.chan.items != [] {
      assert s.chan.items == [s.chan.items[0]] + s.chan.items[1..];
      assert (s.taken + [s.chan.items[0]]) + s.chan.items[1..] == s.taken + s.chan.items;
    }
  }

  lemma AskOpens(s: System, t: Task, item: Item)
    requires Inv(s) && Idle(s, t)
    ensures Asking(Ask(s, t, item), t, item)
    ensures var s' := Ask(s, t, item);
            InOrder(s') && Awake(s') && Sided(s') && Idle(s', t)
  {
    Snoc(s.asked, Deposit(t, item));
  }

  lemma CarriedOpens(s: System, t: Task)
    requires Accounted(s) && t in s.carried
    ensures Asking(s, t, s.carried[t])
  {}

  lemma PutKeeps(s: System, t: Task, item: Item)
    requires |s.chan.items| <= s.chan.cap && InOrder(s) && Awake(s) && Sided(s) && Asking(s, t, item)
    requires Idle(s, t) || t in s.wokenPutters
    requires TryPut(s, t, item).Some?
    ensures Inv(TryPut(s, t, item).value)
  {
    hide InOrder, Accounted, Awake, Sided, Asking, Woken, Rest, Popped;
    PutKeepsAwake(s, t, item);
    PutKeepsSided(s, t, item);
    PutKeepsItems(s, t, item);
  }

  lemma GetKeeps(s: System, t: Task)
    requires Inv(s) && (Idle(s, t) || t in s.wokenGetters)
    requires TryGet(s, t).Some?
    ensures Inv(TryGet(s, t).value)
  {
    hide InOrder, Accounted, Awake, Sided, Asking, Woken, Rest, Popped;
    GetKeepsAwake(s, t);
    GetKeepsSided(s, t);
    GetKeepsItems(s, t);
  }

  lemma ActKeeps(s: System, a: Action)
    requires Inv(s) && Act(s, a).Some?
    ensures Inv(Act(s, a).value)
  {
    hide InOrder, Awake, Sided, Asking, TryPut, TryGet, Idle;
    match a
    case Put(t, item) =>
      AskOpens(s, t, item);
      PutKeeps(Ask(s, t, item), t, item);
    case PutNowait(t, item) =>
      if |s.chan.items| < s.chan.cap {
        AskOpens(s, t, item);
        PutKeeps(Ask(s, t, item), t, item);
      }
    case ResumePut(t) =>
      CarriedOpens(s, t);
      PutKeeps(s, t, s.carried[t]);
    case _ =>
      if Act(s, a) != Some(s) {
        GetKeeps(s, a.task);
      }
  }

  // ----- what each action does -----

  /** The task has put its item in, behind all others, and the getter that has
      waited longest is woken. */
  predicate HasStored(s: System, s': System, t: Task, item: Item)
  {
    && |s.chan.items| < s.chan.cap == s'.chan.cap
    && s'.chan.items == s.chan.items + [item] && s'.entered == s.entered + [Deposit(t, item)]
    && s'.taken == s.taken && s'.carried == s.carried - {t}
    && s'.chan.putting == s.chan.putting && s'.wokenPutters == s.wokenPutters - {t}
    && FirstWoken(s.chan.getting, s.wokenGetters, s'.chan.getting, s'.wokenGetters)
  }

  /** The task waits with its item, behind all others. */
  predicate WaitsToPut(s: System, s': System, t: Task, item: Item)
  {
    && |s.chan.items| >= s.chan.cap && |s.chan.putting| < WAITER_MAX
    && s'.chan == s.chan.(putting := s.chan.putting + [t]) && s'.wokenPutters == s.wokenPutters - {t}
    && s'.carried == s.carried[t := item] && s'.wokenGetters == s.wokenGetters
    && s'.entered == s.entered && s'.taken == s.taken
  }

  /** The task has got the item that entered first, and the putter that has
      waited longest is woken. */
  predicate HasFetched(s: System, s': System, t: Task)
  {
    && |s'.taken| == |s.taken| + 1 && s.taken == s'.taken[..|s.taken|]
    && s.chan.items == [s'.taken[|s.taken|]] + s'.chan.items
    && s'.chan.cap == s.chan.cap && s'.asked == s.asked && s'.entered == s.entered && s'.carried == s.carried
    && s'.chan.getting == s.chan.getting && s'.wokenGetters == s.wokenGetters - {t}
    && FirstWoken(s.chan.putting, s.wokenPutters, s'.chan.putting, s'.wokenPutters)
  }

  predicate WaitsToGet(s: System, s': System, t: Task)
  {
    && s.chan.items == [] && |s.chan.getting| < WAITER_MAX
    && s' == s.(chan := s.chan.(getting := s.chan.getting + [t]), wokenGetters := s.wokenGetters - {t})
  }

  /** What each call is to do. The calls that do not wait leave everything as it
      is where the others would wait. */
  predicate Does(s: System, a: Action, s': System)
  {
    match a
    case Put(t, item) =>
      && Idle(s, t) && s'.asked == s.asked + [Deposit(t, item)]
      && (HasStored(s, s', t, item) || WaitsToPut(s, s', t, item))
    case PutNowait(t, item) =>
      && Idle(s, t)
      && if |s.chan.items| == s.chan.cap then s' == s
         else s'.asked == s.asked + [Deposit(t, item)] && HasStored(s, s', t, item)
    case Get(t) => Idle(s, t) && (HasFetched(s, s', t) || WaitsToGet(s, s', t))
    case GetNowait(t) => Idle(s, t) && if s.chan.items == [] then s' == s else HasFetched(s, s', t)
    case ResumePut(t) =>
      && t in s.wokenPutters && t in s.carried && s'.asked == s.asked
      && (HasStored(s, s', t, s.carried[t]) || WaitsToPut(s, s', t, s.carried[t]))
    case ResumeGet(t) => t in s.wokenGetters && (HasFetched(s, s', t) || WaitsToGet(s, s', t))
  }

  /** Which actions are possible: those of idle tasks and of woken ones, except
      for one that would have to wait in an array that is full. */
  predicate Possible(s: System, a: Action)
  {
    match a
    case Put(t, _) => Idle(s, t) && (|s.chan.items| < s.chan.cap || |s.chan.putting| < WAITER_MAX)
    case PutNowait(t, _) => Idle(s, t)
    case Get(t) => Idle(s, t) && (s.chan.items != [] || |s.chan.getting| < WAITER_MAX)
    case GetNowait(t) => Idle(s, t)
    case ResumePut(t) => t in s.wokenPutters && (|s.chan.items| < s.chan.cap || |s.chan.putting| < WAITER_MAX)
    case ResumeGet(t) => t in s.wokenGetters && (s.chan.items != [] || |s.chan.getting| < WAITER_MAX)
  }

  /** In every state that a run can reach, an action is refused exactly if it
      is not possible. */
  lemma ActPossible(s: System, a: Action)
    requires Inv(s)
    ensures Act(s, a).Some? <==> Possible(s, a)
  {
    hide InOrder, Accounted, Awake, Rest, Woken, Popped;
  }

  /** An action leads to what it is to do and to nothing else. */
  lemma ActDoes(s: System, a: Action, s': System)
    requires Inv(s)
    ensures Act(s, a) == Some(s') <==> Does(s, a, s')
  {
    hide InOrder, Accounted, Awake, Sided, Rest, Woken, Popped;
    WakesFirst(s.chan.getting, s.wokenGetters);
    WakesFirst(s.chan.putting, s.wokenPutters);
    if Does(s, a, s') && Act(s, a).Some? {
      SameResult(s, a, s', Act(s, a).value);
    }
  }

  lemma SameResult(s: System, a: Action, s1: System, s2: System)
    requires Does(s, a, s1) && Does(s, a, s2)
    ensures s1 == s2
  {
    hide FirstWoken;
    if FirstWoken(s.chan.getting, s.wokenGetters, s1.chan.getting, s1.wokenGetters)
       && FirstWoken(s.chan.getting, s.wokenGetters, s2.chan.getting, s2.wokenGetters) {
      WokenOnce(s.chan.getting, s.wokenGetters, s1.chan.getting, s1.wokenGetters, s2.chan.getting, s2.wokenGetters);
    }
    if FirstWoken(s.chan.putting, s.wokenPutters, s1.chan.putting, s1.wokenPutters)
       && FirstWoken(s.chan.putting, s.wokenPutters, s2.chan.putting, s2.wokenPutters) {
      WokenOnce(s.chan.putting, s.wokenPutters, s1.chan.putting, s1.wokenPutters, s2.chan.putting, s2.wokenPutters);
    }
    if |s1.taken| == |s2.taken| == |s.taken| + 1 && s1.taken[..|s.taken|] == s2.taken[..|s.taken|] == s.taken {
      assert s1.taken == s1.taken[..|s.taken|] + [s1.taken[|s.taken|]];
      assert s2.taken == s2.taken[..|s.taken|] + [s2.taken[|s.taken|]];
      if HasFetched(s, s1, a.task) && HasFetched(s, s2, a.task) {
        assert s.chan.items[0] == s1.taken[|s.taken|] == s2.taken[|s.taken|];
        assert s1.chan.items == s.chan.items[1..] == s2.chan.items;
      }
    }
  }

  /** Every state of every run, whoever acts when. */
  lemma {:induction false} QueueRunsKeep(s: System, actions: seq<Action>)
    requires Inv(s) && Run(s, actions).Some?
    ensures Inv(Run(s, actions).value)
    decreases |actions|
  {
    if actions != [] {
      ActKeeps(s, actions[0]);
      QueueRunsKeep(Act(s, actions[0]).value, actions[1..]);
    }
  }

  /** Tasks wait on both sides and nobody is about to run. */
  predicate Stuck(s: System)
  {
    s.wokenGetters == {} && s.wokenPutters == {} && s.chan.getting != [] && s.chan.putting != []
  }

  /** With nobody about to run, getters wait only at an empty queue and putters
      only at a full one; so never both, if the queue can hold something. */
  lemma NeverStuck(cap: nat, actions: seq<Action>)
    requires Run(Start(cap), actions).Some?
    ensures var s := Run(Start(cap), actions).value;
            s.wokenGetters == {} && s.wokenPutters == {} ==>
              && (s.chan.getting != [] ==> s.chan.items == [])
              && (s.chan.putting != [] ==> |s.chan.items| == cap)
    ensures cap > 0 ==> !Stuck(Run(Start(cap), actions).value)
  {
    QueueRunsKeep(Start(cap), actions);
    RunCap(Start(cap), actions);
  }

  /** Only a queue that can hold nothing gets stuck: one task that puts and one
      that gets are enough. */
  lemma StuckWithoutRoom(cap: nat)
    ensures (exists actions: seq<Action> :: Run(Start(cap), actions).Some? && Stuck(Run(Start(cap), actions).value))
            <==> cap == 0
  {
    if actions: seq<Action> :| Run(Start(cap), actions).Some? && Stuck(Run(Start(cap), actions).value) {
      NeverStuck(cap, actions);
    }
    if cap == 0 {
      var put, get := Put(0, 0), Get(1);
      var actions := [put, get];
      var s := Act(Start(cap), put).value;
      var s' := Act(s, get).value;
      assert actions[1..] == [get] && [get][1..] == [];
      assert Run(s', []) == Some(s');
      assert Run(s, [get]) == Some(s');
      assert Run(Start(cap), actions) == Some(s') && Stuck(s');
    }
  }

  lemma {:induction false} RunCap(s: System, actions: seq<Action>)
    requires Run(s, actions).Some?
    ensures Run(s, actions).value.chan.cap == s.chan.cap
    decreases |actions|
  {
    if actions != [] {
      RunCap(Act(s, actions[0]).value, actions[1..]);
    }
  }

  /** When nobody waits to put, exactly what tasks put has been handed out or
      is still inside: per task nothing is lost, doubled or reordered. */
  lemma NothingLost(cap: nat, actions: seq<Action>, t: Task)
    requires Run(Start(cap), actions).Some?
    ensures var s := Run(Start(cap), actions).value;
            && s.taken + s.chan.items == ItemsOf(s.entered)
            && (Outside(t, s.chan.putting, s.wokenPutters) ==> By(s.entered, t) == By(s.asked, t))
  {
    QueueRunsKeep(Start(cap), actions);
  }
}
