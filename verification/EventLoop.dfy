/** The loop's ready queue and its timers, updated in place. */
module EventLoop {
  import opened Rings
  import opened TimerHeap

  datatype State = Init | Pending | Suspended | Cancelled | Finished

  class TaskObject {
    var state: State
    var queued: bool
    var queuedForFree: bool

    constructor ()
      ensures state == Init && !queued && !queuedForFree
    {
      state, queued, queuedForFree := Init, false, false;
    }
  }

  /** Tasks of the loop, each at most once. */
  ghost predicate Once(items: seq<TaskObject?>, tasks: set<TaskObject>)
  {
    && (forall t <- items :: t != null && t in tasks)
    && (forall i, j | 0 <= i < j < |items| :: items[i] != items[j])
  }

  lemma OnceWithoutFirst(items: seq<TaskObject?>, first: TaskObject?, rest: seq<TaskObject?>, tasks: set<TaskObject>)
    requires Once(items, tasks) && items == [first] + rest
    ensures Once(rest, tasks) && first != null && first in tasks
    ensures forall t :: t in rest <==> t in items && t != first
  {
    assert items[0] == first && first in items;
    forall i | 0 <= i < |rest| ensures rest[i] == items[i + 1] && items[0] != rest[i] && rest[i] in items {
      assert items[i + 1] == rest[i];
    }
    forall i, j | 0 <= i < j < |rest| ensures rest[i] != rest[j] {
      assert items[i + 1] == rest[i] && items[j + 1] == rest[j];
    }
  }

  lemma OnceMore(items: seq<TaskObject?>, last: TaskObject, tasks: set<TaskObject>)
    requires Once(items, tasks) && last in tasks && last !in items
    ensures Once(items + [last], tasks)
    ensures forall t :: t in items + [last] <==> t in items || t == last
  {}

  class ReadyQueue {
    const ring: Ring<TaskObject?>
    var closing: bool
    ghost var tasks: set<TaskObject>

    /** The ring holds each queued task once and nothing else. */
    ghost predicate Valid()
      reads this, ring, ring.buf, tasks
    {
      && ring.Valid()
      && Once(ring.Items(), tasks)
      && (forall t <- tasks :: t.queued <==> t in ring.Items())
    }

    /** The tests that Enqueue makes before it queues a task. */
    predicate Accepts(t: TaskObject?)
      reads this, t
    {
      t != null && !closing && !t.queuedForFree && t.state != Finished && t.state != Cancelled && !t.queued
    }

    constructor (capacity: nat)
      ensures Valid() && ring.Items() == [] && tasks == {} && !closing
      ensures fresh(ring) && fresh(ring.buf) && ring.buf.Length == capacity
    {
      ring := new Ring<TaskObject?>(capacity, null);
      closing := false;
      tasks := {};
    }

    /** A task that nothing has queued joins the loop. */
    method Register(task: TaskObject?)
      requires Valid()
      requires task != null && task !in tasks ==> !task.queued
      modifies `tasks
      ensures Valid() && tasks == old(tasks) + if task == null then {} else {task}
    {
      if task != null {
        tasks := tasks + {task};
      }
    }

    /** False when the queue overflows, which trips an assertion. */
    method Enqueue(task: TaskObject?) returns (ok: bool)
      requires Valid()
      requires task != null ==> task in tasks
      modifies ring, ring.buf, task
      ensures ok == !(old(Accepts(task)) && old(ring.count) == ring.buf.Length)
      ensures ok ==> Valid()
      ensures ok ==> ring.Items() == old(ring.Items()) + if old(Accepts(task)) then [task] else []
      ensures task != null ==> task.state == old(task.state)
      ensures task != null ==> task.queued == (old(task.queued) || old(Accepts(task)))
    {
      if task == null || closing || task.queuedForFree || task.state == Finished || task.state == Cancelled
         || task.queued {
        return true;
      }
      task.queued := true;
      if ring.count == ring.buf.Length {
        return false;
      }
      OnceMore(ring.Items(), task, tasks);
      ring.Push(task);
      ok := true;
    }

    /** Whatever has been ready longest. */
    method Dequeue() returns (task: TaskObject?)
      requires Valid()
      modifies ring, tasks
      ensures Valid()
      ensures old(ring.Items()) == (if task == null then [] else [task]) + ring.Items()
      ensures task == null <==> old(ring.Items()) == []
      ensures forall t <- tasks :: t.state == old(t.state) && t.queued == (old(t.queued) && t != task)
    {
      hide Once, Ring<TaskObject?>.Items;
      if ring.count == 0 {
        return null;
      }
      ghost var before := ring.Items();
      task := ring.Pop();
      assert task == before[0];
      OnceWithoutFirst(before, task, ring.Items(), tasks);
      task.queued := false;
      assert ring.Items() == before[1..];
    }
  }

  class FutureObject {
    var state: State
    var freed: bool

    constructor ()
      ensures state == Pending && !freed
    {
      state, freed := Pending, false;
    }

    predicate Done()
      reads this
    {
      state == Cancelled || state == Finished
    }

    /** False for the fault of setting a result on a future not pending. */
    method SetResult() returns (ok: bool)
      modifies `state
      ensures ok == (old(state) == Pending)
      ensures state == if ok then Finished else old(state)
    {
      if state != Pending {
        return false;
      }
      state := Finished;
      ok := true;
    }

    method Cancel()
      modifies `state
      ensures state == if old(state) == Finished then Finished else Cancelled
    {
      if !Done() {
        state := Cancelled;
      }
    }

    method Free()
      modifies `freed
      ensures freed
    {
      freed := true;
    }
  }

  type Entry = Timer<FutureObject?>

  lemma OrderedWhen(h: seq<Entry>, i: nat)
    requires i == 0 || (i < |h| && h[(i - 1) / 2].deadline <= h[i].deadline)
    ensures Ordered(h, i)
  {}

  class TimerQueue {
    const timers: array<Entry>
    var count: nat

    ghost predicate Valid()
      reads this, timers
    {
      count <= timers.Length && Heap(timers[..count])
    }

    ghost function Entries(): seq<Entry>
      reads this, timers
      requires count <= timers.Length
    {
      timers[..count]
    }

    /** A future is referred to by one entry at most, and only while it is not
        freed. */
    ghost predicate Sound()
      reads this, timers, FuturesOf(Entries())
      requires count <= timers.Length
    {
      Single(multiset(Entries()), null) && forall f <- FuturesOf(Entries()) :: !f.freed
    }

    constructor (capacity: nat)
      ensures Valid() && Sound() && fresh(timers) && Entries() == [] && timers.Length == capacity
    {
      timers := new Entry[capacity](_ => Timer(0, null, false));
      count := 0;
    }

    method Exchange(i: nat, j: nat)
      requires i < count <= timers.Length && j < count
      modifies timers
      ensures Entries() == Swap(old(Entries()), i, j)
      ensures multiset(Entries()) == multiset(old(Entries()))
    {
      SwapKeepsEntries(Entries(), i, j);
      timers[i], timers[j] := timers[j], timers[i];
      assert Entries() == Swap(old(Entries()), i, j);
    }

    /** Move the entry at start up to its place. */
    method SiftUp(start: nat)
      requires start < count <= timers.Length && Rising(Entries(), start)
      modifies timers
      ensures Valid() && multiset(Entries()) == multiset(old(Entries()))
    {
      hide Heap, Rising, Swap, Ordered;
      var i := start;
      while i > 0
        invariant 0 <= i < count
        invariant Rising(Entries(), i)
        invariant multiset(Entries()) == multiset(old(Entries()))
        decreases i
      {
        var p := (i - 1) / 2;
        if timers[p].deadline <= timers[i].deadline {
          break;
        }
        StepUp(Entries(), i);
        Exchange(i, p);
        i := p;
      }
      OrderedWhen(Entries(), i);
      RisenIsHeap(Entries(), i);
    }

    /** False when the heap overflows, which trips an assertion. */
    method Push(deadline: nat, future: FutureObject?) returns (ok: bool)
      requires Valid()
      modifies this, timers
      ensures Valid() && ok == (old(count) < timers.Length)
      ensures multiset(Entries()) ==
              multiset(old(Entries())) + if ok then multiset{Timer(deadline, future, false)} else multiset{}
    {
      hide Heap, Rising, Ordered;
      if count == timers.Length {
        return false;
      }
      ghost var before := Entries();
      var t := Timer(deadline, future, false);
      timers[count] := t;
      count := count + 1;
      assert Entries() == before + [t];
      AppendRises(before, t);
      SiftUp(count - 1);
      ok := true;
    }

    /** What a task does that is to wait for some time: a new future, and an
        entry for it. */
    method AddTimer(deadline: nat) returns (f: FutureObject, ok: bool)
      requires Valid()
      modifies this, timers
      ensures Valid() && fresh(f) && f.state == Pending && ok == (old(count) < timers.Length)
      ensures multiset(Entries()) ==
              multiset(old(Entries())) + if ok then multiset{Timer(deadline, f, false)} else multiset{}
      ensures old(Sound()) ==> Sound()
    {
      hide Heap, Single;
      ghost var before := Entries();
      f := new FutureObject();
      assert forall t <- before :: t.future != f;
      ok := Push(deadline, f);
      if old(Sound()) {
        SingleAdds(multiset(before), Timer(deadline, f, false), null);
        assert !ok ==> multiset(Entries()) == multiset(before);
        forall g <- FuturesOf(Entries()) ensures g in FuturesOf(before) || g == f {
          var t :| t in Entries() && t.future == g;
          assert t in multiset(Entries());
        }
      }
    }

    /** Move the first entry down to its place. */
    method SiftDown()
      requires count <= timers.Length && Sinking(Entries(), 0)
      modifies timers
      ensures Valid() && multiset(Entries()) == multiset(old(Entries()))
    {
      hide Heap, Sinking, Swap;
      var i := 0;
      while true
        invariant 0 <= i <= count
        invariant Sinking(Entries(), i)
        invariant multiset(Entries()) == multiset(old(Entries()))
        invariant i == count ==> count == 0
        decreases count - i
      {
        var l := 2 * i + 1;
        var r := 2 * i + 2;
        var s := i;
        if l < count && timers[l].deadline < timers[s].deadline {
          s := l;
        }
        if r < count && timers[r].deadline < timers[s].deadline {
          s := r;
        }
        if s == i {
          SunkIsHeap(Entries(), i);
          break;
        }
        StepDown(Entries(), i, s);
        Exchange(i, s);
        i := s;
      }
    }

    /** Taking entries out leaves a sound queue sound. */
    twostate lemma StaysSound()
      requires old(count) <= timers.Length && count <= timers.Length
      requires multiset(Entries()) <= multiset(old(Entries()))
      requires forall f <- FuturesOf(old(Entries())) :: f.freed == old(f.freed)
      ensures old(Sound()) ==> Sound()
    {
      SoundRest(Entries(), old(Entries()));
    }

    /** Drop the first entry. */
    method Pop()
      requires Valid()
      modifies this, timers
      ensures Valid()
      ensures old(count) > 0 ==> multiset(Entries()) + multiset{old(Entries())[0]} == multiset(old(Entries()))
      ensures old(count) == 0 ==> count == 0
      ensures old(Sound()) ==> Sound()
    {
      hide Heap, Sinking, Sound;
      if count == 0 {
        return;
      }
      ghost var before := Entries();
      count := count - 1;
      timers[0] := timers[count];
      assert Entries() == Promoted(before);
      PromotedSinks(before);
      PromotedKeepsEntries(before);
      SiftDown();
      StaysSound();
    }

    /** Take the entry that is due first. */
    method TakeFirst() returns (first: Entry)
      requires Valid() && count > 0
      modifies this, timers
      ensures Valid() && count == old(count) - 1
      ensures first == old(Entries())[0]
      ensures multiset(Entries()) + multiset{first} == multiset(old(Entries()))
      ensures forall t <- Entries() :: t in old(Entries()) && first.deadline <= t.deadline
    {
      first := timers[0];
      ghost var before := Entries();
      Pop();
      forall t <- Entries() ensures t in before && first.deadline <= t.deadline {
        assert t in multiset(Entries()) && t in multiset(before);
        var k :| 0 <= k < |before| && before[k] == t;
        RootIsEarliest(before, k);
      }
    }

    /** Complete the future of an entry, unless it has none, is cancelled or is
        done. */
    static method Complete(te: Entry, completed: seq<Entry>, ghost was: map<FutureObject?, State>)
      returns (more: seq<Entry>)
      requires Fired(was, completed) && (te.future != null ==> te.future in was)
      modifies FuturesOf([te])`state
      ensures Fired(was, more)
      ensures more == if Completes(te, completed, was) then completed + [te] else completed
    {
      hide Mentions;
      more := completed;
      forall f: FutureObject? ensures Mentions(completed + [te], f) <==> Mentions(completed, f) || te.future == f {
        MentionsSnoc(completed, te, f);
      }
      if te.future != null && !te.cancelled && !te.future.Done() {
        var ok := te.future.SetResult();
        if ok {
          more := completed + [te];
        }
      }
    }

    /** Take every entry that is due and complete its future. taken is the
        entries in the order in which they were taken, completed those of them
        that completed their future. */
    method FireTimers(now: nat) returns (ghost taken: seq<Entry>, completed: seq<Entry>)
      requires Valid()
      modifies this, timers, FuturesOf(Entries())`state
      ensures Valid()
      ensures multiset(taken) + multiset(Entries()) == multiset(old(Entries()))
      ensures SortedByDeadline(taken)
      ensures forall t <- taken :: t.deadline <= now
      ensures forall t <- Entries() :: t.deadline > now
      ensures completed == Completing(taken, PendingIn(old(StatesOf(FuturesOf(Entries())))))
      ensures Fired(old(StatesOf(FuturesOf(Entries()))), completed)
      ensures old(Sound()) ==> Sound()
    {
      hide Heap, Single, Mentions, Completing, Batch, FuturesOf, SortedByDeadline, Fired, Completes, StatesOf,
        PendingIn, Sound;
      ghost var all := FuturesOf(Entries());
      ghost var was := StatesOf(all);
      taken, completed := [], [];
      NothingYet(Entries(), all, now);
      while count > 0 && timers[0].deadline <= now
        invariant Valid()
        invariant multiset(taken) + multiset(Entries()) == multiset(old(Entries()))
        invariant Batch(taken, Entries(), now)
        invariant FuturesOf(Entries()) <= all
        invariant completed == Completing(taken, PendingIn(was))
        invariant was.Keys == all && Fired(was, completed)
        decreases count
      {
        ghost var before := Entries();
        var te := TakeFirst();
        BatchSnoc(taken, te, before, Entries(), now);
        FuturesShrink(before, Entries(), te);
        assert te.future != null ==> te.future in all && te.future in was;
        CompletingSnoc(taken, te, PendingIn(was));
        CompletesWhenPending(te, completed, was);
        completed := Complete(te, completed, was);
        taken := taken + [te];
      }
      if count > 0 {
        AllLater(Entries(), now);
      }
      BatchDue(taken, Entries(), now);
      StaysSound();
    }

    /** Cancel and free fut, and make the first entry that refers to it refer
        to nothing: no other one does. */
    method CancelFuture(fut: FutureObject)
      requires Valid()
      modifies timers, fut
      ensures Valid() && Entries() == Forget(old(Entries()), fut, null)
      ensures fut.state == if old(fut.state) == Finished then Finished else Cancelled
      ensures fut.freed
      ensures old(Sound()) ==> Sound() && fut !in FuturesOf(Entries())
    {
      hide Heap, Single, Forget;
      ghost var before := Entries();
      var i := 0;
      while i < count && timers[i].future != fut
        invariant i <= count && Entries() == before
        invariant forall k | 0 <= k < i :: before[k].future != fut
      {
        i := i + 1;
      }
      if i < count {
        timers[i] := Timer(timers[i].deadline, null, true);
        ForgetAt(before, fut, null, i);
        assert Entries() == before[i := Timer(before[i].deadline, null, true)];
        HeapByDeadline(before, i, Entries());
      } else {
        ForgetNothing(before, fut, null);
      }
      fut.Cancel();
      fut.Free();
      SoundForgotten(before, fut);
    }
  }

  ghost function FuturesOf(h: seq<Entry>): set<FutureObject>
  {
    set e <- h | e.future != null :: e.future
  }

  ghost function StatesOf(futures: set<FutureObject>): map<FutureObject?, State>
    reads futures
  {
    map f: FutureObject? | f in futures :: f.state
  }

  ghost function PendingIn(was: map<FutureObject?, State>): set<FutureObject?>
  {
    set f | f in was && was[f] == Pending
  }

  /** The futures that were in these states are finished if they were completed
      since, and otherwise as they were. */
  ghost predicate Fired(was: map<FutureObject?, State>, completed: seq<Entry>)
    reads was.Keys
  {
    && null !in was
    && (forall f <- was :: f != null && f.state == if Mentions(completed, f) then Finished else was[f])
    && (forall t <- completed :: t.future in was && was[t.future] == Pending)
  }

  /** Whether an entry still finds its future pending. */
  ghost predicate Completes(te: Entry, completed: seq<Entry>, was: map<FutureObject?, State>)
  {
    !te.cancelled && te.future in was && was[te.future] == Pending && !Mentions(completed, te.future)
  }

  lemma FuturesShrink(before: seq<Entry>, rest: seq<Entry>, t: Entry)
    requires t in before && forall u <- rest :: u in before
    ensures FuturesOf(rest) <= FuturesOf(before) && (t.future != null ==> t.future in FuturesOf(before))
    ensures FuturesOf([t]) <= FuturesOf(before)
  {}

  lemma SoundRest(rest: seq<Entry>, all: seq<Entry>)
    requires multiset(rest) <= multiset(all)
    ensures Single(multiset(all), null) ==> Single(multiset(rest), null)
    ensures FuturesOf(rest) <= FuturesOf(all)
  {
    hide Single;
    if Single(multiset(all), null) {
      SingleLess(multiset(all), multiset(rest), null);
    }
    forall t <- rest ensures t in all {
      assert t in multiset(rest) && t in multiset(all);
    }
  }

  lemma SoundForgotten(h: seq<Entry>, f: FutureObject)
    ensures var g := Forget(h, f, null);
            Single(multiset(h), null) ==> Single(multiset(g), null) && FuturesOf(g) <= FuturesOf(h) - {f}
  {
    hide Single, Forget;
    if Single(multiset(h), null) {
      SingleForgotten(h, f, null);
    }
  }

  lemma CompletesWhenPending(te: Entry, completed: seq<Entry>, was: map<FutureObject?, State>)
    ensures Completes(te, completed, was) <==>
            !te.cancelled && te.future in PendingIn(was) && !Mentions(completed, te.future)
  {}

  ghost predicate Batch(taken: seq<Entry>, rest: seq<Entry>, now: nat)
  {
    && SortedByDeadline(taken)
    && (forall t <- taken :: t.deadline <= now)
    && (forall t <- taken, u <- rest :: t.deadline <= u.deadline)
  }

  lemma BatchSnoc(taken: seq<Entry>, t: Entry, before: seq<Entry>, rest: seq<Entry>, now: nat)
    requires Batch(taken, before, now) && t in before && t.deadline <= now
    requires forall u <- rest :: u in before && t.deadline <= u.deadline
    ensures Batch(taken + [t], rest, now)
  {
    forall i | 0 <= i < |taken| ensures taken[i].deadline <= t.deadline {
      assert taken[i] in taken;
    }
  }

  lemma NothingYet(rest: seq<Entry>, all: set<FutureObject>, now: nat)
    ensures Batch([], rest, now) && Completing<FutureObject?>([], PendingIn(StatesOf(all))) == []
    ensures StatesOf(all).Keys == all && Fired(StatesOf(all), [])
  {
    assert forall f: FutureObject? :: !Mentions<FutureObject?>([], f);
  }

  lemma BatchDue(taken: seq<Entry>, rest: seq<Entry>, now: nat)
    requires Batch(taken, rest, now)
    ensures SortedByDeadline(taken) && forall t <- taken :: t.deadline <= now
  {}

  lemma AllLater(h: seq<Entry>, now: nat)
    requires Heap(h) && h != [] && h[0].deadline > now
    ensures forall t <- h :: t.deadline > now
  {
    forall k | 0 <= k < |h| ensures h[k].deadline > now {
      RootIsEarliest(h, k);
    }
  }
}
