/** A binary heap of timers laid out in a sequence, and what one exchange of
    the sift loops keeps. */
module TimerHeap {
  datatype Timer<F> = Timer(deadline: nat, future: F, cancelled: bool)

  function Parent(k: nat): nat
    requires k > 0
  {
    (k - 1) / 2
  }

  predicate Ordered<F>(h: seq<Timer<F>>, k: nat)
  {
    0 < k < |h| ==> h[Parent(k)].deadline <= h[k].deadline
  }

  ghost predicate Heap<F>(h: seq<Timer<F>>)
  {
    forall k: nat :: Ordered(h, k)
  }

  /** The children of i, if any, are not before i's parent. */
  predicate Bridged<F>(h: seq<Timer<F>>, i: nat, k: nat)
  {
    0 < i < |h| && k < |h| && k > 0 && Parent(k) == i ==> h[Parent(i)].deadline <= h[k].deadline
  }

  /** A heap, except that i may be before its parent. */
  ghost predicate Rising<F>(h: seq<Timer<F>>, i: nat)
  {
    && (forall k: nat | k != i :: Ordered(h, k))
    && (forall k: nat :: Bridged(h, i, k))
  }

  /** A heap, except that i may be after its children. */
  ghost predicate Sinking<F>(h: seq<Timer<F>>, i: nat)
  {
    && (forall k: nat | k > 0 && Parent(k) != i :: Ordered(h, k))
    && (forall k: nat :: Bridged(h, i, k))
  }

  function Swap<F>(h: seq<Timer<F>>, i: nat, j: nat): (r: seq<Timer<F>>)
    requires i < |h| && j < |h|
    ensures |r| == |h|
  {
    h[i := h[j]][j := h[i]]
  }

  lemma SwapKeepsEntries<F>(h: seq<Timer<F>>, i: nat, j: nat)
    requires i < |h| && j < |h|
    ensures multiset(Swap(h, i, j)) == multiset(h)
  {}

  lemma StepUp<F>(h: seq<Timer<F>>, i: nat)
    requires 0 < i < |h| && Rising(h, i)
    requires h[Parent(i)].deadline > h[i].deadline
    ensures Rising(Swap(h, i, Parent(i)), Parent(i))
  {
    var p := Parent(i);
    var g := Swap(h, i, p);
    forall k: nat | k != p ensures Ordered(g, k) {
      assert Bridged(h, i, k);
      assert k != i ==> Ordered(h, k);
    }
    forall k: nat ensures Bridged(g, p, k) {
      assert Ordered(h, p);
      assert k != i ==> Ordered(h, k);
    }
  }

  lemma RisenIsHeap<F>(h: seq<Timer<F>>, i: nat)
    requires Rising(h, i) && Ordered(h, i)
    ensures Heap(h)
  {}

  /** s is the child of i that goes up. */
  lemma StepDown<F>(h: seq<Timer<F>>, i: nat, s: nat)
    requires i < s < |h| && Parent(s) == i && Sinking(h, i)
    requires h[s].deadline < h[i].deadline
    requires forall k | 2 * i + 1 <= k <= 2 * i + 2 && k < |h| :: h[s].deadline <= h[k].deadline
    ensures Sinking(Swap(h, i, s), s)
  {
    var g := Swap(h, i, s);
    forall k: nat | k > 0 && Parent(k) != s ensures Ordered(g, k) {
      assert Bridged(h, i, s) && Bridged(h, i, k);
      if Parent(k) == i {
        assert k == 2 * i + 1 || k == 2 * i + 2;
      } else {
        assert Ordered(h, k);
      }
    }
    forall k: nat ensures Bridged(g, s, k) {
      assert k > 0 && Parent(k) == s ==> Ordered(h, k);
    }
  }

  lemma SunkIsHeap<F>(h: seq<Timer<F>>, i: nat)
    requires Sinking(h, i)
    requires forall k | 2 * i + 1 <= k <= 2 * i + 2 && k < |h| :: h[i].deadline <= h[k].deadline
    ensures Heap(h)
  {
    forall k: nat ensures Ordered(h, k) {
      if k > 0 && Parent(k) == i {
        assert k == 2 * i + 1 || k == 2 * i + 2;
      }
    }
  }

  /** The first entry of a heap has the earliest deadline. */
  lemma {:induction false} RootIsEarliest<F>(h: seq<Timer<F>>, k: nat)
    requires Heap(h) && k < |h|
    ensures h[0].deadline <= h[k].deadline
  {
    if k > 0 {
      assert Ordered(h, k);
      RootIsEarliest(h, Parent(k));
    }
  }

  /** A new entry at the end of a heap has only its parent to compare with. */
  lemma AppendRises<F>(h: seq<Timer<F>>, t: Timer<F>)
    requires Heap(h)
    ensures Rising(h + [t], |h|)
  {
    forall k: nat | k != |h| ensures Ordered(h + [t], k) {
      assert Ordered(h, k);
    }
  }

  /** The heap with its first entry replaced by its last, which is dropped. */
  function Promoted<F>(h: seq<Timer<F>>): seq<Timer<F>>
    requires |h| > 0
  {
    if |h| == 1 then [] else h[..|h| - 1][0 := h[|h| - 1]]
  }

  lemma PromotedSinks<F>(h: seq<Timer<F>>)
    requires |h| > 0 && Heap(h)
    ensures Sinking(Promoted(h), 0)
  {
    forall k: nat | k > 0 && Parent(k) != 0 ensures Ordered(Promoted(h), k) {
      assert Ordered(h, k);
    }
  }

  lemma PromotedKeepsEntries<F>(h: seq<Timer<F>>)
    requires |h| > 0
    ensures multiset(Promoted(h)) + multiset{h[0]} == multiset(h)
  {
    var last := h[|h| - 1];
    if |h| == 1 {
      assert h == [last];
    } else {
      var mid := h[1..|h| - 1];
      assert h == [h[0]] + mid + [last];
      assert Promoted(h) == [last] + mid;
    }
  }

  // Firing

  predicate SortedByDeadline<F>(s: seq<Timer<F>>)
  {
    forall i, j | 0 <= i < j < |s| :: s[i].deadline <= s[j].deadline
  }

  ghost predicate EachOnce<F>(s: seq<Timer<F>>)
  {
    forall i, j | 0 <= i < j < |s| :: s[i].future != s[j].future
  }

  predicate Mentions<F(==)>(s: seq<Timer<F>>, f: F)
  {
    exists t <- s :: t.future == f
  }

  lemma MentionsSnoc<F>(s: seq<Timer<F>>, t: Timer<F>, f: F)
    ensures Mentions(s + [t], f) <==> Mentions(s, f) || t.future == f
  {
    assert forall u :: u in s + [t] <==> u in s || u == t;
  }

  /** Of entries taken in order, those that complete their future: not
      cancelled, with a future that is still pending. */
  function Completing<F(==)>(taken: seq<Timer<F>>, pending: set<F>): seq<Timer<F>>
  {
    if taken == [] then [] else
    var t := taken[|taken| - 1];
    var earlier := Completing(taken[..|taken| - 1], pending);
    if !t.cancelled && t.future in pending && !Mentions(earlier, t.future)
    then earlier + [t] else earlier
  }

  lemma CompletingSnoc<F>(taken: seq<Timer<F>>, t: Timer<F>, pending: set<F>)
    ensures var earlier := Completing(taken, pending);
            Completing(taken + [t], pending)
            == if !t.cancelled && t.future in pending && !Mentions(earlier, t.future)
               then earlier + [t] else earlier
  {
    assert (taken + [t])[..|taken|] == taken;
  }

  /** A pending future completes exactly if a live entry for it was taken. */
  lemma {:induction false} CompletesExactly<F>(taken: seq<Timer<F>>, pending: set<F>, f: F)
    ensures Mentions(Completing(taken, pending), f)
            <==> f in pending && exists t <- taken :: !t.cancelled && t.future == f
  {
    if taken != [] {
      var before, t := taken[..|taken| - 1], taken[|taken| - 1];
      assert taken == before + [t];
      CompletesExactly(before, pending, f);
      MentionsSnoc(Completing(before, pending), t, f);
      assert forall u :: u in taken <==> u in before || u == t;
    }
  }

  lemma {:induction false} CompletesSome<F>(taken: seq<Timer<F>>, pending: set<F>)
    ensures forall u <- Completing(taken, pending) :: u in taken
  {
    if taken != [] {
      CompletesSome(taken[..|taken| - 1], pending);
      assert taken == taken[..|taken| - 1] + [taken[|taken| - 1]];
    }
  }

  /** Futures complete in order of deadline, each at most once. */
  lemma {:induction false} CompletesInOrder<F>(taken: seq<Timer<F>>, pending: set<F>)
    requires SortedByDeadline(taken)
    ensures SortedByDeadline(Completing(taken, pending))
    ensures EachOnce(Completing(taken, pending))
  {
    if taken != [] {
      var before := taken[..|taken| - 1];
      CompletesInOrder(before, pending);
      CompletesSome(before, pending);
      var earlier := Completing(before, pending);
      var t, c := taken[|taken| - 1], Completing(taken, pending);
      assert c == earlier || c == earlier + [t];
      if |c| > |earlier| {
        forall i | 0 <= i < |earlier| ensures earlier[i].deadline <= t.deadline && earlier[i].future != t.future {
          assert earlier[i] in before && earlier[i] in earlier;
        }
        assert c == earlier + [t];
        forall i, j | 0 <= i < j < |c| ensures c[i].deadline <= c[j].deadline && c[i].future != c[j].future {
          assert c[i] == earlier[i] && c[j] == if j < |earlier| then earlier[j] else t;
        }
      }
    }
  }

  // Cancelling

  /** The first entry for f is cancelled and forgets its future. */
  function Forget<F(==)>(h: seq<Timer<F>>, f: F, nobody: F): (r: seq<Timer<F>>)
    ensures |r| == |h|
  {
    if h == [] then []
    else if h[0].future == f then [Timer(h[0].deadline, nobody, true)] + h[1..]
    else [h[0]] + Forget(h[1..], f, nobody)
  }

  lemma {:induction false} ForgetAt<F>(h: seq<Timer<F>>, f: F, nobody: F, i: nat)
    requires i < |h| && h[i].future == f
    requires forall k | 0 <= k < i :: h[k].future != f
    ensures Forget(h, f, nobody) == h[i := Timer(h[i].deadline, nobody, true)]
  {
    if i > 0 {
      assert forall k | 0 <= k < i - 1 :: h[1..][k] == h[k + 1];
      ForgetAt(h[1..], f, nobody, i - 1);
    }
  }

  lemma {:induction false} ForgetNothing<F>(h: seq<Timer<F>>, f: F, nobody: F)
    requires forall k | 0 <= k < |h| :: h[k].future != f
    ensures Forget(h, f, nobody) == h
  {
    if h != [] {
      ForgetNothing(h[1..], f, nobody);
    }
  }

  function First<F(==)>(h: seq<Timer<F>>, f: F): (r: nat)
    requires exists i | 0 <= i < |h| :: h[i].future == f
    ensures r < |h| && h[r].future == f && forall k | 0 <= k < r :: h[k].future != f
  {
    if h[0].future == f then 0 else
    assert exists i | 0 <= i < |h| - 1 :: h[1..][i].future == f by {
      var i :| 0 <= i < |h| && h[i].future == f;
      assert h[1..][i - 1] == h[i];
    }
    var r := 1 + First(h[1..], f);
    assert forall k | 1 <= k < r :: h[k] == h[1..][k - 1];
    r
  }

  /** Only the first entry is looked for: none is left that refers to f
      exactly when there was at most one. */
  lemma ForgottenExactly<F>(h: seq<Timer<F>>, f: F, nobody: F)
    requires f != nobody
    ensures (forall k | 0 <= k < |h| :: Forget(h, f, nobody)[k].future != f)
            <==> forall i, j | 0 <= i < j < |h| :: h[i].future != f || h[j].future != f
  {
    if exists i | 0 <= i < |h| :: h[i].future == f {
      var i := First(h, f);
      ForgetAt(h, f, nobody, i);
      if j :| i < j < |h| && h[j].future == f {
        assert Forget(h, f, nobody)[j].future == f;
      }
    } else {
      ForgetNothing(h, f, nobody);
    }
  }

  /** No two entries refer to one future. */
  ghost predicate Single<F>(entries: multiset<Timer<F>>, nobody: F)
  {
    forall t, u | t in entries && u in entries && t.future == u.future != nobody :: t == u && entries[t] == 1
  }

  lemma SingleAdds<F>(entries: multiset<Timer<F>>, t: Timer<F>, nobody: F)
    requires Single(entries, nobody) && (t.future == nobody || forall u <- entries :: u.future != t.future)
    ensures Single(entries + multiset{t}, nobody)
  {}

  lemma SingleLess<F>(entries: multiset<Timer<F>>, fewer: multiset<Timer<F>>, nobody: F)
    requires Single(entries, nobody) && fewer <= entries
    ensures Single(fewer, nobody)
  {
    forall t, u | t in fewer && u in fewer && t.future == u.future != nobody ensures t == u && fewer[t] == 1 {
      assert t in entries && u in entries;
    }
  }

  lemma TwiceIn<F>(h: seq<Timer<F>>, i: nat, j: nat)
    requires i < j < |h| && h[i] == h[j]
    ensures multiset(h)[h[i]] >= 2
  {
    assert h == h[..j] + h[j..];
    assert h[..j][i] == h[i] && h[j..][0] == h[j];
    assert multiset(h) == multiset(h[..j]) + multiset(h[j..]);
  }

  /** So forgetting the first entry of a future forgets it, and the entries
      left still refer to a future once at most. */
  lemma SingleForgotten<F>(h: seq<Timer<F>>, f: F, nobody: F)
    requires f != nobody && Single(multiset(h), nobody)
    ensures forall t <- Forget(h, f, nobody) :: t.future != f
    ensures Single(multiset(Forget(h, f, nobody)), nobody)
    ensures forall t <- Forget(h, f, nobody) :: t.future == nobody || t in h
  {
    forall i, j | 0 <= i < j < |h| ensures h[i].future != f || h[j].future != f {
      if h[i].future == h[j].future == f {
        assert h[i] in multiset(h) && h[j] in multiset(h);
        TwiceIn(h, i, j);
      }
    }
    ForgottenExactly(h, f, nobody);
    if exists i | 0 <= i < |h| :: h[i].future == f {
      var i := First(h, f);
      ForgetAt(h, f, nobody, i);
      var t := Timer(h[i].deadline, nobody, true);
      assert multiset(h[i := t]) == multiset(h) - multiset{h[i]} + multiset{t};
      SingleLess(multiset(h), multiset(h) - multiset{h[i]}, nobody);
      SingleAdds(multiset(h) - multiset{h[i]}, t, nobody);
    } else {
      ForgetNothing(h, f, nobody);
    }
  }

  lemma HeapByDeadline<F>(h: seq<Timer<F>>, i: nat, g: seq<Timer<F>>)
    requires i < |h| && Heap(h) && |g| == |h| && g == h[i := g[i]] && g[i].deadline == h[i].deadline
    ensures Heap(g)
  {
    forall k: nat ensures Ordered(g, k) {
      assert Ordered(h, k);
    }
  }
}
