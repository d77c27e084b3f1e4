/** Whole scans: when they end, when they cannot, and when they accept. */
module FlowScan {
  import opened Wrappers
  import opened Program
  import opened StackEffects
  import opened FlowSpec

  /** n turns of the loop from scan s. */
  function ScanFrom(ne: NativeEffects, table: Table, w: Word, s: Scan, n: nat): (r: Turn)
    requires JumpsInRange(w) && ScanGood(w, s)
    ensures r.Again? ==> ScanGood(w, r.scan)
    decreases n
  {
    if n == 0 then Again(s)
    else
      match TurnOf(ne, table, w, s)
      case Again(s') => ScanFrom(ne, table, w, s', n - 1)
      case r => r
  }

  lemma {:induction false} OneMoreTurn(ne: NativeEffects, table: Table, w: Word, s: Scan, n: nat)
    requires JumpsInRange(w) && ScanGood(w, s)
    requires ScanFrom(ne, table, w, s, n).Again?
    ensures ScanFrom(ne, table, w, s, n + 1) == TurnOf(ne, table, w, ScanFrom(ne, table, w, s, n).scan)
    decreases n
  {
    hide TurnOf;
    if n > 0 {
      OneMoreTurn(ne, table, w, TurnOf(ne, table, w, s).scan, n - 1);
    } else {
      var t := TurnOf(ne, table, w, s);
      assert t.Again? ==> ScanFrom(ne, table, w, t.scan, 0) == t;
    }
  }

  /** Nothing changes once a scan is over. */
  lemma {:induction false} ScanOver(ne: NativeEffects, table: Table, w: Word, s: Scan, m: nat, n: nat)
    requires JumpsInRange(w) && ScanGood(w, s) && m <= n
    requires !ScanFrom(ne, table, w, s, m).Again?
    ensures ScanFrom(ne, table, w, s, n) == ScanFrom(ne, table, w, s, m)
    decreases m
  {
    hide TurnOf;
    var t := TurnOf(ne, table, w, s);
    if t.Again? {
      ScanOver(ne, table, w, t.scan, m - 1, n - 1);
    }
  }

  lemma TurnExtends(ne: NativeEffects, table: Table, table': Table, w: Word, s: Scan)
    requires JumpsInRange(w) && ScanGood(w, s) && Extends(table, table')
    requires !TurnOf(ne, table, w, s).Waiting?
    ensures TurnOf(ne, table', w, s) == TurnOf(ne, table, w, s)
  {
    hide QueueJump, FallThrough;
  }

  /** Analysing more words does not change what a scan has already done. */
  lemma {:induction false} ScanExtends(ne: NativeEffects, table: Table, table': Table, w: Word, s: Scan, n: nat)
    requires JumpsInRange(w) && ScanGood(w, s) && Extends(table, table')
    requires !ScanFrom(ne, table, w, s, n).Waiting?
    ensures ScanFrom(ne, table', w, s, n) == ScanFrom(ne, table, w, s, n)
    decreases n
  {
    hide TurnOf, Extends;
    if n > 0 {
      TurnExtends(ne, table, table', w, s);
      var t := TurnOf(ne, table, w, s);
      if t.Again? {
        ScanExtends(ne, table, table', w, t.scan, n - 1);
      }
    }
  }

  lemma {:induction false} ScanKeeps(ne: NativeEffects, table: Table, w: Word, s: Scan, n: nat)
    requires JumpsInRange(w) && ScanInv(ne, table, w, s)
    ensures var r := ScanFrom(ne, table, w, s, n);
            && (r.Again? ==> ScanInv(ne, table, w, r.scan))
            && (r.Done? ==> Certifies(ne, table, w, r.scan))
    decreases n
  {
    hide TurnOf, OpDone, Pending;
    if n > 0 {
      TurnKeeps(ne, table, w, s);
      var t := TurnOf(ne, table, w, s);
      if t.Again? {
        ScanKeeps(ne, table, w, t.scan, n - 1);
      }
    }
  }

  // ----- chains of unconditional jumps -----

  /** An unconditional jump that goes somewhere. */
  predicate LiveJump(w: Word, i: int)
  {
    0 <= i < |w.code| && w.code[i].Jump? && w.code[i].disp.Some? && w.code[i].disp != Some(0)
  }

  function JumpTo(w: Word, i: int): int
    requires LiveJump(w, i)
  {
    i + 1 + w.code[i].disp.value
  }

  /** Following unconditional jumps from i comes to rest within m jumps. */
  predicate Rests(w: Word, i: int, m: nat)
    decreases m
  {
    !LiveJump(w, i) || (m > 0 && Rests(w, JumpTo(w, i), m - 1))
  }

  /** Following unconditional jumps from i never comes to rest. */
  ghost predicate Endless(w: Word, i: int)
  {
    forall m: nat :: !Rests(w, i, m)
  }

  lemma EndlessNext(w: Word, i: int)
    requires Endless(w, i)
    ensures LiveJump(w, i) && Endless(w, JumpTo(w, i))
  {
    assert !Rests(w, i, 0);
    forall m: nat
      ensures !Rests(w, JumpTo(w, i), m)
    {
      assert !Rests(w, i, m + 1);
    }
  }

  /** n is the number of jumps until the chain from i rests. */
  ghost predicate IsRank(w: Word, i: int, n: nat)
  {
    Rests(w, i, n) && forall k: nat | k < n :: !Rests(w, i, k)
  }

  lemma {:induction false} FewestJumps(w: Word, i: int, m: nat) returns (n: nat)
    requires Rests(w, i, m)
    ensures IsRank(w, i, n)
    decreases m
  {
    if k: nat :| k < m && Rests(w, i, k) {
      n := FewestJumps(w, i, k);
    } else {
      n := m;
    }
  }

  lemma HasRank(w: Word, i: int)
    requires !Endless(w, i)
    ensures exists n: nat :: IsRank(w, i, n)
  {
    var m: nat :| Rests(w, i, m);
    var n := FewestJumps(w, i, m);
  }

  ghost function Rank(w: Word, i: int): (n: nat)
    requires !Endless(w, i)
    ensures IsRank(w, i, n)
  {
    HasRank(w, i);
    var n: nat :| IsRank(w, i, n);
    n
  }

  lemma RankFalls(w: Word, i: int)
    requires LiveJump(w, i) && !Endless(w, i) && !Endless(w, JumpTo(w, i))
    ensures Rank(w, JumpTo(w, i)) < Rank(w, i)
  {
    assert Rests(w, JumpTo(w, i), Rank(w, i) - 1);
  }

  // ----- a measure that every turn decreases -----

  ghost function RankOf(w: Word, i: int): nat
  {
    if Endless(w, i) then 0 else Rank(w, i)
  }

  /** An upper bound of the ranks of the first n offsets. */
  ghost function RankBound(w: Word, n: nat): (b: nat)
    ensures forall i | 0 <= i < n :: RankOf(w, i) <= b
  {
    if n == 0 then 0 else Max(RankBound(w, n - 1), RankOf(w, n - 1))
  }

  /** The lowest recorded depth. */
  function Lowest(sa: seq<Option<int>>): (lo: int)
    ensures forall i | 0 <= i < |sa| && sa[i].Some? :: lo <= sa[i].value
  {
    if sa == [] then 0
    else
      var lo := Lowest(sa[..|sa| - 1]);
      var last := sa[|sa| - 1];
      assert forall i | 0 <= i < |sa| - 1 :: sa[i] == sa[..|sa| - 1][i];
      if last.Some? && last.value < lo then last.value else lo
  }

  function Unreached(sa: seq<Option<int>>): nat
  {
    if sa == [] then 0 else Unreached(sa[..|sa| - 1]) + if sa[|sa| - 1].None? then 1 else 0
  }

  lemma {:induction false} ReachOne(sa: seq<Option<int>>, j: nat, d: int)
    requires j < |sa| && sa[j].None?
    ensures Unreached(sa[j := Some(d)]) < Unreached(sa)
    decreases |sa|
  {
    var sa' := sa[j := Some(d)];
    var n := |sa| - 1;
    if j < n {
      ReachOne(sa[..n], j, d);
      assert sa'[..n] == sa[..n][j := Some(d)];
    } else {
      assert sa'[..n] == sa[..n];
    }
  }

  /** How far a pending offset can still lead through jumps to offsets already
      reached: a conditional jump lowers the depth, an unconditional one the
      rank. */
  ghost function Weight(w: Word, sa: seq<Option<int>>, i: int): nat
  {
    if 0 <= i < |sa| && sa[i].Some? then
      var span: nat := sa[i].value - Lowest(sa);
      1 + Times(span, RankBound(w, |w.code|) + 1) + RankOf(w, i)
    else 1
  }

  function Times(a: nat, b: nat): nat { a * b }

  ghost function QueueWeight(w: Word, sa: seq<Option<int>>, q: seq<nat>): nat
  {
    if q == [] then 0 else Weight(w, sa, q[0]) + QueueWeight(w, sa, q[1..])
  }

  lemma {:induction false} QueueWeightAppend(w: Word, sa: seq<Option<int>>, q: seq<nat>, j: nat)
    ensures QueueWeight(w, sa, q + [j]) == QueueWeight(w, sa, q) + Weight(w, sa, j)
    decreases |q|
  {
    if q == [] {
      assert q + [j] == [j];
      assert [j][1..] == [];
    } else {
      assert (q + [j])[1..] == q[1..] + [j];
      QueueWeightAppend(w, sa, q[1..], j);
    }
  }

  ghost function ScanWeight(w: Word, s: Scan): nat
  {
    Weight(w, s.sa, s.off) + QueueWeight(w, s.sa, s.toExplore)
  }

  ghost predicate NoEndlessPending(w: Word, s: Scan)
  {
    forall i: nat | Pending(s, i) :: !Endless(w, i)
  }

  lemma SpanFalls(a: nat, b: nat, bound: nat, ra: nat, rb: nat)
    requires b < a && rb <= bound
    ensures Times(b, bound + 1) + rb < Times(a, bound + 1) + ra
  {
    assert a * (bound + 1) >= (b + 1) * (bound + 1) == b * (bound + 1) + bound + 1;
  }

  /** A jump to an offset already reached is lighter than the jump itself. */
  lemma JumpLighter(w: Word, sa: seq<Option<int>>, i: nat, c: int, j: nat)
    requires JumpsInRange(w) && i < |w.code| == |sa| && sa[i] == Some(c)
    requires w.code[i].IsJump() && w.code[i].disp != Some(0) && j == i + 1 + w.code[i].disp.value
    requires sa[j] == Some(c + w.code[i].StackAction())
    requires !Endless(w, i) && !Endless(w, j)
    ensures Weight(w, sa, j) < Weight(w, sa, i)
  {
    var b := RankBound(w, |w.code|);
    if w.code[i].Jump? {
      RankFalls(w, i);
    } else {
      SpanFalls(c - Lowest(sa), c - 1 - Lowest(sa), b, RankOf(w, i), RankOf(w, j));
    }
  }

  /** A turn either reaches a new offset or lightens the pending ones. */
  lemma TurnProgress(ne: NativeEffects, table: Table, w: Word, s: Scan)
    requires JumpsInRange(w) && ScanGood(w, s)
    requires TurnOf(ne, table, w, s).Again?
    requires NoEndlessPending(w, s) && NoEndlessPending(w, TurnOf(ne, table, w, s).scan)
    ensures var s' := TurnOf(ne, table, w, s).scan;
            || Unreached(s'.sa) < Unreached(s.sa)
            || (s'.sa == s.sa && ScanWeight(w, s') < ScanWeight(w, s))
  {
    hide Account, Weight, Endless, Lowest, FallThrough, Accounted, Unreached, QueueWeight;
    var s' := TurnOf(ne, table, w, s).scan;
    var c := s.sa[s.off].value;
    var op := w.code[s.off];
    AccountKeeps(ne, table, op, s, c);
    var (s1, d, mft) := Account(ne, table, op, s, c).value;
    var s2 := QueueJump(w, s1, d).value;
    if op.IsJump() && op.disp != Some(0) {
      var j := s.off + 1 + op.disp.value;
      if s.sa[j].None? {
        ReachOne(s.sa, j, d);
        FallProgress(w, s2, d, mft);
      } else {
        assert s2.sa == s.sa;
        QueueWeightAppend(w, s.sa, s.toExplore, j);
        FallProgress(w, s2, d, mft);
        assert Pending(s, s.off);
        if s'.sa == s.sa {
          QueuedPending(s, s2, s', d, mft, j);
          JumpLighter(w, s.sa, s.off, c, j);
        }
      }
    } else {
      FallProgress(w, s2, d, mft);
      WeightPositive(w, s.sa, s.off);
    }
  }

  lemma QueuedPending(s: Scan, s2: Scan, s': Scan, d: int, mft: bool, j: nat)
    requires s2.off < |s2.sa| && QueueGood(s2)
    requires s2.toExplore == s.toExplore + [j]
    requires FallThrough(s2, d, mft) == Again(s')
    ensures Pending(s', j)
  {
    FallKeeps(s2, d, mft);
    assert s2.toExplore[|s.toExplore|] == j;
  }

  lemma WeightPositive(w: Word, sa: seq<Option<int>>, i: int)
    ensures Weight(w, sa, i) > 0
  {
  }

  /** The second half of a turn: on to a new offset, or to the next in the
      queue, whose weight is all that remains. */
  lemma FallProgress(w: Word, s: Scan, d: int, mft: bool)
    requires s.off < |s.sa| && QueueGood(s) && FallThrough(s, d, mft).Again?
    ensures var s' := FallThrough(s, d, mft).scan;
            || Unreached(s'.sa) < Unreached(s.sa)
            || (s'.sa == s.sa && [s'.off] + s'.toExplore == s.toExplore
                && ScanWeight(w, s') == QueueWeight(w, s.sa, s.toExplore))
  {
    hide Weight, Endless, Lowest;
    if mft && s.sa[s.off + 1].None? {
      ReachOne(s.sa, s.off + 1, d);
    }
  }

  // ----- when a scan ends -----

  /** A scan that never has an endless jump pending comes to an end. */
  lemma {:induction false} Converges(ne: NativeEffects, table: Table, w: Word, s: Scan) returns (n: nat)
    requires JumpsInRange(w) && ScanGood(w, s)
    requires forall m: nat | ScanFrom(ne, table, w, s, m).Again? ::
               NoEndlessPending(w, ScanFrom(ne, table, w, s, m).scan)
    ensures !ScanFrom(ne, table, w, s, n).Again?
    decreases Unreached(s.sa), ScanWeight(w, s)
  {
    hide TurnOf, NoEndlessPending;
    var t := TurnOf(ne, table, w, s);
    assert ScanFrom(ne, table, w, s, 0) == Again(s);
    if t.Again? {
      forall m: nat
        ensures ScanFrom(ne, table, w, s, m + 1) == ScanFrom(ne, table, w, t.scan, m)
      {
      }
      assert ScanFrom(ne, table, w, t.scan, 0) == Again(t.scan);
      forall m: nat | ScanFrom(ne, table, w, t.scan, m).Again?
        ensures NoEndlessPending(w, ScanFrom(ne, table, w, t.scan, m).scan)
      {
        assert ScanFrom(ne, table, w, s, m + 1).Again?;
      }
      assert ScanFrom(ne, table, w, s, 1) == t;
      TurnProgress(ne, table, w, s);
      n := Converges(ne, table, w, t.scan);
      n := n + 1;
    } else {
      n := 1;
    }
  }

  lemma EndlessTurn(ne: NativeEffects, table: Table, w: Word, s: Scan)
    requires JumpsInRange(w) && ScanGood(w, s) && !NoEndlessPending(w, s)
    ensures !TurnOf(ne, table, w, s).Done?
    ensures TurnOf(ne, table, w, s).Again? ==> !NoEndlessPending(w, TurnOf(ne, table, w, s).scan)
  {
    hide Account, Endless, QueueJump, FallThrough, Leads;
    var t := TurnOf(ne, table, w, s);
    var i: nat :| Pending(s, i) && Endless(w, i);
    if !t.Raised? && !t.Waiting? {
      var c := s.sa[s.off].value;
      AccountKeeps(ne, table, w.code[s.off], s, c);
      var (s1, d, mft) := Account(ne, table, w.code[s.off], s, c).value;
      var s2 := QueueJump(w, s1, d).value;
      QueueKeeps(w, s1, d);
      FallKeeps(s2, d, mft);
      if i !in s.toExplore {
        EndlessNext(w, i);
        JumpQueued(w, s1, d);
      }
    }
  }

  lemma JumpQueued(w: Word, s: Scan, d: int)
    requires JumpsInRange(w) && s.off < |w.code| == |s.sa| && QueueGood(s)
    requires LiveJump(w, s.off) && QueueJump(w, s, d).Some?
    ensures JumpTo(w, s.off) in QueueJump(w, s, d).value.toExplore
  {
    var q := QueueJump(w, s, d).value.toExplore;
    assert q[|s.toExplore|] == JumpTo(w, s.off);
  }

  /** A scan with an endless jump pending never finishes: unless it raises, it
      goes on for ever. */
  lemma {:induction false} Diverges(ne: NativeEffects, table: Table, w: Word, s: Scan, n: nat)
    requires JumpsInRange(w) && ScanGood(w, s) && !NoEndlessPending(w, s)
    ensures !ScanFrom(ne, table, w, s, n).Done?
    decreases n
  {
    hide TurnOf, NoEndlessPending;
    if n > 0 {
      EndlessTurn(ne, table, w, s);
      var t := TurnOf(ne, table, w, s);
      if t.Again? {
        Diverges(ne, table, w, t.scan, n - 1);
      }
    }
  }

  /** The shortest such word, a loop with nothing in it: its scan is the same
      after any number of turns. */
  lemma {:induction false} EmptyLoopNeverAnalysed(ne: NativeEffects, table: Table, n: nat)
    ensures var w := Word(0, [Jump(Some(-1))]);
            && JumpsInRange(w) && ScanGood(w, FirstScan(w))
            && ScanFrom(ne, table, w, FirstScan(w), n) == Again(FirstScan(w))
  {
    var w := Word(0, [Jump(Some(-1))]);
    if n > 0 {
      EmptyLoopNeverAnalysed(ne, table, n - 1);
      assert FirstScan(w).sa == [Some(0)];
      var t := TurnOf(ne, table, w, FirstScan(w));
      assert [Some(0)][0 := Some(0)] == [Some(0)];
      assert t == Again(FirstScan(w));
    }
  }

  // ----- acceptance is as wide as it can be -----

  /** A consistent assignment of depths to (some) offsets, containing the
      entry, with a common exit depth x. */
  predicate Typing(ne: NativeEffects, table: Table, w: Word, ty: seq<Option<int>>, x: int)
  {
    && |ty| == |w.code| > 0 && ty[0] == Some(0)
    && forall i | 0 <= i < |ty| && ty[i].Some? :: Typed(ne, table, w, ty, x, i)
  }

  /** What a call of that effect leaves is there for the next opcode. */
  predicate TypedCall(se: SType, ty: seq<Option<int>>, i: nat)
    requires i < |ty| && ty[i].Some?
  {
    se.IsKnown() && (se.NoExit() || (i + 1 < |ty| && ty[i + 1] == Some(ty[i].value + se.Net())))
  }

  predicate Typed(ne: NativeEffects, table: Table, w: Word, ty: seq<Option<int>>, x: int, i: nat)
    requires i < |ty| == |w.code| && ty[i].Some?
  {
    var c := ty[i].value;
    match w.code[i]
    case Call(Native(cc)) => TypedCall(ne(cc), ty, i)
    case Call(Interpreted(k)) => k < |table| && table[k].state == 1 && TypedCall(table[k].effect, ty, i)
    case Call(Unresolved) => false
    case Ret => x == c
    case op =>
      var d := c + op.StackAction();
      && (op.MayFallThrough() ==> i + 1 < |ty| && ty[i + 1] == Some(d))
      && (op.IsJump() && op.disp.Some? ==> 0 <= i + 1 + op.disp.value < |ty| && ty[i + 1 + op.disp.value] == Some(d))
  }

  /** The scan has recorded nothing that the assignment does not say. */
  predicate Agreeing(w: Word, s: Scan, ty: seq<Option<int>>, x: int)
  {
    && |ty| == |s.sa|
    && (forall i | 0 <= i < |s.sa| && s.sa[i].Some? :: s.sa[i] == ty[i])
    && (s.exitSa.Some? ==> s.exitSa == Some(x))
  }

  lemma TypedTurn(ne: NativeEffects, table: Table, w: Word, s: Scan, ty: seq<Option<int>>, x: int)
    requires JumpsInRange(w) && ScanGood(w, s)
    requires Typing(ne, table, w, ty, x) && Agreeing(w, s, ty, x)
    ensures var r := TurnOf(ne, table, w, s);
            && !r.Raised? && !r.Waiting?
            && (r.Again? || r.Done? ==> Agreeing(w, r.scan, ty, x))
  {
    hide Account, QueueJump, FallThrough, Typing, Typed, TypedNext;
    AssignedOff(ne, table, w, s, ty, x);
    var op := w.code[s.off];
    var c := s.sa[s.off].value;
    TypedAccount(ne, table, w, s, ty, x);
    AccountKeeps(ne, table, op, s, c);
    var (s1, d, mft) := Account(ne, table, op, s, c).value;
    TypedQueue(w, s1, ty, x, d, mft);
    TypedFall(w, QueueJump(w, s1, d).value, ty, x, d, mft);
  }

  lemma AssignedOff(ne: NativeEffects, table: Table, w: Word, s: Scan, ty: seq<Option<int>>, x: int)
    requires ScanGood(w, s) && Typing(ne, table, w, ty, x) && Agreeing(w, s, ty, x)
    ensures s.off < |ty| == |w.code| && ty[s.off] == s.sa[s.off] && Typed(ne, table, w, ty, x, s.off)
    ensures w.code[s.off].Call? ==> Analysed(table, w.code[s.off].target)
  {
  }

  /** What the assignment says of the opcodes after the one at off. */
  predicate TypedNext(w: Word, off: nat, ty: seq<Option<int>>, d: int, mft: bool)
    requires off < |w.code| == |ty|
  {
    var op := w.code[off];
    && (mft ==> off + 1 < |ty| && ty[off + 1] == Some(d))
    && (op.IsJump() && op.disp.Some? ==> 0 <= off + 1 + op.disp.value < |ty| && ty[off + 1 + op.disp.value] == Some(d))
  }

  lemma TypedAccount(ne: NativeEffects, table: Table, w: Word, s: Scan, ty: seq<Option<int>>, x: int)
    requires ScanGood(w, s) && |ty| == |w.code| && ty[s.off] == s.sa[s.off]
    requires Typed(ne, table, w, ty, x, s.off) && Agreeing(w, s, ty, x)
    ensures Account(ne, table, w.code[s.off], s, s.sa[s.off].value).Some?
    ensures var (s1, d, mft) := Account(ne, table, w.code[s.off], s, s.sa[s.off].value).value;
            Agreeing(w, s1, ty, x) && TypedNext(w, s.off, ty, d, mft)
  {
  }

  lemma TypedQueue(w: Word, s: Scan, ty: seq<Option<int>>, x: int, d: int, mft: bool)
    requires JumpsInRange(w) && s.off < |w.code| == |s.sa| && QueueGood(s)
    requires Agreeing(w, s, ty, x) && TypedNext(w, s.off, ty, d, mft)
    ensures QueueJump(w, s, d).Some? && Agreeing(w, QueueJump(w, s, d).value, ty, x)
  {
  }

  lemma TypedFall(w: Word, s: Scan, ty: seq<Option<int>>, x: int, d: int, mft: bool)
    requires s.off < |w.code| == |s.sa| && QueueGood(s)
    requires Agreeing(w, s, ty, x) && TypedNext(w, s.off, ty, d, mft)
    ensures var r := FallThrough(s, d, mft);
            (r.Again? || r.Done?) && Agreeing(w, r.scan, ty, x)
  {
  }

  /** A word for which a consistent assignment of depths exists is never
      refused by the scan: with Certifies this makes acceptance exact. */
  lemma {:induction false} TypedNeverRaises(ne: NativeEffects, table: Table, w: Word, s: Scan,
                                            ty: seq<Option<int>>, x: int, n: nat)
    requires JumpsInRange(w) && ScanGood(w, s)
    requires Typing(ne, table, w, ty, x) && Agreeing(w, s, ty, x)
    ensures var r := ScanFrom(ne, table, w, s, n);
            !r.Raised? && !r.Waiting? && (r.Again? || r.Done? ==> Agreeing(w, r.scan, ty, x))
    decreases n
  {
    hide TurnOf, Typing, Agreeing;
    if n > 0 {
      TypedTurn(ne, table, w, s, ty, x);
      var t := TurnOf(ne, table, w, s);
      if t.Again? {
        TypedNeverRaises(ne, table, w, t.scan, ty, x, n - 1);
      }
    }
  }

  /** A finished scan is itself such an assignment. */
  lemma CertificateIsTyping(ne: NativeEffects, table: Table, w: Word, s: Scan)
    requires Certifies(ne, table, w, s)
    ensures Typing(ne, table, w, s.sa, s.exitSa.GetOr(0))
  {
    forall i | 0 <= i < |s.sa| && s.sa[i].Some?
      ensures Typed(ne, table, w, s.sa, s.exitSa.GetOr(0), i)
    {
      assert OpDone(ne, table, w, s, i);
    }
  }

  // ----- a reached endless jump stays pending -----

  /** No offset reached so far starts an endless chain of jumps. */
  ghost predicate AtRest(w: Word, sa: seq<Option<int>>)
  {
    forall i: nat | i < |sa| && sa[i].Some? :: !Endless(w, i)
  }

  /** An offset reached in a turn is pending after it. */
  lemma NewIsPending(ne: NativeEffects, table: Table, w: Word, s: Scan)
    requires JumpsInRange(w) && ScanGood(w, s)
    ensures var r := TurnOf(ne, table, w, s);
            r.Again? || r.Done? ==>
              && |r.scan.sa| == |s.sa|
              && forall i: nat | i < |s.sa| && s.sa[i].None? && r.scan.sa[i].Some? :: r.Again? && Pending(r.scan, i)
  {
    hide Account, QueueJump, FallThrough, Leads, Accounted, OpDone;
    var r := TurnOf(ne, table, w, s);
    if r.Again? || r.Done? {
      var c := s.sa[s.off].value;
      AccountKeeps(ne, table, w.code[s.off], s, c);
      var (s1, d, mft) := Account(ne, table, w.code[s.off], s, c).value;
      QueueKeeps(w, s1, d);
      FallKeeps(QueueJump(w, s1, d).value, d, mft);
    }
  }

  /** While nothing endless is pending, nothing endless has been reached. */
  lemma RestTurn(ne: NativeEffects, table: Table, w: Word, s: Scan)
    requires JumpsInRange(w) && ScanGood(w, s) && NoEndlessPending(w, s) && AtRest(w, s.sa)
    ensures var r := TurnOf(ne, table, w, s);
            && (r.Again? && NoEndlessPending(w, r.scan) ==> AtRest(w, r.scan.sa))
            && (r.Done? ==> AtRest(w, r.scan.sa))
  {
    hide TurnOf, Endless;
    NewIsPending(ne, table, w, s);
  }

  lemma {:induction false} DoneAtRest(ne: NativeEffects, table: Table, w: Word, s: Scan, n: nat)
    requires JumpsInRange(w) && ScanGood(w, s)
    requires NoEndlessPending(w, s) ==> AtRest(w, s.sa)
    requires ScanFrom(ne, table, w, s, n).Done?
    ensures AtRest(w, ScanFrom(ne, table, w, s, n).scan.sa)
    decreases n
  {
    hide TurnOf, NoEndlessPending, AtRest;
    if NoEndlessPending(w, s) {
      RestTurn(ne, table, w, s);
      var t := TurnOf(ne, table, w, s);
      if t.Again? {
        DoneAtRest(ne, table, w, t.scan, n - 1);
      }
    } else {
      Diverges(ne, table, w, s, n);
    }
  }

  // ----- the queue is fair -----

  /** Offsets reached and not dealt with. */
  ghost function Undone(ne: NativeEffects, table: Table, w: Word, s: Scan): set<nat>
    requires |s.sa| == |w.code|
  {
    set i: nat | i < |s.sa| && s.sa[i].Some? && !OpDone(ne, table, w, s, i)
  }

  /** The place of the first element of u in q. */
  function Place(q: seq<nat>, u: set<nat>): nat
  {
    if q == [] || q[0] in u then 0 else 1 + Place(q[1..], u)
  }

  lemma {:induction false} PlaceAppend(q: seq<nat>, z: seq<nat>, u: set<nat>, i: nat)
    requires i < |q| && q[i] in u
    ensures Place(q + z, u) == Place(q, u)
    decreases |q|
  {
    if q[0] !in u {
      assert (q + z)[1..] == q[1..] + z;
      PlaceAppend(q[1..], z, u, i - 1);
    }
  }

  /** The offset of a turn is dealt with in it; unless a new one is reached,
      the others move up. */
  lemma TurnMovesUp(ne: NativeEffects, table: Table, w: Word, s: Scan) returns (z: seq<nat>)
    requires JumpsInRange(w) && ScanGood(w, s) && TurnOf(ne, table, w, s).Again?
    ensures var s' := TurnOf(ne, table, w, s).scan;
            || Unreached(s'.sa) < Unreached(s.sa)
            || (s'.sa == s.sa && Grows(s, s') && OpDone(ne, table, w, s', s.off)
                && [s'.off] + s'.toExplore == s.toExplore + z)
  {
    hide Account, FallThrough, Accounted, Unreached, OpDone, Analysed, ScanWeight, QueueWeight;
    var s' := TurnOf(ne, table, w, s).scan;
    var c := s.sa[s.off].value;
    var op := w.code[s.off];
    AccountKeeps(ne, table, op, s, c);
    var (s1, d, mft) := Account(ne, table, op, s, c).value;
    var s2 := QueueJump(w, s1, d).value;
    QueueKeeps(w, s1, d);
    FallKeeps(s2, d, mft);
    FallProgress(w, s2, d, mft);
    OffDone(ne, table, w, s1, s2, s', c, d, mft);
    z := [];
    if op.IsJump() && op.disp != Some(0) {
      var j := s.off + 1 + op.disp.value;
      z := [j];
      if s.sa[j].None? {
        ReachOne(s.sa, j, d);
      } else {
        assert s2.sa == s.sa;
      }
    } else {
      assert s2.toExplore == s.toExplore + z;
    }
  }

  /** A turn reaches a new offset, deals with one, or brings the first one not
      dealt with nearer. */
  lemma FairTurn(ne: NativeEffects, table: Table, w: Word, s: Scan)
    requires JumpsInRange(w) && ScanInv(ne, table, w, s) && TurnOf(ne, table, w, s).Again?
    requires Undone(ne, table, w, s) != {}
    ensures var s' := TurnOf(ne, table, w, s).scan;
            var u, u' := Undone(ne, table, w, s), Undone(ne, table, w, s');
            || Unreached(s'.sa) < Unreached(s.sa)
            || (s'.sa == s.sa && u' < u)
            || (s'.sa == s.sa && u' == u && Place([s'.off] + s'.toExplore, u') < Place([s.off] + s.toExplore, u))
  {
    hide TurnOf, OpDone, Unreached;
    var s' := TurnOf(ne, table, w, s).scan;
    var z := TurnMovesUp(ne, table, w, s);
    if Unreached(s'.sa) >= Unreached(s.sa) {
      var u, u' := Undone(ne, table, w, s), Undone(ne, table, w, s');
      forall i | i in u' ensures i in u && i != s.off {
        if OpDone(ne, table, w, s, i) {
          OpDoneGrows(ne, table, w, s, s', i);
        }
      }
      if u' == u {
        var i :| i in u;
        assert Pending(s, i);
        var k :| 0 <= k < |s.toExplore| && s.toExplore[k] == i;
        PlaceAppend(s.toExplore, z, u, k);
        assert ([s.off] + s.toExplore)[1..] == s.toExplore;
      }
    }
  }

  /** A scan with nothing left to deal with has found a typing, whatever is
      still queued. */
  lemma SettledIsTyping(ne: NativeEffects, table: Table, w: Word, s: Scan)
    requires w.code != [] && ScanInv(ne, table, w, s) && Undone(ne, table, w, s) == {}
    ensures Typing(ne, table, w, s.sa, s.exitSa.GetOr(0))
  {
    forall i | 0 <= i < |s.sa| && s.sa[i].Some? ensures OpDone(ne, table, w, s, i) {
      assert i !in Undone(ne, table, w, s);
    }
    assert Certifies(ne, table, w, s);
    CertificateIsTyping(ne, table, w, s);
  }

  /** The scan of a word that cannot be typed comes to an end. */
  lemma {:induction false} UntypedEnds(ne: NativeEffects, table: Table, w: Word, s: Scan) returns (n: nat)
    requires JumpsInRange(w) && w.code != [] && ScanInv(ne, table, w, s)
    requires !Typable(ne, table, w)
    ensures !ScanFrom(ne, table, w, s, n).Again?
    decreases Unreached(s.sa), Undone(ne, table, w, s), Place([s.off] + s.toExplore, Undone(ne, table, w, s))
  {
    hide TurnOf, Typing, OpDone, Undone, Unreached, Place, Certifies;
    if Undone(ne, table, w, s) == {} {
      SettledIsTyping(ne, table, w, s);
      assert false;
    }
    var t := TurnOf(ne, table, w, s);
    if t.Again? {
      TurnKeeps(ne, table, w, s);
      FairTurn(ne, table, w, s);
      n := UntypedEnds(ne, table, w, t.scan);
      n := n + 1;
    } else {
      n := 1;
    }
  }

  // ----- what a scan comes to -----

  ghost predicate Typable(ne: NativeEffects, table: Table, w: Word)
  {
    exists ty: seq<Option<int>>, x: int :: Typing(ne, table, w, ty, x)
  }

  /** The word can be typed without any offset on an endless chain of jumps. */
  ghost predicate TypableAtRest(ne: NativeEffects, table: Table, w: Word)
  {
    exists ty: seq<Option<int>>, x: int :: Typing(ne, table, w, ty, x) && AtRest(w, ty)
  }

  /** A word that can be typed at all can be typed at rest. */
  ghost predicate Settles(ne: NativeEffects, table: Table, w: Word)
  {
    Typable(ne, table, w) ==> TypableAtRest(ne, table, w)
  }

  lemma TypingStart(ne: NativeEffects, table: Table, w: Word, ty: seq<Option<int>>, x: int)
    requires w.code != [] && Typing(ne, table, w, ty, x)
    ensures Agreeing(w, FirstScan(w), ty, x)
  {
  }

  lemma TypedAtRest(ne: NativeEffects, table: Table, w: Word, s: Scan, ty: seq<Option<int>>, x: int)
    requires ScanGood(w, s) && Agreeing(w, s, ty, x) && AtRest(w, ty)
    ensures NoEndlessPending(w, s)
  {
    hide Endless;
  }

  lemma DoneIsTyping(ne: NativeEffects, table: Table, w: Word, n: nat)
    requires JumpsInRange(w) && w.code != [] && ScanFrom(ne, table, w, FirstScan(w), n).Done?
    ensures TypableAtRest(ne, table, w)
  {
    hide Typing, Endless, TurnOf, Certifies;
    var s := FirstScan(w);
    InitialScan(ne, table, w);
    ScanKeeps(ne, table, w, s, n);
    CertificateIsTyping(ne, table, w, ScanFrom(ne, table, w, s, n).scan);
    assert Pending(s, 0);
    DoneAtRest(ne, table, w, s, n);
  }

  lemma TypingIsDone(ne: NativeEffects, table: Table, w: Word) returns (n: nat)
    requires JumpsInRange(w) && w.code != [] && TypableAtRest(ne, table, w)
    ensures ScanFrom(ne, table, w, FirstScan(w), n).Done?
  {
    hide Typing, Endless, TurnOf, Agreeing, AtRest, NoEndlessPending, ScanGood;
    var s := FirstScan(w);
    InitialScan(ne, table, w);
    var ty, x :| Typing(ne, table, w, ty, x) && AtRest(w, ty);
    TypingStart(ne, table, w, ty, x);
    StartGood(w);
    forall m: nat | ScanFrom(ne, table, w, s, m).Again?
      ensures NoEndlessPending(w, ScanFrom(ne, table, w, s, m).scan)
    {
      TypedNeverRaises(ne, table, w, s, ty, x, m);
      TypedAtRest(ne, table, w, ScanFrom(ne, table, w, s, m).scan, ty, x);
    }
    n := Converges(ne, table, w, s);
    TypedNeverRaises(ne, table, w, s, ty, x, n);
  }

  lemma StartGood(w: Word)
    requires w.code != []
    ensures ScanGood(w, FirstScan(w))
  {}

  /** The scan accepts a word exactly when it has a typing that reaches no
      endless jump, and raises (or waits for a word not analysed) exactly when
      it has no typing at all. On what is left, words all of whose typings
      reach an endless jump, it goes on for ever. */
  lemma ScanDecides(ne: NativeEffects, table: Table, w: Word)
    requires JumpsInRange(w) && w.code != []
    ensures (exists n: nat :: ScanFrom(ne, table, w, FirstScan(w), n).Done?) <==> TypableAtRest(ne, table, w)
    ensures (exists n: nat :: GivesUp(ScanFrom(ne, table, w, FirstScan(w), n))) <==> !Typable(ne, table, w)
    ensures (forall n: nat :: ScanFrom(ne, table, w, FirstScan(w), n).Again?) <==>
            Typable(ne, table, w) && !TypableAtRest(ne, table, w)
  {
    hide Typing, TurnOf, ScanFrom, AtRest, Agreeing;
    var s := FirstScan(w);
    InitialScan(ne, table, w);
    if n: nat :| ScanFrom(ne, table, w, s, n).Done? {
      DoneIsTyping(ne, table, w, n);
    }
    if TypableAtRest(ne, table, w) {
      var n := TypingIsDone(ne, table, w);
    }
    if ty: seq<Option<int>>, x: int :| Typing(ne, table, w, ty, x) {
      TypingStart(ne, table, w, ty, x);
      forall n: nat ensures !GivesUp(ScanFrom(ne, table, w, s, n)) {
        TypedNeverRaises(ne, table, w, s, ty, x, n);
      }
    } else {
      var n := UntypedEnds(ne, table, w, s);
      if ScanFrom(ne, table, w, s, n).Done? {
        DoneIsTyping(ne, table, w, n);
      }
      assert GivesUp(ScanFrom(ne, table, w, s, n));
    }
  }

  /** The scan gives the word up, or has to wait. */
  predicate GivesUp(r: Turn) { r.Raised? || r.Waiting? }

  /** r holds the entry and, with an offset, those that control can go on to. */
  predicate ClosedOffsets(w: Word, r: set<int>)
  {
    0 in r && forall i | i in r && 0 <= i < |w.code| :: LeadsInto(w, r, i)
  }

  predicate LeadsInto(w: Word, r: set<int>, i: nat)
    requires i < |w.code|
  {
    && (w.code[i].MayFallThrough() ==> i + 1 in r)
    && (w.code[i].IsJump() && w.code[i].disp.Some? ==> i + 1 + w.code[i].disp.value in r)
  }

  /** A check on the code alone: the scan of a word ends, whatever is known of
      its callees, if no offset that its jumps can lead to is endless. */
  lemma RestingSettles(ne: NativeEffects, table: Table, w: Word, r: set<int>)
    requires ClosedOffsets(w, r) && forall i | i in r :: !Endless(w, i)
    ensures Settles(ne, table, w)
  {
    hide Endless;
    if ty: seq<Option<int>>, x: int :| Typing(ne, table, w, ty, x) {
      var ty' := seq(|ty|, i requires 0 <= i < |ty| => if i in r then ty[i] else None);
      forall i | 0 <= i < |ty'| && ty'[i].Some? ensures Typed(ne, table, w, ty', x, i) {
        assert Typed(ne, table, w, ty, x, i) && LeadsInto(w, r, i);
      }
      assert Typing(ne, table, w, ty', x) && AtRest(w, ty');
    }
  }
}
