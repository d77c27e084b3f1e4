/** The effect that a scan computes is the word's own: the least of all that
    its typings keep to. Said of typings, without the scan. */
module FlowEffect {
  import opened Wrappers
  import opened Program
  import opened StackEffects
  import opened FlowSpec
  import opened FlowScan

  /** A call of that effect at depth c reaches down no further than f. */
  predicate CallWithin(se: SType, c: int, f: int)
  {
    f <= c - se.din && f <= if se.NoExit() then c else c + se.Net()
  }

  /** An opcode at depth c reaches down no further than f. */
  predicate Within(ne: NativeEffects, table: Table, op: Op, c: int, f: int)
  {
    match op
    case Call(Native(cc)) => CallWithin(ne(cc), c, f)
    case Call(Interpreted(k)) => CallWithin(if k < |table| then table[k].effect else UNKNOWN, c, f)
    case Call(Unresolved) => CallWithin(UNKNOWN, c, f)
    case Ret => f <= c
    case _ => f <= c + op.StackAction()
  }

  /** A word with these depths takes no more than the effect says, and what it
      leaves is what the effect says. */
  predicate Bears(ne: NativeEffects, table: Table, w: Word, ty: seq<Option<int>>, x: int, e: SType)
    requires |ty| == |w.code|
  {
    && e.IsKnown()
    && (forall i | 0 <= i < |ty| && ty[i].Some? :: Within(ne, table, w.code[i], ty[i].value, -e.din))
    && (forall i | 0 <= i < |ty| && ty[i].Some? && w.code[i].Ret? :: e.Exits() && x == e.Net())
  }

  /** Some typing of the word keeps to the effect. */
  ghost predicate Keeps(ne: NativeEffects, table: Table, w: Word, e: SType)
  {
    exists ty: seq<Option<int>>, x: int :: Typing(ne, table, w, ty, x) && Bears(ne, table, w, ty, x, e)
  }

  /** e is the least effect of the word. */
  ghost predicate Principal(ne: NativeEffects, table: Table, w: Word, e: SType)
  {
    e.IsKnown() && forall e': SType | e'.IsKnown() :: e.IsSubOf(e') <==> Keeps(ne, table, w, e')
  }

  /** No interpreted word that is called costs more than m. */
  predicate CostWithin(table: Table, w: Word, ty: seq<Option<int>>, m: nat)
    requires |ty| == |w.code|
  {
    forall i | 0 <= i < |ty| && ty[i].Some? && w.code[i].Call? && w.code[i].target.Interpreted? ::
      w.code[i].target.k < |table| ==> table[w.code[i].target.k].mrs <= m
  }

  /** Some typing of the word reaches no call that costs more than m. */
  ghost predicate Affords(ne: NativeEffects, table: Table, w: Word, m: nat)
  {
    exists ty: seq<Option<int>>, x: int :: Typing(ne, table, w, ty, x) && CostWithin(table, w, ty, m)
  }

  ghost predicate LeastCost(ne: NativeEffects, table: Table, w: Word, m: nat)
  {
    forall m': nat :: m <= m' <==> Affords(ne, table, w, m')
  }

  // ----- what a scan records was reached -----

  predicate DepthAt(ne: NativeEffects, table: Table, w: Word, s: Scan, i: nat)
  {
    i < |s.sa| == |w.code| && s.sa[i].Some? && !Within(ne, table, w.code[i], s.sa[i].value, s.maxDepth + 1)
  }

  predicate CostAt(table: Table, w: Word, s: Scan, i: nat)
  {
    i < |s.sa| == |w.code| && s.sa[i].Some? && w.code[i].Call? && s.mrs == ReturnCost(table, w.code[i].target)
  }

  predicate ExitAt(w: Word, s: Scan, i: nat)
  {
    i < |s.sa| == |w.code| && w.code[i].Ret? && s.exitSa.Some? && s.sa[i] == s.exitSa
  }

  /** Every figure is the one it started from, or that of a reached opcode. */
  ghost predicate Attained(ne: NativeEffects, table: Table, w: Word, s: Scan)
  {
    && (s.maxDepth == 0 || exists i: nat :: DepthAt(ne, table, w, s, i))
    && (s.mrs == 0 || exists i: nat :: CostAt(table, w, s, i))
    && (s.exitSa.Some? ==> exists i: nat :: ExitAt(w, s, i))
  }

  /** The figures of s' are those of s, or come from the opcode at s.off. */
  predicate FiguresFrom(ne: NativeEffects, table: Table, w: Word, s: Scan, s': Scan)
  {
    && (s'.maxDepth == s.maxDepth || DepthAt(ne, table, w, s', s.off))
    && (s'.mrs == s.mrs || CostAt(table, w, s', s.off))
    && (s'.exitSa == s.exitSa || ExitAt(w, s', s.off))
  }

  lemma AccountAttains(ne: NativeEffects, table: Table, w: Word, s: Scan)
    requires ScanGood(w, s) && Account(ne, table, w.code[s.off], s, s.sa[s.off].value).Some?
    ensures FiguresFrom(ne, table, w, s, Account(ne, table, w.code[s.off], s, s.sa[s.off].value).value.0)
  {}

  /** Later turns keep what was reached. */
  lemma StillAttained(ne: NativeEffects, table: Table, w: Word, s: Scan, s1: Scan, s': Scan)
    requires ScanGood(w, s) && Attained(ne, table, w, s) && FiguresFrom(ne, table, w, s, s1) && Grows(s, s1)
    requires Grows(s1, s') && s'.maxDepth == s1.maxDepth && s'.mrs == s1.mrs && s'.exitSa == s1.exitSa
    ensures Attained(ne, table, w, s')
  {
    hide Within, EffectOf, ReturnCost;
    forall i: nat | DepthAt(ne, table, w, s1, i) ensures DepthAt(ne, table, w, s', i) {}
    forall i: nat | CostAt(table, w, s1, i) ensures CostAt(table, w, s', i) {}
    forall i: nat | ExitAt(w, s1, i) ensures ExitAt(w, s', i) {}
    if s1.maxDepth == s.maxDepth && s.maxDepth != 0 {
      var i: nat :| DepthAt(ne, table, w, s, i);
      assert DepthAt(ne, table, w, s1, i);
    }
    if s1.mrs == s.mrs && s.mrs != 0 {
      var i: nat :| CostAt(table, w, s, i);
      assert CostAt(table, w, s1, i);
    }
    if s1.exitSa == s.exitSa && s.exitSa.Some? {
      var i: nat :| ExitAt(w, s, i);
      assert ExitAt(w, s1, i);
    }
  }

  lemma TurnAttains(ne: NativeEffects, table: Table, w: Word, s: Scan)
    requires JumpsInRange(w) && ScanGood(w, s) && Attained(ne, table, w, s)
    ensures var r := TurnOf(ne, table, w, s);
            r.Again? || r.Done? ==> Attained(ne, table, w, r.scan)
  {
    hide Attained, FiguresFrom, Account, QueueJump, FallThrough, Accounted, Leads, Analysed;
    var r := TurnOf(ne, table, w, s);
    if r.Again? || r.Done? {
      var c := s.sa[s.off].value;
      AccountKeeps(ne, table, w.code[s.off], s, c);
      AccountAttains(ne, table, w, s);
      var (s1, d, mft) := Account(ne, table, w.code[s.off], s, c).value;
      var s2 := QueueJump(w, s1, d).value;
      QueueKeeps(w, s1, d);
      FallKeeps(s2, d, mft);
      StillAttained(ne, table, w, s, s1, r.scan);
    }
  }

  lemma {:induction false} ScanAttains(ne: NativeEffects, table: Table, w: Word, s: Scan, n: nat)
    requires JumpsInRange(w) && ScanGood(w, s) && Attained(ne, table, w, s)
    ensures var r := ScanFrom(ne, table, w, s, n);
            r.Again? || r.Done? ==> Attained(ne, table, w, r.scan)
    decreases n
  {
    hide TurnOf, Attained;
    if n > 0 {
      TurnAttains(ne, table, w, s);
      var t := TurnOf(ne, table, w, s);
      if t.Again? {
        ScanAttains(ne, table, w, t.scan, n - 1);
      }
    }
  }

  // ----- a finished scan -----

  ghost predicate Finishes(ne: NativeEffects, table: Table, w: Word, n: nat)
  {
    w.code != [] && JumpsInRange(w) && ScanFrom(ne, table, w, FirstScan(w), n).Done?
  }

  function Last(ne: NativeEffects, table: Table, w: Word, n: nat): Scan
    requires Finishes(ne, table, w, n)
  {
    ScanFrom(ne, table, w, FirstScan(w), n).scan
  }

  lemma LastKnows(ne: NativeEffects, table: Table, w: Word, n: nat)
    requires Finishes(ne, table, w, n)
    ensures var s := Last(ne, table, w, n);
            Certifies(ne, table, w, s) && Attained(ne, table, w, s) && Typing(ne, table, w, s.sa, s.exitSa.GetOr(0))
  {
    hide TurnOf, Certifies, Typing, ScanFrom;
    var s := FirstScan(w);
    InitialScan(ne, table, w);
    ScanKeeps(ne, table, w, s, n);
    ScanAttains(ne, table, w, s, n);
    CertificateIsTyping(ne, table, w, Last(ne, table, w, n));
  }

  lemma LastAgrees(ne: NativeEffects, table: Table, w: Word, n: nat, ty: seq<Option<int>>, x: int)
    requires Finishes(ne, table, w, n) && Typing(ne, table, w, ty, x)
    ensures Agreeing(w, Last(ne, table, w, n), ty, x)
  {
    hide TurnOf, Typing, Agreeing, ScanFrom;
    StartGood(w);
    TypingStart(ne, table, w, ty, x);
    TypedNeverRaises(ne, table, w, FirstScan(w), ty, x, n);
  }

  lemma OwnTypingBears(ne: NativeEffects, table: Table, w: Word, n: nat, e: SType)
    requires Finishes(ne, table, w, n) && Computed(Last(ne, table, w, n)).IsSubOf(e)
    ensures Keeps(ne, table, w, e)
  {
    hide Typing, Attained, Finishes, Last;
    LastKnows(ne, table, w, n);
    var s := Last(ne, table, w, n);
    forall i | 0 <= i < |s.sa| && s.sa[i].Some?
      ensures Within(ne, table, w.code[i], s.sa[i].value, -e.din)
      ensures w.code[i].Ret? ==> e.Exits() && s.exitSa.GetOr(0) == e.Net()
    {
      assert OpDone(ne, table, w, s, i);
    }
    assert Bears(ne, table, w, s.sa, s.exitSa.GetOr(0), e);
  }

  lemma BearingCovers(ne: NativeEffects, table: Table, w: Word, n: nat, ty: seq<Option<int>>, x: int, e: SType)
    requires Finishes(ne, table, w, n) && Typing(ne, table, w, ty, x) && Bears(ne, table, w, ty, x, e)
    ensures Computed(Last(ne, table, w, n)).IsSubOf(e)
  {
    hide Typing, Certifies, Finishes, Last, EffectOf;
    LastKnows(ne, table, w, n);
    LastAgrees(ne, table, w, n, ty, x);
    var s := Last(ne, table, w, n);
    if s.maxDepth != 0 {
      var i: nat :| DepthAt(ne, table, w, s, i);
      assert ty[i] == s.sa[i];
      assert Within(ne, table, w.code[i], ty[i].value, -e.din);
    }
    if s.exitSa.Some? {
      var i: nat :| ExitAt(w, s, i);
      assert ty[i] == s.sa[i];
    }
    DepthLow(ne, table, w, s);
  }

  lemma DepthLow(ne: NativeEffects, table: Table, w: Word, s: Scan)
    requires Certifies(ne, table, w, s)
    ensures s.maxDepth <= 0 && (s.exitSa.Some? ==> s.maxDepth <= s.exitSa.value)
  {}

  /** What the scan computes is below an effect exactly if the word keeps to
      that effect: it is the word's least one. */
  lemma EffectIsOwn(ne: NativeEffects, table: Table, w: Word, n: nat)
    requires Finishes(ne, table, w, n)
    ensures Principal(ne, table, w, Computed(Last(ne, table, w, n)))
  {
    hide Typed, Bears, Finishes, Last, Certifies, Attained, SType.IsSubOf;
    LastKnows(ne, table, w, n);
    DepthLow(ne, table, w, Last(ne, table, w, n));
    forall e: SType | e.IsKnown()
      ensures Computed(Last(ne, table, w, n)).IsSubOf(e) <==> Keeps(ne, table, w, e)
    {
      if Computed(Last(ne, table, w, n)).IsSubOf(e) {
        OwnTypingBears(ne, table, w, n, e);
      }
      if ty: seq<Option<int>>, x: int :| Typing(ne, table, w, ty, x) && Bears(ne, table, w, ty, x, e) {
        BearingCovers(ne, table, w, n, ty, x, e);
      }
    }
  }

  /** And its return cost is that of the dearest call that it must reach. */
  lemma CostIsOwn(ne: NativeEffects, table: Table, w: Word, n: nat)
    requires Finishes(ne, table, w, n)
    ensures LeastCost(ne, table, w, Last(ne, table, w, n).mrs)
  {
    hide Typed, Finishes, Last;
    LastKnows(ne, table, w, n);
    var s := Last(ne, table, w, n);
    forall i | 0 <= i < |s.sa| && s.sa[i].Some? && w.code[i].Call?
      ensures ReturnCost(table, w.code[i].target) <= s.mrs
    {
      assert OpDone(ne, table, w, s, i);
    }
    forall m: nat ensures s.mrs <= m <==> Affords(ne, table, w, m) {
      if s.mrs <= m {
        assert CostWithin(table, w, s.sa, m);
      }
      if ty: seq<Option<int>>, x: int :| Typing(ne, table, w, ty, x) && CostWithin(table, w, ty, m) {
        LastAgrees(ne, table, w, n, ty, x);
        if s.mrs != 0 {
          var i: nat :| CostAt(table, w, s, i);
          assert ty[i] == s.sa[i];
        }
      }
    }
  }

  // ----- entries -----

  /** The entry of a word is what its finished scan says. */
  ghost predicate OwnBy(ne: NativeEffects, table: Table, w: Word, e: Entry, declared: bool, n: nat)
  {
    && Finishes(ne, table, w, n)
    && e.mrs == 1 + w.numLocals + Last(ne, table, w, n).mrs
    && if declared then Computed(Last(ne, table, w, n)).IsSubOf(e.effect)
       else e.effect == Computed(Last(ne, table, w, n))
  }

  ghost predicate Own(ne: NativeEffects, table: Table, w: Word, e: Entry, declared: bool)
  {
    exists n: nat :: OwnBy(ne, table, w, e, declared, n)
  }

  lemma OwnExtends(ne: NativeEffects, table: Table, table': Table, w: Word, e: Entry, declared: bool)
    requires Own(ne, table, w, e, declared) && Extends(table, table')
    ensures Own(ne, table', w, e, declared)
  {
    hide Extends, Computed, ScanFrom;
    var n: nat :| OwnBy(ne, table, w, e, declared, n);
    StartGood(w);
    ScanExtends(ne, table, table', w, FirstScan(w), n);
    assert OwnBy(ne, table', w, e, declared, n);
  }

  /** The entry says of the word what is true of it, and no less: the return
      cost is the least, a declared effect is one that the word keeps to, and
      one that was not declared is the least. */
  ghost predicate Best(ne: NativeEffects, table: Table, w: Word, e: Entry, declared: bool)
  {
    && e.mrs >= 1 + w.numLocals && LeastCost(ne, table, w, e.mrs - 1 - w.numLocals)
    && if declared then e.effect.IsKnown() && Keeps(ne, table, w, e.effect) else Principal(ne, table, w, e.effect)
  }

  lemma OwnIsBest(ne: NativeEffects, table: Table, w: Word, e: Entry, declared: bool)
    requires Own(ne, table, w, e, declared)
    ensures Best(ne, table, w, e, declared)
  {
    hide Finishes, Last, Computed, LeastCost, Keeps;
    var n: nat :| OwnBy(ne, table, w, e, declared, n);
    EffectIsOwn(ne, table, w, n);
    CostIsOwn(ne, table, w, n);
  }
}
