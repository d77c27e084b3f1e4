/** The flow analysis as it runs: words as objects that remember the state of
    their analysis, a worklist loop per word, and recursion into callees. */
module FlowAnalysis {
  import opened Wrappers
  import opened Program
  import opened StackEffects
  import opened FlowSpec
  import opened FlowScan
  import opened FlowEffect

  class WordInterpreted {
    const word: Word
    var flowAnalysis: FlowState
    var stackEffect: SType
    var maxReturnStack: nat

    constructor (word: Word, declared: SType)
      ensures this.word == word && stackEffect == declared
      ensures flowAnalysis == 0 && maxReturnStack == 0
    {
      this.word := word;
      stackEffect := declared;
      flowAnalysis := 0;
      maxReturnStack := 0;
    }

    function ToEntry(): Entry
      reads this
    {
      Entry(flowAnalysis, stackEffect, maxReturnStack)
    }
  }

  function TableOf(ws: seq<WordInterpreted>): (t: Table)
    reads ws
    ensures |t| == |ws|
  {
    seq(|ws|, i requires 0 <= i < |ws| reads ws => ws[i].ToEntry())
  }

  function WordsOf(ws: seq<WordInterpreted>): (r: seq<Word>)
    ensures |r| == |ws|
  {
    seq(|ws|, i requires 0 <= i < |ws| => ws[i].word)
  }

  ghost predicate Distinct(ws: seq<WordInterpreted>)
  {
    forall i, j | 0 <= i < j < |ws| :: ws[i] != ws[j]
  }

  /** The turns after which the scan of w is over. */
  ghost function Turns(ne: NativeEffects, t: Table, w: Word): (n: nat)
    requires w.code != [] && JumpsInRange(w) && Settles(ne, t, w)
    ensures !ScanFrom(ne, t, w, FirstScan(w), n).Again?
  {
    ScanDecides(ne, t, w);
    var n: nat :| !ScanFrom(ne, t, w, FirstScan(w), n).Again?;
    n
  }

  lemma StillRunning(ne: NativeEffects, t: Table, w: Word, n: nat)
    requires w.code != [] && JumpsInRange(w) && Settles(ne, t, w)
    requires ScanFrom(ne, t, w, FirstScan(w), n).Again?
    ensures n < Turns(ne, t, w)
  {
    hide ScanFrom, Settles;
    if Turns(ne, t, w) <= n {
      ScanOver(ne, t, w, FirstScan(w), Turns(ne, t, w), n);
    }
  }

  /** Number of words whose analysis has not started. */
  function NotStarted(t: Table): nat
  {
    if t == [] then 0 else NotStarted(t[..|t| - 1]) + if t[|t| - 1].state == 0 then 1 else 0
  }

  lemma {:induction false} StartOne(t: Table, t': Table, k: nat)
    requires k < |t| == |t'| && t[k].state == 0 && t'[k].state != 0
    requires forall i | 0 <= i < |t| && i != k :: t[i].state != 0 ==> t'[i].state != 0
    ensures NotStarted(t') < NotStarted(t)
    decreases |t|
  {
    var n := |t| - 1;
    if k < n {
      StartOne(t[..n], t'[..n], k);
    } else {
      StartMore(t[..n], t'[..n]);
    }
  }

  lemma {:induction false} StartMore(t: Table, t': Table)
    requires |t| == |t'|
    requires forall i | 0 <= i < |t| :: t[i].state != 0 ==> t'[i].state != 0
    ensures NotStarted(t') <= NotStarted(t)
    decreases |t|
  {
    if t != [] {
      StartMore(t[..|t| - 1], t'[..|t| - 1]);
    }
  }

  /** What an analysis may do to the table, whether it succeeds or raises:
      words whose analysis was started before stay as they are, and so do those
      that it does not start; declared effects stay; every finished entry is
      justified by a certificate, and what it has finished is what the scan of
      the word says. */
  ghost predicate Progress(words: seq<Word>, ne: NativeEffects, t: Table, t': Table)
  {
    && |t'| == |t|
    && TableGood(words, ne, t')
    && (forall i | 0 <= i < |t| && t[i].state != 0 :: t'[i] == t[i])
    && (forall i | 0 <= i < |t| && t[i].effect.IsKnown() :: t'[i].effect == t[i].effect)
    && (forall i | 0 <= i < |t| && t'[i].state == 0 :: t'[i] == t[i])
    && AllOwn(words, ne, t, t')
  }

  ghost predicate AllOwn(words: seq<Word>, ne: NativeEffects, t: Table, t': Table)
  {
    |t| == |t'| == |words| &&
    forall i | 0 <= i < |t| && t[i].state == 0 && t'[i].state == 1 ::
      Own(ne, t', words[i], t'[i], t[i].effect.IsKnown())
  }

  /** What an analysis that starts from table t relies on: code from the word
      builder, whose scan comes to an end under every table that the analysis
      can make of t. */
  ghost predicate Analysable(words: seq<Word>, ne: NativeEffects, t: Table)
  {
    forall k | 0 <= k < |words| :: AnalysableWord(words, ne, t, words[k])
  }

  ghost predicate AnalysableWord(words: seq<Word>, ne: NativeEffects, t: Table, w: Word)
  {
    && w.code != [] && JumpsInRange(w)
    && (forall t': Table | Progress(words, ne, t, t') :: Settles(ne, t', w))
    && forall i | 0 <= i < |w.code| ::
         w.code[i].Call? && w.code[i].target.Interpreted? ==> w.code[i].target.k < |words|
  }

  lemma AnalysableLater(words: seq<Word>, ne: NativeEffects, t: Table, t': Table)
    requires Analysable(words, ne, t) && Progress(words, ne, t, t')
    ensures Analysable(words, ne, t')
  {
    hide Progress, Settles, JumpsInRange;
    forall k | 0 <= k < |words| ensures AnalysableWord(words, ne, t', words[k]) {
      assert AnalysableWord(words, ne, t, words[k]);
      forall t'': Table | Progress(words, ne, t', t'') ensures Settles(ne, t'', words[k]) {
        LoopProgress(words, ne, t, t', t'');
      }
    }
  }

  /** A success leaves no analysis in progress that was not so before. */
  predicate NoneLeftOpen(t: Table, t': Table)
  {
    |t'| == |t| && forall i | 0 <= i < |t| && t[i].state == 0 :: t'[i].state <= 1
  }

  /** The scan of w waits for a word whose analysis is in progress: the word
      is recursive, or was itself refused. */
  predicate Blocked(ne: NativeEffects, t: Table, w: Word, n: nat)
    requires w.code != [] && JumpsInRange(w)
  {
    match ScanFrom(ne, t, w, FirstScan(w), n)
    case Again(s) =>
      var op := w.code[s.off];
      op.Call? && op.target.Interpreted? && op.target.k < |t| && t[op.target.k].state == 2
    case _ => false
  }

  /** Why word k is not accepted: its scan is blocked, or raises, or it has a
      typing but none that keeps to the declared effect. */
  ghost predicate Refused(words: seq<Word>, ne: NativeEffects, t: Table, k: nat)
    requires k < |words| == |t|
  {
    var w := words[k];
    && w.code != [] && JumpsInRange(w)
    && exists n: nat ::
         || Blocked(ne, t, w, n)
         || ScanFrom(ne, t, w, FirstScan(w), n).Raised?
         || (ScanFrom(ne, t, w, FirstScan(w), n).Done? && t[k].effect.IsKnown() && !Keeps(ne, t, w, t[k].effect))
  }

  /** The entry that a finished scan gives word w. */
  function Finished(w: Word, e: Entry, s: Scan): Entry
  {
    Entry(1, if e.effect.IsKnown() then e.effect else Computed(s), 1 + w.numLocals + s.mrs)
  }

  lemma FinishedIsAccepted(words: seq<Word>, ne: NativeEffects, t: Table, t': Table, k: nat, s: Scan)
    requires TableGood(words, ne, t) && k < |t| == |words| && t[k].state != 1
    requires Certifies(ne, t, words[k], s)
    requires t[k].effect.IsKnown() ==> Computed(s).IsSubOf(t[k].effect)
    requires t' == t[k := Finished(words[k], t[k], s)]
    ensures TableGood(words, ne, t')
  {
    hide Certifies, TableGood;
    AcceptedExtends(words, ne, t, t');
    CertifiesExtends(ne, t, t', words[k], s);
    ComputedKnown(ne, t, words[k], s);
    assert AcceptedBy(words, ne, t', k, s);
    TableGoodFrom(words, ne, t, t', k, s);
  }

  lemma TableGoodFrom(words: seq<Word>, ne: NativeEffects, t: Table, t': Table, k: nat, s: Scan)
    requires |t| == |t'| == |words| && k < |t| && t' == t[k := t'[k]]
    requires forall i | 0 <= i < |t| && t[i].state == 1 :: exists s :: AcceptedBy(words, ne, t', i, s)
    requires AcceptedBy(words, ne, t', k, s)
    ensures TableGood(words, ne, t')
  {
    hide AcceptedBy;
  }

  lemma ComputedKnown(ne: NativeEffects, t: Table, w: Word, s: Scan)
    requires Certifies(ne, t, w, s)
    ensures Computed(s).IsKnown() && Computed(s).IsSubOf(Computed(s))
  {
  }

  /** Marking a word as in progress. */
  lemma MarkStarted(words: seq<Word>, ne: NativeEffects, t: Table, t': Table, k: nat)
    requires TableGood(words, ne, t) && k < |t| == |words| && t[k].state == 0
    requires t' == t[k := t[k].(state := 2)]
    ensures TableGood(words, ne, t') && Progress(words, ne, t, t') && NotStarted(t') < NotStarted(t)
  {
    hide AcceptedBy;
    AcceptedExtends(words, ne, t, t');
    TableGoodSame(words, ne, t, t');
    StartOne(t, t', k);
  }

  lemma TableGoodSame(words: seq<Word>, ne: NativeEffects, t: Table, t': Table)
    requires |t| == |t'| == |words|
    requires forall i | 0 <= i < |t| && t[i].state == 1 :: exists s :: AcceptedBy(words, ne, t', i, s)
    requires forall i | 0 <= i < |t| :: t'[i].state == 1 ==> t[i].state == 1
    ensures TableGood(words, ne, t')
  {
    hide AcceptedBy;
  }

  /** Any change to an entry that is not final. */
  lemma TouchOpen(words: seq<Word>, ne: NativeEffects, t: Table, t': Table, k: nat, m: nat)
    requires TableGood(words, ne, t) && k < |t| == |words| && t[k].state == 2
    requires t' == t[k := t[k].(mrs := m)]
    ensures TableGood(words, ne, t')
  {
    AcceptedExtends(words, ne, t, t');
    TableGoodSame(words, ne, t, t');
  }

  /** One turn of the loop, on the local variables of analyse_flow; the effect
      and the return cost of a called word are already looked up. */
  method TurnLoop(ghost ne: NativeEffects, ghost t: Table, w: Word, s: Scan, se: SType, cost: nat) returns (r: Turn)
    requires JumpsInRange(w) && ScanGood(w, s)
    requires w.code[s.off].Call? ==>
               se == EffectOf(ne, t, w.code[s.off].target) && cost == ReturnCost(t, w.code[s.off].target)
    ensures r == TurnReady(ne, t, w, s)
  {
    hide Analysed, EffectOf, ReturnCost, FallThrough, NextTurn;
    var sa, toExplore, off, exitSa, mrs, maxDepth := s.sa, s.toExplore, s.off, s.exitSa, s.mrs, s.maxDepth;
    var op := w.code[off];
    var mft := op.MayFallThrough();
    var c := sa[off].value;
    var a: int;
    match op {
      case Call(_) =>
        if !se.IsKnown() {
          return Raised;
        }
        if se.NoExit() {
          mft := false;
          a := 0;
        } else {
          a := se.dout - se.din;
        }
        mrs := Max(mrs, cost);
        maxDepth := Min(maxDepth, c - se.din);
      case Ret =>
        if exitSa.None? {
          exitSa := Some(c);
        } else if exitSa.value != c {
          return Raised;
        }
        a := 0;
      case _ =>
        a := op.StackAction();
    }
    c := c + a;
    maxDepth := Min(maxDepth, c);
    ghost var s1 := Scan(sa, toExplore, off, exitSa, mrs, maxDepth);
    assert Account(ne, t, op, s, s.sa[s.off].value) == Some((s1, c, mft));
    if op.IsJump() && op.disp.value != 0 {
      var j := op.disp.value + off + 1;
      toExplore := toExplore + [j];
      if sa[j].None? {
        sa := sa[j := Some(c)];
      } else if sa[j].value != c {
        return Raised;
      } else {
        assert sa == sa[j := Some(c)];
      }
    }
    var s2 := Scan(sa, toExplore, off, exitSa, mrs, maxDepth);
    assert QueueJump(w, s1, c) == Some(s2);
    r := GoOn(s2, c, mft);
  }

  /** The end of a turn: merge into the next offset, or take one from the
      queue. */
  method GoOn(s: Scan, c: int, mft: bool) returns (r: Turn)
    requires s.off < |s.sa| && QueueGood(s)
    ensures r == FallThrough(s, c, mft)
  {
    var sa, toExplore, off := s.sa, s.toExplore, s.off;
    var reached := false;
    if mft {
      if off + 1 >= |sa| {
        return Raised;
      }
      if sa[off + 1].None? {
        sa := sa[off + 1 := Some(c)];
        reached := true;
      } else if sa[off + 1].value != c {
        return Raised;
      }
    }
    if reached {
      off := off + 1;
    } else if toExplore != [] {
      off, toExplore := toExplore[0], toExplore[1..];
    } else {
      return Done(s);
    }
    return Again(s.(sa := sa, toExplore := toExplore, off := off));
  }

  /** Stores an entry in the object of word k. */
  method SetEntry(ws: seq<WordInterpreted>, k: nat, wk: WordInterpreted, e: Entry)
    requires Distinct(ws) && k < |ws| && wk == ws[k]
    modifies wk
    ensures TableOf(ws) == old(TableOf(ws))[k := e]
  {
    wk.flowAnalysis := e.state;
    wk.stackEffect := e.effect;
    wk.maxReturnStack := e.mrs;
    forall i | 0 <= i < |ws|
      ensures TableOf(ws)[i] == old(TableOf(ws))[k := e][i]
    {
      assert i != k ==> ws[i] != wk;
    }
  }

  lemma ExtendsByProgress(words: seq<Word>, ne: NativeEffects, t: Table, t': Table)
    requires Progress(words, ne, t, t')
    ensures Extends(t, t')
    ensures NotStarted(t') <= NotStarted(t)
  {
    hide TableGood;
    StartMore(t, t');
  }

  /** A callee did not succeed: the scan that met its call is blocked. */
  lemma BlockedAt(ne: NativeEffects, t: Table, t': Table, w: Word, s: Scan, n: nat)
    requires w.code != [] && JumpsInRange(w) && Extends(t, t')
    requires ScanFrom(ne, t, w, FirstScan(w), n) == Again(s)
    requires w.code[s.off].Call? && w.code[s.off].target.Interpreted?
    requires w.code[s.off].target.k < |t'| && t'[w.code[s.off].target.k].state == 2
    ensures Blocked(ne, t', w, n)
  {
    hide Extends;
    ScanExtends(ne, t, t', w, FirstScan(w), n);
  }

  /** A turn made once the called word, if any, is analysed. */
  lemma TurnMade(ne: NativeEffects, t: Table, t': Table, w: Word, s: Scan, n: nat, r: Turn)
    requires w.code != [] && JumpsInRange(w) && Extends(t, t')
    requires ScanFrom(ne, t, w, FirstScan(w), n) == Again(s)
    requires w.code[s.off].Call? ==> Analysed(t', w.code[s.off].target)
    requires r == TurnReady(ne, t', w, s)
    ensures r == ScanFrom(ne, t', w, FirstScan(w), n + 1)
  {
    hide Extends, TurnReady;
    ScanExtends(ne, t, t', w, FirstScan(w), n);
    OneMoreTurn(ne, t', w, FirstScan(w), n);
  }

  lemma StartLoop(ws: seq<WordInterpreted>, ne: NativeEffects, t: Table, k: nat)
    requires k < |ws| && Analysable(WordsOf(ws), ne, t)
    ensures var w := ws[k].word;
            && w == WordsOf(ws)[k] && w.code != [] && JumpsInRange(w)
            && ScanFrom(ne, t, w, FirstScan(w), 0) == Again(FirstScan(w))
  {
    assert AnalysableWord(WordsOf(ws), ne, t, WordsOf(ws)[k]);
  }

  lemma ScanSettles(ws: seq<WordInterpreted>, ne: NativeEffects, t: Table, t': Table, k: nat)
    requires k < |ws| && Analysable(WordsOf(ws), ne, t) && Progress(WordsOf(ws), ne, t, t')
    ensures Settles(ne, t', ws[k].word)
  {
    hide Progress, Settles;
    assert AnalysableWord(WordsOf(ws), ne, t, WordsOf(ws)[k]);
  }

  /** A callee that was not analysed before is a word less to start. */
  lemma CalleeStarted(words: seq<Word>, ne: NativeEffects, t: Table, t': Table, j: nat)
    requires Progress(words, ne, t, t') && j < |t| && t'[j].state == 1
    requires t[j].state != 0 ==> t' == t
    ensures t' == t || NotStarted(t') < NotStarted(t)
  {
    hide TableGood;
    if t[j].state == 0 {
      StartOne(t, t', j);
    }
  }

  lemma CalleeInRange(ws: seq<WordInterpreted>, ne: NativeEffects, t: Table, k: nat, o: nat)
    requires k < |ws| && Analysable(WordsOf(ws), ne, t) && o < |ws[k].word.code|
    requires ws[k].word.code[o].Call? && ws[k].word.code[o].target.Interpreted?
    ensures ws[k].word.code[o].target.k < |ws|
  {
    assert AnalysableWord(WordsOf(ws), ne, t, WordsOf(ws)[k]);
  }

  /** What was finished stays as its scan says. */
  lemma OwnLater(words: seq<Word>, ne: NativeEffects, t1: Table, t: Table, t': Table)
    requires AllOwn(words, ne, t1, t) && AllOwn(words, ne, t, t') && Extends(t, t')
    requires forall i | 0 <= i < |t| && t[i].state == 0 :: t[i] == t1[i]
    requires forall i | 0 <= i < |t| && t[i].state != 0 :: t'[i] == t[i]
    ensures AllOwn(words, ne, t1, t')
  {
    hide Own, Extends;
    forall i | 0 <= i < |t1| && t1[i].state == 0 && t'[i].state == 1
      ensures Own(ne, t', words[i], t'[i], t1[i].effect.IsKnown())
    {
      if t[i].state != 0 {
        OwnExtends(ne, t, t', words[i], t[i], t1[i].effect.IsKnown());
      }
    }
  }

  /** The entry of one more word. */
  lemma OwnOneMore(words: seq<Word>, ne: NativeEffects, t0: Table, t2: Table, t3: Table, k: nat)
    requires k < |t0| == |t2| == |t3| == |words| && t0[k].state == 0 && t2[k].state == 2 && t3 == t2[k := t3[k]]
    requires AllOwn(words, ne, t0[k := t0[k].(state := 2)], t2)
    requires t3[k].state == 1 ==> Own(ne, t3, words[k], t3[k], t0[k].effect.IsKnown())
    ensures AllOwn(words, ne, t0, t3)
  {
    hide Own;
    forall i | 0 <= i < |t0| && i != k && t0[i].state == 0 && t3[i].state == 1
      ensures Own(ne, t3, words[i], t3[i], t0[i].effect.IsKnown())
    {
      OwnExtends(ne, t2, t3, words[i], t3[i], t0[i].effect.IsKnown());
    }
  }

  lemma FinishedIsOwn(ne: NativeEffects, t2: Table, t3: Table, w: Word, e: Entry, n: nat)
    requires w.code != [] && JumpsInRange(w) && Extends(t2, t3)
    requires ScanFrom(ne, t2, w, FirstScan(w), n).Done?
    requires e.effect.IsKnown() ==> Computed(ScanFrom(ne, t2, w, FirstScan(w), n).scan).IsSubOf(e.effect)
    ensures Own(ne, t3, w, Finished(w, e, ScanFrom(ne, t2, w, FirstScan(w), n).scan), e.effect.IsKnown())
  {
    hide Computed, ScanFrom, Extends, JumpsInRange;
    ScanExtends(ne, t2, t3, w, FirstScan(w), n);
    assert Finishes(ne, t3, w, n);
    assert OwnBy(ne, t3, w, Finished(w, e, Last(ne, t3, w, n)), e.effect.IsKnown(), n);
  }

  lemma LoopProgress(words: seq<Word>, ne: NativeEffects, t1: Table, t: Table, t': Table)
    requires Progress(words, ne, t1, t) && Progress(words, ne, t, t')
    ensures Progress(words, ne, t1, t') && Extends(t, t')
    ensures NoneLeftOpen(t1, t) && NoneLeftOpen(t, t') ==> NoneLeftOpen(t1, t')
  {
    hide TableGood, AllOwn;
    OwnLater(words, ne, t1, t, t');
  }

  lemma NoChange(words: seq<Word>, ne: NativeEffects, t: Table)
    requires TableGood(words, ne, t)
    ensures Progress(words, ne, t, t) && NoneLeftOpen(t, t) && Extends(t, t)
  {
    hide AcceptedBy;
  }

  /** The end of an accepted analysis: t0 before it, t1 with word k marked, t2
      after the loop, t3 with the result stored. */
  lemma AcceptedProgress(words: seq<Word>, ne: NativeEffects, t0: Table, t1: Table, t2: Table, t3: Table,
                         k: nat, n: nat)
    requires k < |t0| == |words| && t0[k].state == 0 && t1 == t0[k := t0[k].(state := 2)]
    requires Progress(words, ne, t1, t2) && NoneLeftOpen(t1, t2)
    requires words[k].code != [] && JumpsInRange(words[k])
    requires ScanFrom(ne, t2, words[k], FirstScan(words[k]), n).Done?
    requires var s := ScanFrom(ne, t2, words[k], FirstScan(words[k]), n).scan;
             && (t2[k].effect.IsKnown() ==> Computed(s).IsSubOf(t2[k].effect))
             && t3 == t2[k := Finished(words[k], t2[k], s)]
    ensures Progress(words, ne, t0, t3) && NoneLeftOpen(t0, t3) && t3[k].state == 1
  {
    hide Certifies, Computed, ScanInv, ScanFrom, AcceptedBy, AllOwn, JumpsInRange;
    var s := ScanFrom(ne, t2, words[k], FirstScan(words[k]), n).scan;
    InitialScan(ne, t2, words[k]);
    ScanKeeps(ne, t2, words[k], FirstScan(words[k]), n);
    FinishedIsAccepted(words, ne, t2, t3, k, s);
    FinishedIsOwn(ne, t2, t3, words[k], t2[k], n);
    OwnOneMore(words, ne, t0, t2, t3, k);
  }

  /** The end of a refused analysis. */
  lemma RefusedProgress(words: seq<Word>, ne: NativeEffects, t0: Table, t1: Table, t2: Table, t3: Table, k: nat, m: nat)
    requires k < |t0| == |words| && t0[k].state == 0 && t1 == t0[k := t0[k].(state := 2)]
    requires Progress(words, ne, t1, t2) && t3 == t2[k := t2[k].(mrs := m)]
    ensures Progress(words, ne, t0, t3) && t3[k].state == 2 && TableGood(words, ne, t2)
    ensures Extends(t2, t3)
  {
    hide AcceptedBy, AllOwn;
    TouchOpen(words, ne, t2, t3, k, m);
    OwnOneMore(words, ne, t0, t2, t3, k);
  }

  lemma BlockedRefuses(words: seq<Word>, ne: NativeEffects, t: Table, k: nat, n: nat)
    requires k < |words| == |t| && words[k].code != [] && JumpsInRange(words[k])
    requires Blocked(ne, t, words[k], n)
    ensures Refused(words, ne, t, k)
  {
    hide Blocked;
  }

  lemma RefusedBecause(words: seq<Word>, ne: NativeEffects, t: Table, t': Table, k: nat, n: nat)
    requires k < |words| == |t| && words[k].code != [] && JumpsInRange(words[k]) && Extends(t, t')
    requires k < |t'| && t'[k].effect == t[k].effect
    requires var r := ScanFrom(ne, t, words[k], FirstScan(words[k]), n);
             || r.Raised?
             || (r.Done? && t[k].effect.IsKnown() && !Computed(r.scan).IsSubOf(t[k].effect))
    ensures Refused(words, ne, t', k)
  {
    hide Extends, Computed, Keeps, Finishes;
    ScanExtends(ne, t, t', words[k], FirstScan(words[k]), n);
    var r := ScanFrom(ne, t', words[k], FirstScan(words[k]), n);
    if r.Done? {
      EffectMissed(ne, t', words[k], t'[k].effect, n);
    }
  }

  lemma EffectMissed(ne: NativeEffects, t: Table, w: Word, e: SType, n: nat)
    requires w.code != [] && JumpsInRange(w) && e.IsKnown()
    requires ScanFrom(ne, t, w, FirstScan(w), n).Done?
    requires !Computed(ScanFrom(ne, t, w, FirstScan(w), n).scan).IsSubOf(e)
    ensures !Keeps(ne, t, w, e)
  {
    hide Computed, Keeps, ScanFrom;
    EffectIsOwn(ne, t, w, n);
  }

  /** Every word that an analysis finishes gets the best entry it can have. */
  ghost predicate AllBest(words: seq<Word>, ne: NativeEffects, t: Table, t': Table)
  {
    |t| == |t'| == |words| &&
    forall i | 0 <= i < |t| && t[i].state == 0 && t'[i].state == 1 ::
      Best(ne, t', words[i], t'[i], t[i].effect.IsKnown())
  }

  lemma OwnAreBest(words: seq<Word>, ne: NativeEffects, t: Table, t': Table)
    requires Progress(words, ne, t, t')
    ensures AllBest(words, ne, t, t')
  {
    hide Own, Best, TableGood;
    forall i | 0 <= i < |t| && t[i].state == 0 && t'[i].state == 1
      ensures Best(ne, t', words[i], t'[i], t[i].effect.IsKnown())
    {
      OwnIsBest(ne, t', words[i], t'[i], t[i].effect.IsKnown());
    }
  }

  /** analyse_flow of word k. */
  method AnalyseFlow(ws: seq<WordInterpreted>, ne: NativeEffects, k: nat) returns (ok: bool)
    requires Distinct(ws) && k < |ws| && Analysable(WordsOf(ws), ne, TableOf(ws))
    requires TableGood(WordsOf(ws), ne, TableOf(ws))
    modifies ws
    ensures Progress(WordsOf(ws), ne, old(TableOf(ws)), TableOf(ws))
    ensures ok ==> TableOf(ws)[k].state == 1 && NoneLeftOpen(old(TableOf(ws)), TableOf(ws))
    ensures !ok ==> TableOf(ws)[k].state == 2 &&
                    (old(TableOf(ws))[k].state == 2 || Refused(WordsOf(ws), ne, TableOf(ws), k))
    ensures AllBest(WordsOf(ws), ne, old(TableOf(ws)), TableOf(ws))
    ensures old(TableOf(ws))[k].state != 0 ==> TableOf(ws) == old(TableOf(ws))
    decreases NotStarted(TableOf(ws)), 1
  {
    if ws[k].flowAnalysis == 1 {
      return true;
    }
    if ws[k].flowAnalysis == 2 {
      return false;
    }
    ok := AnalyseBody(ws, ne, k);
    OwnAreBest(WordsOf(ws), ne, old(TableOf(ws)), TableOf(ws));
  }

  method AnalyseBody(ws: seq<WordInterpreted>, ne: NativeEffects, k: nat) returns (ok: bool)
    requires Distinct(ws) && k < |ws| && Analysable(WordsOf(ws), ne, TableOf(ws))
    requires TableGood(WordsOf(ws), ne, TableOf(ws))
    requires TableOf(ws)[k].state == 0
    modifies ws
    ensures Progress(WordsOf(ws), ne, old(TableOf(ws)), TableOf(ws))
    ensures ok ==> TableOf(ws)[k].state == 1 && NoneLeftOpen(old(TableOf(ws)), TableOf(ws))
    ensures !ok ==> TableOf(ws)[k].state == 2 && Refused(WordsOf(ws), ne, TableOf(ws), k)
    decreases NotStarted(TableOf(ws)), 0
  {
    hide Analysable, TableGood, Progress, NoneLeftOpen, Refused, Blocked, ScanFrom, JumpsInRange, NotStarted,
      Extends, Computed, Distinct;
    ghost var words := WordsOf(ws);
    ghost var t0 := TableOf(ws);
    var wk := ws[k];
    SetEntry(ws, k, wk, wk.ToEntry().(state := 2));
    ghost var t1 := TableOf(ws);
    MarkStarted(words, ne, t0, t1, k);
    AnalysableLater(words, ne, t0, t1);
    var r, n := ScanLoop(ws, ne, k);
    ghost var t2 := TableOf(ws);
    assert wk.ToEntry() == t2[k] && wk.word == words[k];
    if !r.Done? {
      RefusedProgress(words, ne, t0, t1, t2, t2, k, t2[k].mrs);
      if r.Raised? {
        NoChange(words, ne, t2);
        RefusedBecause(words, ne, t2, t2, k, n);
      } else {
        BlockedRefuses(words, ne, t2, k, n);
      }
      return false;
    }
    var s := r.scan;
    var computed := Computed(s);
    var mrs := 1 + wk.word.numLocals + s.mrs;
    if wk.stackEffect.IsKnown() && !computed.IsSubOf(wk.stackEffect) {
      SetEntry(ws, k, wk, wk.ToEntry().(mrs := mrs));
      RefusedProgress(words, ne, t0, t1, t2, TableOf(ws), k, mrs);
      RefusedBecause(words, ne, t2, TableOf(ws), k, n);
      return false;
    }
    SetEntry(ws, k, wk, Finished(wk.word, wk.ToEntry(), s));
    AcceptedProgress(words, ne, t0, t1, t2, TableOf(ws), k, n);
    return true;
  }

  /** The loop of analyse_flow, callees included; r is Waiting when a callee
      raised. */
  method ScanLoop(ws: seq<WordInterpreted>, ne: NativeEffects, k: nat) returns (r: Turn, ghost n: nat)
    requires Distinct(ws) && k < |ws| && Analysable(WordsOf(ws), ne, TableOf(ws))
    requires TableGood(WordsOf(ws), ne, TableOf(ws))
    requires TableOf(ws)[k].state == 2
    modifies ws
    ensures Progress(WordsOf(ws), ne, old(TableOf(ws)), TableOf(ws))
    ensures WordsOf(ws)[k].code != [] && JumpsInRange(WordsOf(ws)[k])
    ensures r.Waiting? ==> Blocked(ne, TableOf(ws), WordsOf(ws)[k], n)
    ensures !r.Waiting? ==> r == ScanFrom(ne, TableOf(ws), WordsOf(ws)[k], FirstScan(WordsOf(ws)[k]), n)
    ensures r.Done? ==> NoneLeftOpen(old(TableOf(ws)), TableOf(ws))
    ensures !r.Again?
    decreases NotStarted(TableOf(ws)), 2
  {
    hide Analysable, TableGood, Progress, NoneLeftOpen, Blocked, ScanFrom, JumpsInRange, NotStarted, Extends,
      Distinct, QueueGood, Settles;
    ghost var words := WordsOf(ws);
    ghost var t1 := TableOf(ws);
    var w := ws[k].word;
    StartLoop(ws, ne, t1, k);
    NoChange(words, ne, t1);
    ScanSettles(ws, ne, t1, t1, k);
    var s := FirstScan(w);
    n := 0;
    while true
      invariant Progress(words, ne, t1, TableOf(ws)) && NoneLeftOpen(t1, TableOf(ws))
      invariant TableGood(words, ne, TableOf(ws))
      invariant ScanGood(w, s) && ScanFrom(ne, TableOf(ws), w, FirstScan(w), n) == Again(s)
      invariant Settles(ne, TableOf(ws), w)
      decreases NotStarted(TableOf(ws)), Turns(ne, TableOf(ws), w) - n
    {
      ghost var t := TableOf(ws);
      StillRunning(ne, t, w, n);
      var op := w.code[s.off];
      var se, cost := UNKNOWN, 0;
      NoChange(words, ne, t);
      if op.Call? {
        match op.target {
          case Native(cc) =>
            se := ne(cc);
          case Interpreted(j) =>
            CalleeInRange(ws, ne, t1, k, s.off);
            ExtendsByProgress(words, ne, t1, t);
            AnalysableLater(words, ne, t1, t);
            var ok := AnalyseFlow(ws, ne, j);
            LoopProgress(words, ne, t1, t, TableOf(ws));
            if !ok {
              BlockedAt(ne, t, TableOf(ws), w, s, n);
              return Waiting, n;
            }
            CalleeStarted(words, ne, t, TableOf(ws), j);
            ScanSettles(ws, ne, t1, TableOf(ws), k);
            se, cost := ws[j].stackEffect, ws[j].maxReturnStack;
          case Unresolved =>
        }
      }
      r := TurnLoop(ne, TableOf(ws), w, s, se, cost);
      TurnMade(ne, t, TableOf(ws), w, s, n, r);
      n := n + 1;
      if !r.Again? {
        return;
      }
      s := r.scan;
    }
  }
}
