/** What the flow analysis of a word computes: the state of its worklist scan,
    one turn of the scan, and the certificate an accepted word leaves behind. */
module FlowSpec {
  import opened Wrappers
  import opened Program
  import opened StackEffects

  /** _flow_analysis (0 not started, 1 done, 2 in progress), stack_effect and
      max_return_stack of a word. */
  datatype Entry = Entry(state: FlowState, effect: SType, mrs: nat)

  type FlowState = x: nat | x <= 2

  type Table = seq<Entry>

  /** Declared effects of the native words, by C code. */
  type NativeEffects = nat -> SType

  function EffectOf(ne: NativeEffects, table: Table, t: Target): SType
  {
    match t
    case Native(cc) => ne(cc)
    case Interpreted(k) => if k < |table| then table[k].effect else UNKNOWN
    case Unresolved => UNKNOWN
  }

  /** max_return_stack of a called word: nothing for a native one. */
  function ReturnCost(table: Table, t: Target): nat
  {
    match t
    case Native(_) => 0
    case Interpreted(k) => if k < |table| then table[k].mrs else 0
    case Unresolved => 0
  }

  predicate Analysed(table: Table, t: Target)
  {
    t.Interpreted? ==> t.k < |table| && table[t.k].state == 1
  }

  /** The local variables of analyse_flow. */
  datatype Scan = Scan(sa: seq<Option<int>>, toExplore: seq<nat>, off: nat,
                       exitSa: Option<int>, mrs: nat, maxDepth: int)

  /** A turn continues, finishes, or raises; or it has to wait because the
      called word is not analysed yet. */
  datatype Turn = Again(scan: Scan) | Done(scan: Scan) | Raised | Waiting

  predicate JumpsInRange(w: Word)
  {
    forall i | 0 <= i < |w.code| ::
      w.code[i].IsJump() ==> w.code[i].disp.Some? && 0 <= i + 1 + w.code[i].disp.value < |w.code|
  }

  predicate ScanGood(w: Word, s: Scan)
  {
    |s.sa| == |w.code| && s.off < |s.sa| && s.sa[s.off].Some? && QueueGood(s)
  }

  predicate QueueGood(s: Scan)
  {
    forall i | i in s.toExplore :: i < |s.sa| && s.sa[i].Some?
  }

  function FirstScan(w: Word): Scan
    requires w.code != []
  {
    Scan(seq(|w.code|, i => if i == 0 then Some(0) else None), [], 0, None, 0, 0)
  }

  function Min(a: int, b: int): int { if a <= b then a else b }

  function Max(a: int, b: int): int { if a >= b then a else b }

  /** _merge_sa: a mismatch raises. */
  predicate Agrees(sa: seq<Option<int>>, j: nat, c: int)
    requires j < |sa|
  {
    sa[j].None? || sa[j] == Some(c)
  }

  /** The first half of a turn: the effect of the opcode at off on the exit
      depth, the return cost and the lowest depth; and the depth after it. */
  function Account(ne: NativeEffects, table: Table, op: Op, s: Scan, c: int): Option<(Scan, int, bool)>
  {
    match op
    case Call(t) =>
      var se := EffectOf(ne, table, t);
      if !se.IsKnown() then None
      else
        var s' := s.(mrs := Max(s.mrs, ReturnCost(table, t)), maxDepth := Min(s.maxDepth, c - se.din));
        if se.NoExit() then Some((s'.(maxDepth := Min(s'.maxDepth, c)), c, false))
        else Some((s'.(maxDepth := Min(s'.maxDepth, c + se.Net())), c + se.Net(), true))
    case Ret =>
      if s.exitSa.Some? && s.exitSa != Some(c) then None
      else Some((s.(exitSa := Some(c), maxDepth := Min(s.maxDepth, c)), c, false))
    case _ =>
      var d := c + op.StackAction();
      Some((s.(maxDepth := Min(s.maxDepth, d)), d, op.MayFallThrough()))
  }

  /** Take the next offset from the queue, or finish. */
  function NextTurn(s: Scan): (r: Turn)
    requires QueueGood(s)
    ensures r.Again? || r.Done?
    ensures r.Again? ==> |r.scan.sa| == |s.sa| && r.scan.off < |s.sa| && r.scan.sa[r.scan.off].Some?
    ensures r.Again? ==> QueueGood(r.scan)
  {
    if s.toExplore == [] then Done(s)
    else
      assert s.toExplore[0] in s.toExplore && forall i | i in s.toExplore[1..] :: i in s.toExplore;
      Again(s.(off := s.toExplore[0], toExplore := s.toExplore[1..]))
  }

  /** Queue the target of a jump and merge the depth into it. */
  function QueueJump(w: Word, s: Scan, d: int): (r: Option<Scan>)
    requires JumpsInRange(w) && s.off < |w.code| == |s.sa| && QueueGood(s)
    ensures r.Some? ==> |r.value.sa| == |s.sa| && r.value.off == s.off && QueueGood(r.value)
  {
    var op := w.code[s.off];
    if !op.IsJump() || op.disp == Some(0) then Some(s)
    else
      var j := s.off + 1 + op.disp.value;
      if !Agrees(s.sa, j, d) then None
      else Some(s.(toExplore := s.toExplore + [j], sa := s.sa[j := Some(d)]))
  }

  /** Go on to the following opcode when it is reached for the first time. */
  function FallThrough(s: Scan, d: int, mft: bool): (r: Turn)
    requires s.off < |s.sa| && QueueGood(s)
    ensures !r.Waiting?
    ensures r.Again? ==> |r.scan.sa| == |s.sa| && r.scan.off < |s.sa| && r.scan.sa[r.scan.off].Some?
    ensures r.Again? ==> QueueGood(r.scan)
  {
    if !mft then NextTurn(s)
    else if s.off + 1 >= |s.sa| || !Agrees(s.sa, s.off + 1, d) then Raised
    else if s.sa[s.off + 1].None? then Again(s.(off := s.off + 1, sa := s.sa[s.off + 1 := Some(d)]))
    else NextTurn(s)
  }

  /** One turn of the loop. */
  function TurnOf(ne: NativeEffects, table: Table, w: Word, s: Scan): (r: Turn)
    requires JumpsInRange(w) && ScanGood(w, s)
    ensures r.Again? ==> ScanGood(w, r.scan)
  {
    var op := w.code[s.off];
    if op.Call? && !Analysed(table, op.target) then Waiting
    else TurnReady(ne, table, w, s)
  }

  function TurnReady(ne: NativeEffects, table: Table, w: Word, s: Scan): (r: Turn)
    requires JumpsInRange(w) && ScanGood(w, s)
    ensures r.Again? ==> ScanGood(w, r.scan)
    ensures !r.Waiting?
  {
    match Account(ne, table, w.code[s.off], s, s.sa[s.off].value)
    case None => Raised
    case Some((s1, d, mft)) =>
      match QueueJump(w, s1, d)
      case None => Raised
      case Some(s2) => FallThrough(s2, d, mft)
  }

  // ----- the certificate -----

  /** What the scan knows once the opcode at i has been dealt with. */
  predicate OpDone(ne: NativeEffects, table: Table, w: Word, s: Scan, i: nat)
    requires i < |w.code| == |s.sa| && s.sa[i].Some?
  {
    var c := s.sa[i].value;
    match w.code[i]
    case Call(t) =>
      var se := EffectOf(ne, table, t);
      && Analysed(table, t) && se.IsKnown()
      && s.mrs >= ReturnCost(table, t)
      && s.maxDepth <= c - se.din
      && (se.Exits() ==> s.maxDepth <= c + se.Net() && i + 1 < |s.sa| && s.sa[i + 1] == Some(c + se.Net()))
    case Ret => s.exitSa == Some(c)
    case op =>
      var d := c + op.StackAction();
      && s.maxDepth <= d
      && (op.MayFallThrough() ==> i + 1 < |s.sa| && s.sa[i + 1] == Some(d))
      && (op.IsJump() ==> Leads(s, i, op.disp, d))
  }

  predicate Leads(s: Scan, i: nat, disp: Option<int>, d: int)
  {
    disp.Some? && 0 <= i + 1 + disp.value < |s.sa| && s.sa[i + 1 + disp.value] == Some(d)
  }

  /** Offsets still to be dealt with. */
  predicate Pending(s: Scan, i: nat)
  {
    i == s.off || i in s.toExplore
  }

  /** Between turns every reached offset is dealt with or pending. */
  ghost predicate ScanInv(ne: NativeEffects, table: Table, w: Word, s: Scan)
  {
    && ScanGood(w, s)
    && s.maxDepth <= 0
    && s.sa[0] == Some(0)
    && (forall i | 0 <= i < |s.sa| && s.sa[i].Some? :: s.maxDepth <= s.sa[i].value)
    && (s.exitSa.Some? ==> s.maxDepth <= s.exitSa.value)
    && forall i | 0 <= i < |s.sa| && s.sa[i].Some? :: OpDone(ne, table, w, s, i) || Pending(s, i)
  }

  /** A finished scan: nothing is pending. */
  ghost predicate Certifies(ne: NativeEffects, table: Table, w: Word, s: Scan)
  {
    && |s.sa| == |w.code| > 0
    && s.maxDepth <= 0
    && s.sa[0] == Some(0)
    && (s.exitSa.Some? ==> s.maxDepth <= s.exitSa.value)
    && forall i | 0 <= i < |s.sa| && s.sa[i].Some? :: OpDone(ne, table, w, s, i) && s.maxDepth <= s.sa[i].value
  }

  function Computed(s: Scan): SType
  {
    if s.exitSa.None? then Make(-s.maxDepth, -1) else Make(-s.maxDepth, -s.maxDepth + s.exitSa.value)
  }

  /** Word k was accepted: some finished scan certifies it, and the recorded
      effect and return cost are what the scan computed or what was declared. */
  ghost predicate AcceptedBy(words: seq<Word>, ne: NativeEffects, table: Table, k: nat, s: Scan)
    requires k < |words| == |table|
  {
    && Certifies(ne, table, words[k], s)
    && Computed(s).IsSubOf(table[k].effect)
    && table[k].mrs == 1 + words[k].numLocals + s.mrs
  }

  ghost predicate TableGood(words: seq<Word>, ne: NativeEffects, table: Table)
  {
    && |table| == |words|
    && forall k | 0 <= k < |table| && table[k].state == 1 :: exists s :: AcceptedBy(words, ne, table, k, s)
  }

  /** Entries of analysed words are final. */
  predicate Extends(table: Table, table': Table)
  {
    |table'| == |table| && forall k | 0 <= k < |table| && table[k].state == 1 :: table'[k] == table[k]
  }

  // ----- one turn keeps the invariant -----

  lemma OpDoneExtends(ne: NativeEffects, table: Table, table': Table, w: Word, s: Scan, i: nat)
    requires Extends(table, table') && i < |w.code| == |s.sa| && s.sa[i].Some?
    requires OpDone(ne, table, w, s, i)
    ensures OpDone(ne, table', w, s, i)
  {
  }

  lemma CertifiesExtends(ne: NativeEffects, table: Table, table': Table, w: Word, s: Scan)
    requires Extends(table, table') && Certifies(ne, table, w, s)
    ensures Certifies(ne, table', w, s)
  {
    forall i | 0 <= i < |s.sa| && s.sa[i].Some?
      ensures OpDone(ne, table', w, s, i)
    {
      OpDoneExtends(ne, table, table', w, s, i);
    }
  }

  lemma AcceptedExtends(words: seq<Word>, ne: NativeEffects, table: Table, table': Table)
    requires TableGood(words, ne, table) && Extends(table, table')
    ensures forall k | 0 <= k < |table| && table[k].state == 1 :: exists s :: AcceptedBy(words, ne, table', k, s)
  {
    forall k | 0 <= k < |table| && table[k].state == 1
      ensures exists s :: AcceptedBy(words, ne, table', k, s)
    {
      var s :| AcceptedBy(words, ne, table, k, s);
      CertifiesExtends(ne, table, table', words[k], s);
      assert AcceptedBy(words, ne, table', k, s);
    }
  }

  /** s' knows at least what s knows. */
  predicate Grows(s: Scan, s': Scan)
  {
    && |s'.sa| == |s.sa|
    && (forall i | 0 <= i < |s.sa| && s.sa[i].Some? :: s'.sa[i] == s.sa[i])
    && (s.exitSa.Some? ==> s'.exitSa == s.exitSa)
    && s'.mrs >= s.mrs
    && s'.maxDepth <= s.maxDepth
  }

  lemma OpDoneGrows(ne: NativeEffects, table: Table, w: Word, s: Scan, s': Scan, i: nat)
    requires Grows(s, s') && i < |w.code| == |s.sa| && s.sa[i].Some?
    requires OpDone(ne, table, w, s, i)
    ensures OpDone(ne, table, w, s', i)
  {
  }

  lemma InitialScan(ne: NativeEffects, table: Table, w: Word)
    requires w.code != []
    ensures ScanInv(ne, table, w, FirstScan(w))
  {
  }

  /** What Account establishes about the opcode at depth c. */
  predicate Accounted(ne: NativeEffects, table: Table, op: Op, s: Scan, c: int, d: int, mft: bool)
  {
    && s.maxDepth <= d
    && match op
       case Call(t) =>
         var se := EffectOf(ne, table, t);
         && se.IsKnown() && s.mrs >= ReturnCost(table, t) && s.maxDepth <= c - se.din
         && mft == !se.NoExit() && (mft ==> d == c + se.Net())
       case Ret => s.exitSa == Some(c) && !mft && d == c
       case _ => d == c + op.StackAction() && mft == op.MayFallThrough()
  }

  lemma AccountKeeps(ne: NativeEffects, table: Table, op: Op, s: Scan, c: int)
    requires Account(ne, table, op, s, c).Some?
    ensures var (s1, d, mft) := Account(ne, table, op, s, c).value;
            && s1.sa == s.sa && s1.toExplore == s.toExplore && s1.off == s.off
            && Grows(s, s1)
            && (s1.exitSa == s.exitSa || s1.exitSa == Some(c))
            && Accounted(ne, table, op, s1, c, d, mft)
  {
  }

  lemma QueueKeeps(w: Word, s: Scan, d: int)
    requires JumpsInRange(w) && s.off < |w.code| == |s.sa| && QueueGood(s)
    requires QueueJump(w, s, d).Some?
    ensures var s' := QueueJump(w, s, d).value;
            && Grows(s, s') && s'.off == s.off && s'.maxDepth == s.maxDepth && s'.mrs == s.mrs && s'.exitSa == s.exitSa
            && (forall i | i in s.toExplore :: i in s'.toExplore)
            && (forall i | i in s'.toExplore :: i in s.toExplore || (i < |s'.sa| && s'.sa[i].Some?))
            && (forall i | 0 <= i < |s.sa| && s'.sa[i].Some? && s.sa[i].None? ::
                  i in s'.toExplore && s'.sa[i] == Some(d))
            && (w.code[s.off].IsJump() && w.code[s.off].disp != Some(0) ==> Leads(s', s.off, w.code[s.off].disp, d))
  {
    var op := w.code[s.off];
    if op.IsJump() && op.disp != Some(0) {
      var j := s.off + 1 + op.disp.value;
      var q := s.toExplore + [j];
      assert q[|q| - 1] == j && j in q;
    }
  }

  lemma FallKeeps(s: Scan, d: int, mft: bool)
    requires s.off < |s.sa| && QueueGood(s) && FallThrough(s, d, mft) != Raised
    ensures var r := FallThrough(s, d, mft);
            && Grows(s, r.scan)
            && r.scan.maxDepth == s.maxDepth && r.scan.mrs == s.mrs && r.scan.exitSa == s.exitSa
            && (mft ==> s.off + 1 < |s.sa| && r.scan.sa[s.off + 1] == Some(d))
            && (r.Again? ==> forall i | i in s.toExplore :: Pending(r.scan, i))
            && (r.Again? ==> forall i | i in r.scan.toExplore :: i in s.toExplore)
            && (r.Again? ==> r.scan.off in s.toExplore || (r.scan.off < |s.sa| && r.scan.sa[r.scan.off].Some?))
            && (r.Done? ==> s.toExplore == [] && r.scan == s)
            && (forall i | 0 <= i < |s.sa| && r.scan.sa[i].Some? && s.sa[i].None? ::
                  r.Again? && i == r.scan.off && r.scan.sa[i] == Some(d))
  {
  }

  lemma OffDone(ne: NativeEffects, table: Table, w: Word, s1: Scan, s2: Scan, s3: Scan, c: int, d: int, mft: bool)
    requires JumpsInRange(w) && s1.off < |w.code| == |s1.sa| && s1.sa[s1.off] == Some(c)
    requires Accounted(ne, table, w.code[s1.off], s1, c, d, mft)
    requires w.code[s1.off].Call? ==> Analysed(table, w.code[s1.off].target)
    requires Grows(s1, s2) && s2.maxDepth == s1.maxDepth
    requires w.code[s1.off].IsJump() && w.code[s1.off].disp != Some(0) ==> Leads(s2, s1.off, w.code[s1.off].disp, d)
    requires Grows(s2, s3) && s3.maxDepth == s2.maxDepth
    requires mft ==> s1.off + 1 < |s3.sa| && s3.sa[s1.off + 1] == Some(d)
    ensures OpDone(ne, table, w, s3, s1.off)
  {
  }

  /** A turn of the loop keeps the invariant; a finished scan certifies. The
      scan s1 has accounted for the opcode at off, s2 has queued its jump. */
  lemma TurnKeeps(ne: NativeEffects, table: Table, w: Word, s: Scan)
    requires JumpsInRange(w) && ScanInv(ne, table, w, s)
    ensures var r := TurnOf(ne, table, w, s);
            && (r.Again? ==> ScanInv(ne, table, w, r.scan))
            && (r.Done? ==> Certifies(ne, table, w, r.scan))
  {
    hide OpDone, Account, QueueJump, FallThrough, Accounted, Leads, Analysed;
    var r := TurnOf(ne, table, w, s);
    if r.Again? || r.Done? {
      var c := s.sa[s.off].value;
      AccountKeeps(ne, table, w.code[s.off], s, c);
      var (s1, d, mft) := Account(ne, table, w.code[s.off], s, c).value;
      var s2 := QueueJump(w, s1, d).value;
      QueueKeeps(w, s1, d);
      FallKeeps(s2, d, mft);
      DepthBelow(ne, table, w.code[s.off], s1, c, d, mft);
      OffDone(ne, table, w, s1, s2, r.scan, c, d, mft);
      forall i | 0 <= i < |s.sa| && r.scan.sa[i].Some?
        ensures OpDone(ne, table, w, r.scan, i) || (r.Again? && Pending(r.scan, i))
        ensures r.scan.maxDepth <= r.scan.sa[i].value
      {
        if i != s.off && s.sa[i].Some? && OpDone(ne, table, w, s, i) {
          OpDoneGrows(ne, table, w, s, r.scan, i);
        }
      }
    }
  }

  lemma DepthBelow(ne: NativeEffects, table: Table, op: Op, s: Scan, c: int, d: int, mft: bool)
    requires Accounted(ne, table, op, s, c, d, mft)
    ensures s.maxDepth <= d
  {
  }
}
