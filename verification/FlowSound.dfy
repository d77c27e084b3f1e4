/** Soundness of the flow analysis: what acceptance of a word means for every
    run of it on the CPU, through all the words it calls. */
module FlowSound {
  import opened Base128
  import opened Wrappers
  import opened Program
  import opened FlowSpec

  /** Native words keep their declared effects: given enough values they stop
      the run, or leave the promised number of values and whatever was below. */
  ghost predicate NativesRespect(ne: NativeEffects, native: Natives)
  {
    forall cc: nat, s: seq<int32> {:trigger native(cc, s)} ::
      ne(cc).IsKnown() && |s| >= ne(cc).din && native(cc, s).Some? ==>
        var t := native(cc, s).value;
        var floor := |s| - ne(cc).din;
        ne(cc).Exits() && |t| == floor + ne(cc).dout && t[..floor] == s[..floor]
  }

  /** A run of word k0 started at depth d0, with all words it calls analysed. */
  datatype Run = Run(words: seq<Word>, ne: NativeEffects, table: Table, native: Natives, k0: nat, d0: nat)
  {
    ghost predicate Valid()
    {
      && GoodProgram(words)
      && TableGood(words, ne, table)
      && NativesRespect(ne, native)
      && k0 < |words| && table[k0].state == 1
      && d0 >= table[k0].effect.din
    }

    predicate Accepted(k: nat)
    {
      k < |words| && k < |table| && table[k].state == 1
    }

    /** The finished scan of an accepted word. */
    ghost function ScanOf(k: nat): (s: Scan)
      requires Valid() && Accepted(k)
      ensures AcceptedBy(words, ne, table, k, s)
      ensures Certifies(ne, table, words[k], s)
    {
      var s :| AcceptedBy(words, ne, table, k, s);
      s
    }

    /** Relative depth on reaching offset o of word k. */
    ghost function DepthAt(k: nat, o: int): Option<int>
      requires Valid() && Accepted(k)
    {
      if 0 <= o < |words[k].code| then ScanOf(k).sa[o] else None
    }

    /** The depth below which the run must not reach. */
    function Floor(): int
      requires k0 < |table|
    {
      d0 - table[k0].effect.din
    }

    /** frames is a stack of activations whose innermost one is of word k and
        was entered at depth e: each lies above the floor, and each was entered
        by a call opcode that its caller's scan has dealt with. */
    ghost predicate Chain(k: nat, frames: seq<Frame>, e: int)
      requires Valid()
      decreases |frames|
    {
      && frames != [] && Accepted(k)
      && |frames[0].locals| == words[k].numLocals
      && e - table[k].effect.din >= Floor()
      && if |frames| == 1 then frames[0].saved.Nowhere? && k == k0 && e == d0
         else
           var ip := frames[0].saved;
           && ip.Pos? && Accepted(ip.word) && CalledFrom(ip.word, ip.off - 1, k)
           && Chain(ip.word, frames[1..], e - DepthAt(ip.word, ip.off - 1).value)
    }

    ghost predicate CalledFrom(k: nat, o: int, callee: nat)
      requires Valid() && Accepted(k)
    {
      0 <= o < |words[k].code| && DepthAt(k, o).Some? && words[k].code[o] == Call(Interpreted(callee))
    }

    /** Where a run of k0 can be: at a reached opcode with exactly the depth
        the scan recorded for it, or back out with the promised net effect. */
    ghost predicate Safe(c: Cpu)
      requires Valid()
    {
      match c.ip
      case Nowhere =>
        c.frames == [] && table[k0].effect.Exits() && |c.stack| == d0 + table[k0].effect.Net()
      case Pos(k, o) =>
        && Accepted(k) && DepthAt(k, o).Some?
        && Chain(k, c.frames, |c.stack| - DepthAt(k, o).value)
    }

    /** The values the run must leave alone are still there. */
    predicate Keeps(c: Cpu, bottom: seq<int32>)
    {
      bottom <= c.stack
    }
  }

  /** The next opcode reads a local variable that was never written. */
  predicate UnwrittenRead(words: seq<Word>, c: Cpu)
  {
    && InCode(words, c) && OpAt(words, c).GetLocal? && c.frames != []
    && OpAt(words, c).num < |c.frames[0].locals| && c.frames[0].locals[OpAt(words, c).num].None?
  }

  lemma StartIsSafe(r: Run, stack: seq<int32>)
    requires r.Valid() && |stack| == r.d0
    ensures r.Safe(Start(r.words, r.k0, stack))
  {
    assert GoodWord(r.words, r.words[r.k0]);
    var s := r.ScanOf(r.k0);
  }

  /** What the certificate says of a reached opcode. */
  lemma Reached(r: Run, k: nat, o: nat)
    requires r.Valid() && r.Accepted(k) && r.DepthAt(k, o).Some?
    ensures o < |r.words[k].code|
    ensures var s := r.ScanOf(k);
            && |s.sa| == |r.words[k].code|
            && s.sa[o].Some?
            && OpDone(r.ne, r.table, r.words[k], s, o)
            && s.maxDepth <= s.sa[o].value
            && s.maxDepth <= 0
            && Computed(s).IsSubOf(r.table[k].effect)
            && r.table[k].mrs == 1 + r.words[k].numLocals + s.mrs
            && (s.exitSa.Some? ==> s.maxDepth <= s.exitSa.value)
  {
  }

  /** An opcode that keeps the activation: the depth moves by d - c and never
      below what the scan's lowest depth allows. */
  lemma StaysAbove(r: Run, k: nat, frames: seq<Frame>, e: int)
    requires r.Valid() && r.Chain(k, frames, e)
    ensures e + r.ScanOf(k).maxDepth >= r.Floor() >= 0
  {
    var s := r.ScanOf(k);
    assert Computed(s).IsSubOf(r.table[k].effect);
  }

  lemma ReturnEffect(r: Run, k: nat, c: int)
    requires r.Valid() && r.Accepted(k) && r.ScanOf(k).exitSa == Some(c)
    ensures r.table[k].effect.Exits() && r.table[k].effect.Net() == c
  {
    var s := r.ScanOf(k);
    assert Computed(s).IsSubOf(r.table[k].effect);
    assert s.maxDepth <= c && s.maxDepth <= 0;
  }

  lemma ChainLocals(r: Run, k: nat, frames: seq<Frame>, frames': seq<Frame>, e: int)
    requires r.Valid() && r.Chain(k, frames, e)
    requires frames' != [] && frames'[0].saved == frames[0].saved
    requires |frames'[0].locals| == |frames[0].locals| && frames'[1..] == frames[1..]
    ensures r.Chain(k, frames', e)
  {
    hide Run.Valid, Run.DepthAt, Run.CalledFrom, Run.Accepted, Run.Floor;
    assert |frames'| == 1 + |frames'[1..]| == 1 + |frames[1..]| == |frames|;
  }

  lemma GoodAt(r: Run, k: nat, o: nat)
    requires r.Valid() && r.Accepted(k) && o < |r.words[k].code|
    ensures GoodOp(r.words, r.words[k], o)
  {
    assert GoodWord(r.words, r.words[k]);
  }

  /** One step keeps Safe and the bottom of the stack, and has a meaning unless
      it reads a local variable that was never written. */
  lemma StepIsSafe(r: Run, c: Cpu, bottom: seq<int32>)
    requires r.Valid() && c.ip.Pos? && r.Safe(c)
    requires |bottom| == r.Floor() && r.Keeps(c, bottom)
    ensures InCode(r.words, c)
    ensures var s := StepCpu(r.words, r.native, c);
            && (s.Next? ==> r.Safe(s.cpu) && r.Keeps(s.cpu, bottom))
            && (s.Stuck? ==> UnwrittenRead(r.words, c))
  {
    var k, o := c.ip.word, c.ip.off;
    Reached(r, k, o);
    var d := r.DepthAt(k, o).value;
    var e := |c.stack| - d;
    StaysAbove(r, k, c.frames, e);
    GoodAt(r, k, o);
    var op := OpAt(r.words, c);
    if op.Call? && op.target.Native? {
      StepNative(r, c, bottom);
    } else if op.Call? && op.target.Interpreted? {
      StepEnter(r, c, bottom);
    } else if op.Ret? {
      StepReturn(r, c, bottom);
    } else if !op.Call? {
      StepPlain(r, c, bottom);
    }
  }

  lemma StepPlain(r: Run, c: Cpu, bottom: seq<int32>)
    requires r.Valid() && c.ip.Pos? && r.Safe(c) && InCode(r.words, c)
    requires |bottom| == r.Floor() && r.Keeps(c, bottom)
    requires !OpAt(r.words, c).Call? && !OpAt(r.words, c).Ret?
    ensures var s := StepCpu(r.words, r.native, c);
            && (s.Next? ==> r.Safe(s.cpu) && r.Keeps(s.cpu, bottom))
            && (s.Stuck? ==> UnwrittenRead(r.words, c))
  {
    hide Run.Valid, AcceptedBy, Certifies;
    var k, o := c.ip.word, c.ip.off;
    Reached(r, k, o);
    GoodAt(r, k, o);
    var e := |c.stack| - r.DepthAt(k, o).value;
    StaysAbove(r, k, c.frames, e);
    var s := StepCpu(r.words, r.native, c);
    if s.Next? && OpAt(r.words, c).PutLocal? {
      ChainLocals(r, k, c.frames, s.cpu.frames, e);
    }
  }

  lemma NativeEffect(r: Run, cc: nat, s: seq<int32>)
    requires r.Valid() && r.ne(cc).IsKnown() && |s| >= r.ne(cc).din && r.native(cc, s).Some?
    ensures var t := r.native(cc, s).value;
            var floor := |s| - r.ne(cc).din;
            r.ne(cc).Exits() && |t| == floor + r.ne(cc).dout && t[..floor] == s[..floor]
  {
  }

  lemma SamePrefix(t: seq<int32>, s: seq<int32>, floor: nat, bottom: seq<int32>)
    requires |bottom| <= floor <= |s| && floor <= |t| && t[..floor] == s[..floor] && bottom <= s
    ensures bottom <= t
  {
    assert t[..floor][..|bottom|] == s[..floor][..|bottom|] == s[..|bottom|] == bottom;
  }

  lemma StepNative(r: Run, c: Cpu, bottom: seq<int32>)
    requires r.Valid() && c.ip.Pos? && r.Safe(c) && InCode(r.words, c)
    requires |bottom| == r.Floor() && r.Keeps(c, bottom)
    requires OpAt(r.words, c).Call? && OpAt(r.words, c).target.Native?
    ensures var s := StepCpu(r.words, r.native, c);
            !s.Stuck? && (s.Next? ==> r.Safe(s.cpu) && r.Keeps(s.cpu, bottom))
  {
    hide Run.Valid, AcceptedBy, Certifies, Run.Chain;
    var k, o := c.ip.word, c.ip.off;
    Reached(r, k, o);
    StaysAbove(r, k, c.frames, |c.stack| - r.DepthAt(k, o).value);
    var cc := OpAt(r.words, c).target.cc;
    var res := r.native(cc, c.stack);
    if res.Some? {
      NativeEffect(r, cc, c.stack);
      SamePrefix(res.value, c.stack, |c.stack| - r.ne(cc).din, bottom);
    }
  }

  /** What acceptance says of a call of an interpreted word. */
  lemma CallAllowed(r: Run, k: nat, o: nat)
    requires r.Valid() && r.Accepted(k) && r.DepthAt(k, o).Some?
    requires o < |r.words[k].code| && r.words[k].code[o].Call? && r.words[k].code[o].target.Interpreted?
    ensures var k' := r.words[k].code[o].target.k;
            && r.Accepted(k') && r.CalledFrom(k, o, k')
            && r.ScanOf(k).maxDepth <= r.DepthAt(k, o).value - r.table[k'].effect.din
  {
    hide AcceptedBy, Certifies;
    Reached(r, k, o);
    GoodAt(r, k, o);
  }

  /** The first opcode of an accepted word is reached at relative depth 0. */
  lemma EntryReached(r: Run, k: nat)
    requires r.Valid() && r.Accepted(k)
    ensures r.DepthAt(k, 0) == Some(0)
  {
    var s := r.ScanOf(k);
  }

  lemma StepEnter(r: Run, c: Cpu, bottom: seq<int32>)
    requires r.Valid() && c.ip.Pos? && r.Safe(c) && InCode(r.words, c)
    requires |bottom| == r.Floor() && r.Keeps(c, bottom)
    requires OpAt(r.words, c).Call? && OpAt(r.words, c).target.Interpreted?
    ensures var s := StepCpu(r.words, r.native, c);
            s.Next? && r.Safe(s.cpu) && r.Keeps(s.cpu, bottom)
  {
    hide Run.Valid, Run.DepthAt, Run.CalledFrom;
    var k, o := c.ip.word, c.ip.off;
    var d := r.DepthAt(k, o).value;
    InTable(r);
    StaysAbove(r, k, c.frames, |c.stack| - d);
    CallAllowed(r, k, o);
    var k' := OpAt(r.words, c).target.k;
    EntryReached(r, k');
    var c' := StepCpu(r.words, r.native, c).cpu;
    assert c'.frames[1..] == c.frames;
    ChainEnter(r, k, o, c.frames, |c.stack| - d, k', c'.frames);
  }

  lemma ChainEnter(r: Run, k: nat, o: nat, frames: seq<Frame>, e: int, k': nat, frames': seq<Frame>)
    requires r.Valid() && r.Chain(k, frames, e) && r.DepthAt(k, o).Some? && r.Accepted(k') && r.CalledFrom(k, o, k')
    requires frames' != [] && frames'[1..] == frames && frames'[0].saved == Pos(k, o + 1)
    requires |frames'[0].locals| == r.words[k'].numLocals
    requires e + r.DepthAt(k, o).value - r.table[k'].effect.din >= r.Floor()
    ensures r.Chain(k', frames', e + r.DepthAt(k, o).value)
  {
    hide Run.Valid, Run.DepthAt;
    assert |frames'| == 1 + |frames| > 1 by {
      ChainCaller(r, k, frames, e);
    }
  }

  lemma StepReturn(r: Run, c: Cpu, bottom: seq<int32>)
    requires r.Valid() && c.ip.Pos? && r.Safe(c) && InCode(r.words, c)
    requires |bottom| == r.Floor() && r.Keeps(c, bottom)
    requires OpAt(r.words, c).Ret?
    ensures var s := StepCpu(r.words, r.native, c);
            s.Next? && r.Safe(s.cpu) && r.Keeps(s.cpu, bottom)
  {
    hide Run.Valid, Run.Chain, Run.DepthAt;
    var k, o := c.ip.word, c.ip.off;
    var d := r.DepthAt(k, o).value;
    var e := |c.stack| - d;
    InTable(r);
    RetDone(r, k, o);
    ReturnEffect(r, k, d);
    ChainCaller(r, k, c.frames, e);
    if |c.frames| > 1 {
      var ip := c.frames[0].saved;
      CallDone(r, ip.word, ip.off - 1, k);
    }
  }

  lemma InTable(r: Run)
    requires r.Valid()
    ensures r.k0 < |r.table| && r.k0 < |r.words|
  {
  }

  lemma ChainCaller(r: Run, k: nat, frames: seq<Frame>, e: int)
    requires r.Valid() && r.Chain(k, frames, e)
    ensures frames != []
    ensures |frames| == 1 ==> frames[0].saved.Nowhere? && k == r.k0 && e == r.d0 && frames[1..] == []
    ensures |frames| > 1 ==>
              var ip := frames[0].saved;
              && ip.Pos? && r.Accepted(ip.word) && r.CalledFrom(ip.word, ip.off - 1, k)
              && r.Chain(ip.word, frames[1..], e - r.DepthAt(ip.word, ip.off - 1).value)
  {
    hide Run.Valid;
  }

  lemma RetDone(r: Run, k: nat, o: nat)
    requires r.Valid() && r.Accepted(k) && r.DepthAt(k, o).Some?
    requires r.words[k].code[o].Ret?
    ensures r.ScanOf(k).exitSa == r.DepthAt(k, o)
    ensures o < |r.words[k].code|
  {
    hide Run.Valid, AcceptedBy, Certifies;
    Reached(r, k, o);
  }

  /** Behind a call of a word that exits, the scan goes on at the net depth. */
  lemma CallDone(r: Run, k: nat, o: nat, callee: nat)
    requires r.Valid() && r.Accepted(k) && r.CalledFrom(k, o, callee)
    ensures callee < |r.table|
    ensures var se := r.table[callee].effect;
            se.Exits() ==> r.DepthAt(k, o + 1) == Some(r.DepthAt(k, o).value + se.Net())
  {
    hide Run.Valid, AcceptedBy, Certifies;
    Reached(r, k, o);
  }

  // ----- the return stack -----

  /** The frames of a run of k0, the innermost being of word k, leave room for
      everything that k may still call. */
  lemma {:induction false} ChainCost(r: Run, k: nat, frames: seq<Frame>, e: int)
    requires r.Valid() && r.Chain(k, frames, e)
    ensures Cells(frames[1..]) + r.table[k].mrs <= r.table[r.k0].mrs
    ensures Cells(frames) <= r.table[r.k0].mrs
    decreases |frames|
  {
    hide Run.Valid, AcceptedBy, Certifies;
    Own(r, k);
    if |frames| > 1 {
      var ip := frames[0].saved;
      ChainCost(r, ip.word, frames[1..], e - r.DepthAt(ip.word, ip.off - 1).value);
      Reached(r, ip.word, ip.off - 1);
    }
  }

  lemma Own(r: Run, k: nat)
    requires r.Valid() && (k == r.k0 || r.Accepted(k))
    ensures r.Accepted(k)
    ensures r.table[k].mrs >= 1 + r.words[k].numLocals
  {
    var s := r.ScanOf(k);
  }

  // ----- whole runs -----

  /** Soundness, for every run of an accepted word started with at least the
      values that its effect asks for, after any number of steps: the values
      below those are untouched, every opcode is reached at the depth recorded
      for it, the run is over only with the promised net effect (so never, for
      a word that does not exit), nothing but a native word or an unwritten
      local stops it, and the return stack stays within max_return_stack. */
  lemma {:induction false} RunIsSafe(r: Run, c: Cpu, bottom: seq<int32>, n: nat)
    requires r.Valid() && r.Safe(c)
    requires |bottom| == r.Floor() && r.Keeps(c, bottom)
    ensures match RunCpu(r.words, r.native, c, n)
            case Next(c') => r.Safe(c') && r.Keeps(c', bottom) && Cells(c'.frames) <= r.table[r.k0].mrs
            case Stopped => true
            case Stuck => ReadsUnwritten(r.words, r.native, c, n)
    decreases n
  {
    hide Run.Valid, Run.Keeps, Run.Chain, StepCpu, UnwrittenRead;
    Own(r, r.k0);
    if n == 0 || c.ip.Nowhere? {
      if c.ip.Pos? {
        ChainCost(r, c.ip.word, c.frames, |c.stack| - r.DepthAt(c.ip.word, c.ip.off).value);
      }
    } else {
      StepIsSafe(r, c, bottom);
      var s := StepCpu(r.words, r.native, c);
      if s.Next? {
        RunIsSafe(r, s.cpu, bottom, n - 1);
      }
    }
  }

  /** Within n steps the run reads a local variable that was never written. */
  predicate ReadsUnwritten(words: seq<Word>, native: Natives, c: Cpu, n: nat)
    decreases n
  {
    n > 0 && c.ip.Pos? &&
    match StepCpu(words, native, c)
    case Next(c') => ReadsUnwritten(words, native, c', n - 1)
    case Stopped => false
    case Stuck => UnwrittenRead(words, c)
  }
}
