/** The whole toolchain: a structured source word, built by the word builder,
    accepted by the flow analysis, and generated as bytes, runs on the emitted
    machine as its source means. */
module EndToEnd {
  import opened Base128
  import opened Wrappers
  import opened Program
  import opened BuilderSpec
  import opened WordBuilder
  import opened Structured
  import opened StructuredRun
  import opened FlowSpec
  import opened FlowSound
  import opened VmSpec
  import Layout
  import opened Generate
  import opened Simulation

  // ----- from source to opcodes -----

  /** Definition of the local variables, in order. */
  function Defs(names: seq<string>): seq<Action>
  {
    if names == [] then [] else [DefLocal(names[0])] + Defs(names[1..])
  }

  predicate DistinctNames(names: seq<string>)
  {
    forall i, j | 0 <= i < j < |names| :: names[i] != names[j]
  }

  lemma {:induction false} DefsNumber(b: Builder, done: seq<string>, names: seq<string>)
    requires Inv(b) && NamesNumbered(b.locals, done) && |b.locals| == |done|
    requires DistinctNames(done + names)
    ensures var r := ApplyAll(b, Defs(names));
            && r.Ok? && Inv(r.value)
            && r.value == b.(locals := r.value.locals)
            && NamesNumbered(r.value.locals, done + names) && |r.value.locals| == |done + names|
    decreases |names|
  {
    if names == [] {
      assert done + names == done;
    } else {
      var all := done + names;
      forall i | 0 <= i < |done| ensures done[i] != names[0] {
        assert all[i] == done[i] && all[|done|] == names[0];
      }
      ApplyKeeps(b, DefLocal(names[0]));
      var b' := Apply(b, DefLocal(names[0])).value;
      assert done + [names[0]] + names[1..] == all;
      assert (done + [names[0]])[|done|] == names[0];
      DefsNumber(b', done + [names[0]], names[1..]);
      assert Defs(names)[1..] == Defs(names[1..]);
    }
  }

  /** The word that a new builder makes of a source. */
  function MadeWord(start: Builder, names: seq<string>, body: Stmt): Result<Builder>
  {
    match ApplyAll(start, Defs(names) + Calls(body, names))
    case Raise => Raise
    case Ok(b) => BuildWord(b)
  }

  /** The calls that the compiler makes for a word build exactly the opcodes of
      its body, with a ret when control can reach the end, its locals, and the
      names that are to be looked up. */
  lemma BuilderMakesWord(names: seq<string>, body: Stmt)
    requires DistinctNames(names) && WellFormed(body, names)
    ensures MadeWord(FRESH, names, body).Ok? && BuiltGood(MadeWord(FRESH, names, body).value)
    ensures MadeWord(FRESH, names, body).value.code == WordCode(body)
    ensures |MadeWord(FRESH, names, body).value.locals| == |names|
    ensures MadeWord(FRESH, names, body).value.names == WordNames(body)
  {
    hide Calls, Code, Awaited, WellFormed;
    FreshInv();
    assert [] + names == names;
    DefsNumber(FRESH, [], names);
    var b1 := ApplyAll(FRESH, Defs(names)).value;
    CallsAppend(b1, body, names);
    ApplyAllSplit(FRESH, Defs(names), Calls(body, names));
    var b2 := ApplyAll(b1, Calls(body, names)).value;
    assert Live(b2) == Live(b1) == Live(FRESH) == [];
    CallsDefineNothing(body, names);
    ApplyAllWaits(b1, Calls(body, names));
    CallsAwait(b1.locals, body, names);
    assert b2.names == Awaited(body);
    Finish(b2, body);
    BuildGood(b2);
  }

  /** The names that the opcodes of a word wait for, its ret included. */
  function WordNames(body: Stmt): seq<Option<string>>
  {
    Awaited(body) + if Reaches(body, true) then [None] else []
  }

  lemma Finish(b: Builder, body: Stmt)
    requires Inv(b) && Live(b) == [] && b.code == Code(body) && Open(b) == Reaches(body, true)
    requires b.names == Awaited(body)
    ensures BuildWord(b).Ok? && BuildWord(b).value.code == WordCode(body) && BuildWord(b).value.locals == b.locals
    ensures BuildWord(b).value.names == WordNames(body)
  {
    assert b.ptr == -1;
  }

  // ----- the CPU does what the source means -----

  /** The run is over. */
  predicate Over(s: Step)
  {
    match s
    case Next(c) => c.ip.Nowhere?
    case _ => true
  }

  lemma OverStays(words: seq<Word>, native: Natives, c: Cpu, m: nat, n: nat)
    requires m <= n && Over(RunCpu(words, native, c, m))
    ensures RunCpu(words, native, c, n) == RunCpu(words, native, c, m)
  {
    RunCpuSplit(words, native, c, m, n - m);
  }

  /** How a run of a word from outside ends, given how its body does. */
  function Final(out: Out): Step
    requires !out.OutOfFuel?
  {
    match out
    case Fell(m) => Next(Cpu(Nowhere, m.stack, []))
    case Returned(m) => Next(Cpu(Nowhere, m.stack, []))
    case Ended => Stopped
    case GotStuck => Stuck
  }

  /** The meaning of source word k on a stack, its locals unwritten. */
  function Meaning(p: seq<Source>, native: Natives, k: nat, stack: seq<int32>, fuel: nat): Out
    requires k < |p|
  {
    Exec(p, native, p[k].body, Mem(stack, seq(p[k].numLocals, _ => None)), fuel)
  }

  lemma MeaningRuns(p: seq<Source>, words: seq<Word>, native: Natives, k: nat, stack: seq<int32>, fuel: nat)
    returns (n: nat)
    requires Compiled(p, words) && k < |p|
    ensures var out := Meaning(p, native, k, stack, fuel);
            var s := RunCpu(words, native, Start(words, k, stack), n);
            if out.OutOfFuel? then !Over(s) && n > fuel else s == Final(out)
  {
    var a := Act(words, p, native, k, Nowhere, []);
    var m := Mem(stack, seq(p[k].numLocals, _ => None));
    assert a.At(0, m) == Start(words, k, stack);
    n := WordRuns(a, m, fuel);
  }

  /** Source and opcodes agree on every outcome: a run of the compiled word
      ends in s exactly when the source, given some amount of fuel, does. */
  lemma MeaningExact(p: seq<Source>, words: seq<Word>, native: Natives, k: nat, stack: seq<int32>, s: Step)
    requires Compiled(p, words) && k < |p|
    ensures (exists n: nat :: RunCpu(words, native, Start(words, k, stack), n) == s && Over(s)) <==>
            (exists fuel: nat :: !Meaning(p, native, k, stack, fuel).OutOfFuel?
                                 && Final(Meaning(p, native, k, stack, fuel)) == s)
  {
    hide RunCpu, Exec, Code;
    var c := Start(words, k, stack);
    if n: nat :| RunCpu(words, native, c, n) == s && Over(s) {
      var n' := MeaningRuns(p, words, native, k, stack, n);
      if n' <= n {
        if !Meaning(p, native, k, stack, n).OutOfFuel? {
          OverStays(words, native, c, n', n);
        }
      } else {
        OverStays(words, native, c, n, n');
      }
    }
    if fuel: nat :| !Meaning(p, native, k, stack, fuel).OutOfFuel? && Final(Meaning(p, native, k, stack, fuel)) == s {
      var n := MeaningRuns(p, words, native, k, stack, fuel);
    }
  }

  // ----- the machine does what the CPU does -----

  /** An accepted word, generated: the program, its analysis, and where the
      machine's stacks are to start. */
  ghost predicate Ready(g: Build, r: Run, stack: seq<int32>, rs: seq<uint32>, base: nat)
  {
    && g.Good() && r.Valid() && r.words == g.words && |stack| == r.d0
    && base + r.table[r.k0].mrs <= |rs|
  }

  /** The initial state of the machine, set up by the generated entry point. */
  function Boot(g: Build, k0: nat, stack: seq<int32>, rs: seq<uint32>, base: nat): VmStep
    requires g.Good()
  {
    EnterVm(g.Output(), Vm(0, ToU32s(stack), rs, base), g.slots.interpreted + k0)
  }

  lemma AcceptedRuns(g: Build, r: Run, stack: seq<int32>, rs: seq<uint32>, base: nat, n: nat)
    requires Ready(g, r, stack, rs, base)
    ensures RoomFor(g.words, r.native, Start(g.words, r.k0, stack), n, |rs| - base)
    ensures RunCpu(g.words, r.native, Start(g.words, r.k0, stack), n).Stuck? ==>
              ReadsUnwritten(g.words, r.native, Start(g.words, r.k0, stack), n)
    ensures var s := RunCpu(g.words, r.native, Start(g.words, r.k0, stack), n);
            s.Next? ==> r.Safe(s.cpu) && stack[..|stack| - r.table[r.k0].effect.din] <= s.cpu.stack
  {
    hide Run.Safe, Build.Good, RunCpu, ReadsUnwritten;
    var c := Start(g.words, r.k0, stack);
    var bottom := stack[..|stack| - r.table[r.k0].effect.din];
    StartIsSafe(r, stack);
    BottomKept(r, stack);
    forall m: nat | m <= n
      ensures var s := RunCpu(g.words, r.native, c, m);
              s.Next? ==> Cells(s.cpu.frames) <= |rs| - base
    {
      RunIsSafe(r, c, bottom, m);
    }
    RunIsSafe(r, c, bottom, n);
  }

  lemma BottomKept(r: Run, stack: seq<int32>)
    requires r.Valid() && |stack| == r.d0
    ensures 0 <= r.Floor() == |stack| - r.table[r.k0].effect.din <= |stack|
    ensures r.Keeps(Start(r.words, r.k0, stack), stack[..r.Floor()])
  {
    var s := r.ScanOf(r.k0);
  }

  lemma BootRelated(g: Build, r: Run, stack: seq<int32>, rs: seq<uint32>, base: nat)
    requires Ready(g, r, stack, rs, base)
    ensures var b := Boot(g, r.k0, stack, rs, base);
            b.Go? && Related(g, Start(g.words, r.k0, stack), b.vm, base) && |b.vm.rs| == |rs|
  {
    hide Build.Good, Build.Output, Related, EnterVm, Run.Valid;
    Sizes(g);
    Own(r, r.k0);
    StartSimulates(g, stack, rs, base, r.k0);
  }

  /** Flow analysis and code generation together: an accepted word, started by
      its generated entry point with the values its effect asks for and a
      return stack of the size the analysis reports, is followed by the machine
      step for step, for ever; the machine never leaves its memory unless the
      program reads a local variable it has not written. */
  lemma AcceptedMachine(g: Build, r: Run, stack: seq<int32>, rs: seq<uint32>, base: nat, n: nat)
    requires Ready(g, r, stack, rs, base)
    ensures var b := Boot(g, r.k0, stack, rs, base);
            var c := Start(g.words, r.k0, stack);
            && b.Go?
            && StepAs(g, RunCpu(g.words, r.native, c, n), RunVm(g.Output(), r.native, b.vm, n), base)
            && (RunVm(g.Output(), r.native, b.vm, n).Fault? ==> ReadsUnwritten(g.words, r.native, c, n))
  {
    hide Build.Good, Build.Output, RunCpu, RunVm, Related, RoomFor, ReadsUnwritten, Run.Safe, Boot;
    Sizes(g);
    BootRelated(g, r, stack, rs, base);
    AcceptedRuns(g, r, stack, rs, base, n);
    RunSimulates(g, r.native, Start(g.words, r.k0, stack), Boot(g, r.k0, stack, rs, base).vm, base, n);
  }

  // ----- from the results of the tools to that point -----

  /** w is what a builder holds, its names looked up in a dictionary. */
  predicate ResolvedFrom(b: Builder, dictionary: map<string, Target>, w: Word)
  {
    && w.numLocals == |b.locals| && |w.code| == |b.code| == |b.names|
    && forall i | 0 <= i < |b.code| ::
         && (b.names[i].Some? ==> b.names[i].value in dictionary)
         && w.code[i] == if b.names[i].Some? then Call(dictionary[b.names[i].value]) else b.code[i]
  }

  predicate BuiltFrom(start: Builder, s: Source, names: seq<string>, dictionary: map<string, Target>, w: Word)
  {
    && |names| == s.numLocals && DistinctNames(names) && WellFormed(s.body, names)
    && MadeWord(start, names, s.body).Ok? && ResolvedFrom(MadeWord(start, names, s.body).value, dictionary, w)
  }

  predicate CallsExist(words: seq<Word>, w: Word)
  {
    forall i | 0 <= i < |w.code| && w.code[i].Call? :: GoodTarget(words, w.code[i].target)
  }

  predicate AllExist(words: seq<Word>, dictionary: map<string, Target>)
  {
    forall name | name in dictionary :: GoodTarget(words, dictionary[name])
  }

  /** The source with its names looked up. */
  function Bound(s: Source, dictionary: map<string, Target>): Source
  {
    Source(s.numLocals, Bind(s.body, dictionary))
  }

  lemma BuiltWord(s: Source, names: seq<string>, dictionary: map<string, Target>, words: seq<Word>, w: Word)
    requires BuiltFrom(FRESH, s, names, dictionary, w) && CallsExist(words, w) && AllExist(words, dictionary)
    ensures w == Word(s.numLocals, WordCode(Bound(s, dictionary).body)) && GoodWord(words, w)
  {
    hide BuiltGood, MadeWord, WordCode, WordNames, Bind;
    BuilderMakesWord(names, s.body);
    var b := MadeWord(FRESH, names, s.body).value;
    CallsBefore(b, dictionary, words, w);
    ResolvedIsGood(b, dictionary, w.code, words);
    LookedUp(s.body, dictionary, b, w);
  }

  lemma CallsBefore(b: Builder, dictionary: map<string, Target>, words: seq<Word>, w: Word)
    requires BuiltGood(b) && ResolvedFrom(b, dictionary, w) && CallsExist(words, w)
    ensures forall i | 0 <= i < |b.code| && b.code[i].Call? && !b.code[i].target.Unresolved? ::
              GoodTarget(words, b.code[i].target)
  {
    forall i | 0 <= i < |b.code| && b.code[i].Call? && !b.code[i].target.Unresolved?
      ensures GoodTarget(words, b.code[i].target)
    {
      assert NameGood(b, i);
      assert w.code[i] == b.code[i];
    }
  }

  /** Looking up the names that the builder remembers is binding the source. */
  lemma LookedUp(body: Stmt, dictionary: map<string, Target>, b: Builder, w: Word)
    requires b.code == WordCode(body) && b.names == WordNames(body) && ResolvedFrom(b, dictionary, w)
    ensures w.code == WordCode(Bind(body, dictionary))
  {
    hide Code, Bind, Awaited, Reaches;
    BindResolves(body, dictionary);
    BindKeepsReach(body, dictionary, true);
    var ret: seq<Op>, none: seq<Option<string>> :=
      if Reaches(body, true) then [Ret] else [], if Reaches(body, true) then [None] else [];
    LookedConcat(Code(body), Awaited(body), ret, none, dictionary);
    assert AllLooked(ret, none, dictionary) == ret;
    assert w.code == AllLooked(b.code, b.names, dictionary);
  }

  /** The chain of tools: words built from their sources and resolved against a
      dictionary, an analysis that has accepted word k0, and a generated image,
      are all that the theorems ask for, provided that the image fits its
      16-bit fields; the sources are then those with their names looked up. */
  lemma ToolsMakeReady(p: seq<Source>, names: seq<seq<string>>, dictionary: map<string, Target>, words: seq<Word>,
                       ne: NativeEffects, native: Natives, table: Table, k0: nat, g: Build,
                       stack: seq<int32>, rs: seq<uint32>, base: nat)
    requires |p| == |names| == |words| && NativesRespect(ne, native) && AllExist(words, dictionary)
    requires forall k | 0 <= k < |p| ::
               BuiltFrom(FRESH, p[k], names[k], dictionary, words[k]) && CallsExist(words, words[k])
    requires TableGood(words, ne, table) && k0 < |words| && table[k0].state == 1
    requires g.words == words && g.SlotsGood() && Layout.TargetsInRange(g.Code()) && |g.lens| == BaseOf(words, |words|)
    requires Layout.Least(g.oneByte, g.Code(), g.lens) && g.Fits()
    requires table[k0].effect.din <= |stack| && base + table[k0].mrs <= |rs|
    ensures Compiled(seq(|p|, k requires 0 <= k < |p| => Bound(p[k], dictionary)), words)
    ensures Ready(g, Run(words, ne, table, native, k0, |stack|), stack, rs, base)
  {
    hide BuiltFrom, CallsExist, AllExist, GoodWord, TableGood, NativesRespect, Build.SlotsGood, Build.Fits, Build.Code,
      Layout.TargetsInRange, WordCode, Bind;
    forall k | 0 <= k < |p|
      ensures words[k] == Word(p[k].numLocals, WordCode(Bound(p[k], dictionary).body)) && GoodWord(words, words[k])
    {
      BuiltWord(p[k], names[k], dictionary, words, words[k]);
    }
  }

  /** What the machine must be seen to do for an outcome of the source. */
  ghost predicate MachineShows(v: VmStep, out: Out, base: nat)
  {
    match out
    case Fell(m) => v.Exited? && v.vm.ds == ToU32s(m.stack) && v.vm.rp == base
    case Returned(m) => v.Exited? && v.vm.ds == ToU32s(m.stack) && v.vm.rp == base
    case Ended => v.NativeExit?
    case GotStuck => true
    case OutOfFuel => v.Go?
  }

  /** The chain closed: for an accepted source word the generated bytes, run on
      the emitted machine, show the outcome that the source has; when the
      source leaves a stack, the machine exits with exactly its values and its
      return stack as it found it. A source stuck anywhere but on an unwritten
      local is excluded by the analysis. */
  lemma SourceToMachine(p: seq<Source>, g: Build, r: Run, stack: seq<int32>, rs: seq<uint32>, base: nat, fuel: nat)
    returns (n: nat)
    requires Ready(g, r, stack, rs, base) && Compiled(p, g.words) && r.k0 < |p|
    ensures var out := Meaning(p, r.native, r.k0, stack, fuel);
            var b := Boot(g, r.k0, stack, rs, base);
            && b.Go?
            && MachineShows(RunVm(g.Output(), r.native, b.vm, n), out, base)
            && (out.OutOfFuel? ==> n > fuel)
            && (out.GotStuck? ==> ReadsUnwritten(g.words, r.native, Start(g.words, r.k0, stack), n))
  {
    hide Build.Good, Build.Output, RunCpu, RunVm, Related, RoomFor, ReadsUnwritten, Run.Safe, Boot, Compiled,
      Meaning, FramesAs, Run.Valid;
    Sizes(g);
    n := MeaningRuns(p, g.words, r.native, r.k0, stack, fuel);
    AcceptedRuns(g, r, stack, rs, base, n);
    AcceptedMachine(g, r, stack, rs, base, n);
    var v := RunVm(g.Output(), r.native, Boot(g, r.k0, stack, rs, base).vm, n);
    if v.Exited? {
      NoFrames(g, v.vm.rs, v.vm.rp, base);
    }
  }

  lemma NoFrames(g: Build, rs: seq<uint32>, rp: int, base: nat)
    requires g.Good()
    ensures FramesAs(g, [], rs, rp, base) ==> rp == base
  {
    hide Build.Good;
  }
}
