/** The lines of whole messages: saying one, hearing one, and exchanges of
    several between a party that speaks and one that listens. */
module HandshakeLegs {
  import opened Lines
  import opened Handshake
  import opened HandshakeRuns

  /** All bytes of a message, in records of the given type. */
  function Bytes(rtype: nat, m: Msg, length: nat): (r: seq<Tok>)
    ensures |r| == length
  {
    seq(length, k requires 0 <= k < length => Tok(rtype, m, k, length))
  }

  /** p can write toks, without reading, and become q. */
  ghost predicate Tells(p: Party, q: Party, toks: seq<Tok>)
  {
    exists l: Line<Tok> :: TellsBy(p, q, toks, l)
  }

  ghost predicate TellsBy(p: Party, q: Party, toks: seq<Tok>, l: Line<Tok>)
  {
    Follows(p, l) && At(p, l) == q && Speaks(l) && Writes(l) == toks
  }

  /** p can read toks, without writing, and become q. */
  ghost predicate Hears(p: Party, q: Party, toks: seq<Tok>)
  {
    exists l: Line<Tok> :: HearsBy(p, q, toks, l)
  }

  ghost predicate HearsBy(p: Party, q: Party, toks: seq<Tok>, l: Line<Tok>)
  {
    Follows(p, l) && At(p, l) == q && (forall a <- l :: a.Read?) && Reads(l) == toks
  }

  lemma TellsThen(p: Party, q: Party, r: Party, a: seq<Tok>, b: seq<Tok>)
    requires Tells(p, q, a) && Tells(q, r, b)
    ensures Tells(p, r, a + b)
  {
    var l: Line<Tok> :| TellsBy(p, q, a, l);
    var m: Line<Tok> :| TellsBy(q, r, b, m);
    FollowsConcat(p, l, m);
    AtConcat(p, l, m);
    Concat(l, m);
    assert TellsBy(p, r, a + b, l + m);
  }

  lemma HearsThen(p: Party, q: Party, r: Party, a: seq<Tok>, b: seq<Tok>)
    requires Hears(p, q, a) && Hears(q, r, b)
    ensures Hears(p, r, a + b)
  {
    var l: Line<Tok> :| HearsBy(p, q, a, l);
    var m: Line<Tok> :| HearsBy(q, r, b, m);
    FollowsConcat(p, l, m);
    AtConcat(p, l, m);
    Concat(l, m);
    assert HearsBy(p, r, a + b, l + m);
  }

  lemma TellsNothing(p: Party)
    ensures Tells(p, p, []) && Hears(p, p, [])
  {
    assert TellsBy(p, p, [], []) && HearsBy(p, p, [], []);
  }

  lemma OneAct(p: Party, a: Act<Tok>)
    requires Matches(WantOf(p), a)
    ensures Follows(p, [a]) && At(p, [a]) == Did(p, a)
    ensures Writes([a]) == (if a.Write? then [a.tok] else []) && Reads([a]) == if a.Read? then [a.tok] else []
    ensures Flushed([a]) == 0
  {
    assert [a][..0] == [];
    assert FollowsAt(p, [a], 0);
  }

  /** A step that neither reads nor writes. */
  lemma TellsByThinking(p: Party)
    requires WantOf(p) == Thinks || WantOf(p) == Pushes
    ensures Tells(p, Did(p, if WantOf(p) == Thinks then Think else Flush), [])
  {
    var a: Act<Tok> := if WantOf(p) == Thinks then Think else Flush;
    OneAct(p, a);
    assert TellsBy(p, Did(p, a), [], [a]);
  }

  function Rest(m: seq<Tok>, k: nat): seq<Tok>
    requires k <= |m|
  {
    m[k..]
  }

  lemma {:induction false} SaysRest(p: Party, m: Msg)
    requires WantOf(p).Emits? && p.ops[0] == Say(m) && p.progress < Length(p, m)
    ensures Tells(p, Said(p, m), Rest(Bytes(p.recordType, m, Length(p, m)), p.progress))
    decreases Length(p, m) - p.progress
  {
    var n := Length(p, m);
    var t := Tok(p.recordType, m, p.progress, n);
    var bytes := Bytes(p.recordType, m, n);
    var q := Did(p, Write(t));
    OneAct(p, Write(t));
    assert TellsBy(p, q, [t], [Write(t)]);
    assert bytes[p.progress..] == [t] + bytes[p.progress + 1..];
    if p.progress + 1 < n {
      SaysRest(q, m);
      TellsThen(p, q, Said(p, m), [t], bytes[p.progress + 1..]);
    } else {
      assert bytes[p.progress..] == [t];
    }
  }

  /** A party about to say m writes all of it. */
  lemma Says(p: Party, m: Msg)
    requires p.status == Running && p.ops != [] && p.ops[0] == Say(m) && p.progress == 0
    ensures Tells(p, Said(p, m), Bytes(p.recordType, m, Length(p, m)))
  {
    SaysRest(p, m);
    var bytes := Bytes(p.recordType, m, Length(p, m));
    assert bytes[0..] == bytes;
  }

  /** The listener when it has heard all of m. */
  function HeardAll(p: Party, m: Msg): Party
    requires p.ops != [] && p.ops[0].Hear?
  {
    Accept(p.(progress := 0, ops := p.ops[1..]), p.ops[0].point, m)
    .(transcript := Hashed(p, RecordOf(p.ops[0].point), m))
  }

  lemma {:induction false} HearsRest(p: Party, m: Msg, length: nat)
    requires WantOf(p).Needs? && p.progress < length && Admits(p.ops[0].point, m)
    ensures Hears(p, HeardAll(p, m), Rest(Bytes(RecordOf(p.ops[0].point), m, length), p.progress))
    decreases length - p.progress
  {
    var rtype := RecordOf(p.ops[0].point);
    var t := Tok(rtype, m, p.progress, length);
    var bytes := Bytes(rtype, m, length);
    var q := Did(p, Read(t));
    OneAct(p, Read(t));
    assert HearsBy(p, q, [t], [Read(t)]);
    assert bytes[p.progress..] == [t] + bytes[p.progress + 1..];
    if p.progress + 1 < length {
      HearsRest(q, m, length);
      HearsThen(p, q, HeardAll(p, m), [t], bytes[p.progress + 1..]);
    } else {
      assert bytes[p.progress..] == [t];
    }
  }

  lemma Heeds(p: Party, m: Msg, length: nat)
    requires p.status == Running && p.ops != [] && p.ops[0].Hear? && p.progress == 0
    requires length > 0 && Admits(p.ops[0].point, m)
    ensures Hears(p, HeardAll(p, m), Bytes(RecordOf(p.ops[0].point), m, length))
  {
    HearsRest(p, m, length);
    var bytes := Bytes(RecordOf(p.ops[0].point), m, length);
    assert bytes[0..] == bytes;
  }

  // Phases

  /** The two parties can come to q and q' together, with nothing left over. */
  ghost predicate Meet(p: Party, p': Party, q: Party, q': Party)
  {
    exists l: Line<Tok>, m: Line<Tok> :: MeetBy(p, p', q, q', l, m)
  }

  ghost predicate MeetBy(p: Party, p': Party, q: Party, q': Party, l: Line<Tok>, m: Line<Tok>)
  {
    Follows(p, l) && At(p, l) == q && Follows(p', m) && At(p', m) == q' && Fit(l, m)
  }

  lemma MeetThen(p: Party, p': Party, q: Party, q': Party, r: Party, r': Party)
    requires Meet(p, p', q, q') && Meet(q, q', r, r')
    ensures Meet(p, p', r, r')
  {
    var l: Line<Tok>, m: Line<Tok> :| MeetBy(p, p', q, q', l, m);
    var l2: Line<Tok>, m2: Line<Tok> :| MeetBy(q, q', r, r', l2, m2);
    FollowsConcat(p, l, l2);
    FollowsConcat(p', m, m2);
    AtConcat(p, l, l2);
    AtConcat(p', m, m2);
    FitComposes(l, l2, m, m2);
    assert MeetBy(p, p', r, r', l + l2, m + m2);
  }

  lemma MeetSymmetric(p: Party, p': Party, q: Party, q': Party)
    requires Meet(p, p', q, q')
    ensures Meet(p', p, q', q)
  {
    var l: Line<Tok>, m: Line<Tok> :| MeetBy(p, p', q, q', l, m);
    SoundSymmetric(l, m);
    assert MeetBy(p', p, q', q, m, l);
  }

  /** What a listener does next if it checks for the end of the record. */
  function AfterCheck(p: Party): Party
  {
    if WantOf(p) == Checks then Did(p, Quiet) else p
  }

  lemma Speech(p: Party, q: Party, toks: seq<Tok>) returns (speech: Line<Tok>)
    requires Tells(p, q, toks) && WantOf(q) == Pushes
    ensures Follows(p, speech) && At(p, speech) == Did(q, Flush)
    ensures Speaks(speech) && Writes(speech) == toks && Flushed(speech) == |toks| && Boundary(speech, |toks|)
  {
    hide Follows, At;
    var l: Line<Tok> :| TellsBy(p, q, toks, l);
    OneAct(q, Flush);
    FollowsConcat(p, l, [Flush]);
    AtConcat(p, l, [Flush]);
    Concat(l, [Flush]);
    speech := l + [Flush];
    assert speech[..|l|] == l;
    assert BoundaryAt(speech, |toks|, |l|);
    forall a <- speech ensures a.Write? || a.Flush? || a.Think? {
      assert a in l || a == Flush;
    }
  }

  lemma Hearing(p: Party, q: Party, toks: seq<Tok>) returns (heard: Line<Tok>)
    requires Hears(p, q, toks)
    ensures Follows(p, heard) && At(p, heard) == AfterCheck(q)
    ensures Listens(heard) && Reads(heard) == toks
    ensures forall i | 0 <= i < |heard| && heard[i].Quiet? :: Reads(heard[..i]) == toks
  {
    hide Follows, At;
    var m: Line<Tok> :| HearsBy(p, q, toks, m);
    heard := m;
    if WantOf(q) == Checks {
      OneAct(q, Quiet);
      FollowsConcat(p, m, [Quiet]);
      AtConcat(p, m, [Quiet]);
      Concat(m, [Quiet]);
      heard := m + [Quiet];
    }
    forall i | 0 <= i < |heard| ensures heard[i].Quiet? ==> Reads(heard[..i]) == toks {
      if i < |m| {
        assert heard[i] in m;
      } else {
        assert heard[..i] == m;
      }
    }
    forall a <- heard ensures a.Read? || a.Quiet? || a.Think? {
      assert a in m || a == Quiet;
    }
  }

  /** One party speaks and pushes, the other listens to all of it and may
      check that the record ends there. */
  lemma Exchange(p: Party, q: Party, toks: seq<Tok>, p': Party, q': Party)
    requires Tells(p, q, toks) && WantOf(q) == Pushes && Hears(p', q', toks)
    ensures Meet(p, p', Did(q, Flush), AfterCheck(q'))
  {
    hide Follows, At, Speaks, Listens, Tells, Hears, Boundary;
    var speech := Speech(p, q, toks);
    var heard := Hearing(p', q', toks);
    FlightIsSound(speech, heard);
    assert MeetBy(p, p', Did(q, Flush), AfterCheck(q'), speech, heard);
  }

  /** Both parties take a step on their own. */
  lemma BothConclude(p: Party, p': Party)
    requires WantOf(p) == Thinks && WantOf(p') == Thinks
    ensures Meet(p, p', Did(p, Think), Did(p', Think))
  {
    OneAct(p, Think);
    OneAct(p', Think);
    FlightIsSound<Tok>([Think], [Think]);
    assert MeetBy(p, p', Did(p, Think), Did(p', Think), [Think], [Think]);
  }
}
