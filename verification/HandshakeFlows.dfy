/** The flows of the handshake: full, resumed, and with a client that is
    asked for a certificate. */
module HandshakeFlows {
  import opened Lines
  import opened Handshake
  import opened HandshakeLegs

  /** p has come to q by saying what p' has heard in coming to q'. */
  ghost predicate Together(p: Party, p': Party, q: Party, q': Party)
  {
    exists toks: seq<Tok> :: Tells(p, q, toks) && Hears(p', q', toks)
  }

  predicate Ready(p: Party, op: Op)
  {
    p.status == Running && p.progress == 0 && p.ops != [] && p.ops[0] == op
  }

  predicate Attends(p: Party, rtype: nat, m: Msg)
  {
    && p.status == Running && p.progress == 0 && p.ops != [] && p.ops[0].Hear?
    && RecordOf(p.ops[0].point) == rtype && Admits(p.ops[0].point, m)
  }

  lemma Begin(p: Party, p': Party)
    ensures Together(p, p', p, p')
  {
    TellsNothing(p);
    TellsNothing(p');
  }

  /** One more message. */
  lemma Pass(p: Party, p': Party, q: Party, q': Party, m: Msg)
    requires Together(p, p', q, q') && Ready(q, Say(m)) && Attends(q', q.recordType, m)
    ensures Together(p, p', Said(q, m), HeardAll(q', m))
  {
    hide Tells, Hears, Said, Accept;
    var toks: seq<Tok> :| Tells(p, q, toks) && Hears(p', q', toks);
    var bytes := Bytes(q.recordType, m, Length(q, m));
    Says(q, m);
    TellsThen(p, q, Said(q, m), toks, bytes);
    Heeds(q', m, Length(q, m));
    HearsThen(p', q', HeardAll(q', m), toks, bytes);
  }

  /** A step of the speaker alone. */
  lemma Alone(p: Party, p': Party, q: Party, q': Party, r: Party)
    requires Together(p, p', q, q')
    requires WantOf(q) == Thinks || WantOf(q) == Pushes
    requires r == Did(q, if WantOf(q) == Thinks then Think else Flush)
    ensures Together(p, p', r, q')
  {
    hide Tells, Hears, Did;
    var toks: seq<Tok> :| Tells(p, q, toks) && Hears(p', q', toks);
    TellsByThinking(q);
    TellsThen(p, q, r, toks, []);
    assert toks + [] == toks;
  }

  lemma PushOut(p: Party, p': Party, q: Party, q': Party)
    requires Together(p, p', q, q') && WantOf(q) == Pushes
    ensures Meet(p, p', Did(q, Flush), AfterCheck(q'))
  {
    hide Tells, Hears, Did, Meet;
    var toks: seq<Tok> :| Tells(p, q, toks) && Hears(p', q', toks);
    Exchange(p, q, toks, p', q');
  }

  function Ops(p: Party, ops: seq<Op>): Party
  {
    p.(ops := ops)
  }

  predicate BothRun(p: Party, p': Party)
  {
    p.status == Running && p'.status == Running && p.progress == 0 && p'.progress == 0
  }

  /** The two parties have the same view of the handshake so far. */
  predicate SameView(p: Party, p': Party)
  {
    && p.transcript == p'.transcript && p.session == p'.session
    && p.config.Client? == p'.config.Server?
    && BothRun(p, p')
  }

  function Verified(p: Party): Msg
  {
    Finished(p.config.Client?, p.session.master, p.transcript)
  }

  function AfterFinished(p: Party, rest: seq<Op>, m: Msg): Party
  {
    p.(ops := rest, recordType := HANDSHAKE, transcript := p.transcript + [m])
  }

  predicate ChecksNothing(ops: seq<Op>)
  {
    ops == [] || ops[0] != NoMore
  }

  lemma CcsPasses(p: Party, p': Party, rest: seq<Op>, rest': seq<Op>)
    requires BothRun(p, p') && p.recordType == CHANGE_CIPHER_SPEC
    requires p.ops == [Say(ChangeCipherSpec), Push] + rest && p'.ops == [Hear(AtCcs), NoMore] + rest'
    ensures Meet(p, p', Ops(p, rest), Ops(p', rest'))
  {
    hide Together, Meet;
    Begin(p, p');
    Pass(p, p', p, p', ChangeCipherSpec);
    var q, q' := Said(p, ChangeCipherSpec), HeardAll(p', ChangeCipherSpec);
    assert q == Ops(p, [Push] + rest);
    assert q' == Ops(p', [NoMore] + rest');
    PushOut(p, p', q, q');
  }

  lemma DigestIsReady(p: Party, p': Party, rest: seq<Op>)
    requires p.status == Running && p.progress == 0
    requires p.ops == [Switch(HANDSHAKE), MakeFinished, Push] + rest
    ensures Together(p, p', Ops(p, [Say(Verified(p)), Push] + rest).(recordType := HANDSHAKE), p')
  {
    hide Together, Length;
    Begin(p, p');
    var q := Ops(p, [MakeFinished, Push] + rest).(recordType := HANDSHAKE);
    Alone(p, p', p, p', q);
    var r := Ops(q, [Say(Verified(p)), Push] + rest);
    assert Did(q, Think).ops == r.ops;
    Alone(p, p', q, p', r);
  }

  lemma FinishedPasses(p: Party, p': Party, rest: seq<Op>, rest': seq<Op>)
    requires SameView(p, p') && p'.recordType == HANDSHAKE && ChecksNothing(rest')
    requires p.ops == [Switch(HANDSHAKE), MakeFinished, Push] + rest && p'.ops == [Hear(AtFinished)] + rest'
    ensures Meet(p, p', AfterFinished(p, rest, Verified(p)), AfterFinished(p', rest', Verified(p)))
  {
    hide Together, Meet, Length;
    DigestIsReady(p, p', rest);
    var r := Ops(p, [Say(Verified(p)), Push] + rest).(recordType := HANDSHAKE);
    Pass(p, p', r, p', Verified(p));
    var t, t' := Said(r, Verified(p)), HeardAll(p', Verified(p));
    assert t == AfterFinished(p, [Push] + rest, Verified(p));
    assert t' == AfterFinished(p', rest', Verified(p));
    PushOut(p, p', t, t');
  }

  /** From the change of cipher on: the listener finds the same digest. */
  lemma FinishedAgrees(p: Party, p': Party, rest: seq<Op>, rest': seq<Op>)
    requires SameView(p, p') && p.recordType == CHANGE_CIPHER_SPEC && p'.recordType == HANDSHAKE
    requires ChecksNothing(rest')
    requires p.ops == WRITE_CCS_FINISHED[1..] + rest && p'.ops == READ_CCS_FINISHED + rest'
    ensures Meet(p, p', AfterFinished(p, rest, Verified(p)), AfterFinished(p', rest', Verified(p)))
  {
    hide Meet;
    var ops, ops' := [Switch(HANDSHAKE), MakeFinished, Push] + rest, [Hear(AtFinished)] + rest';
    assert p.ops == [Say(ChangeCipherSpec), Push] + ops && p'.ops == [Hear(AtCcs), NoMore] + ops';
    CcsPasses(p, p', ops, ops');
    FinishedPasses(Ops(p, ops), Ops(p', ops'), rest, rest');
    MeetThen(p, p', Ops(p, ops), Ops(p', ops'),
             AfterFinished(p, rest, Verified(p)), AfterFinished(p', rest', Verified(p)));
  }

  function Concluded(p: Party, transcript: seq<Msg>): Party
  {
    p.(ops := [], recordType := HANDSHAKE, transcript := transcript, status := Done)
  }

  /** A speaker with nothing pending turns to the other record type. */
  lemma Turns(p: Party, p': Party, rest: seq<Op>)
    requires p.status == Running && p.progress == 0 && p.ops == WRITE_CCS_FINISHED + rest
    requires ChecksNothing(p'.ops)
    ensures Meet(p, p', Ops(p, WRITE_CCS_FINISHED[1..] + rest).(recordType := CHANGE_CIPHER_SPEC), p')
  {
    hide Meet, Together;
    Begin(p, p');
    PushOut(p, p', p, p');
    assert Did(p, Flush) == Ops(p, WRITE_CCS_FINISHED[1..] + rest).(recordType := CHANGE_CIPHER_SPEC);
  }

  lemma BothDone(p: Party, p': Party, transcript: seq<Msg>)
    requires p.status == Running && p'.status == Running && p.ops == [Conclude] && p'.ops == [Conclude]
    requires p.transcript == transcript && p'.transcript == transcript
    requires p.recordType == HANDSHAKE && p'.recordType == HANDSHAKE
    ensures Meet(p, p', Concluded(p, transcript), Concluded(p', transcript))
  {
    hide Meet;
    BothConclude(p, p');
    assert Did(p, Think) == Concluded(p, transcript);
    assert Did(p', Think) == Concluded(p', transcript);
  }

  /** The second half: q answers with its own digest. */
  lemma AnswerAgrees(p: Party, p': Party, transcript: seq<Msg>)
    requires SameView(p, p') && p.recordType == HANDSHAKE && p'.recordType == HANDSHAKE
    requires p.ops == WRITE_CCS_FINISHED + [Conclude] && p'.ops == READ_CCS_FINISHED + [Conclude]
    requires transcript == p.transcript + [Verified(p)]
    ensures Meet(p, p', Concluded(p, transcript), Concluded(p', transcript))
  {
    hide Meet;
    var q := Ops(p, WRITE_CCS_FINISHED[1..] + [Conclude]).(recordType := CHANGE_CIPHER_SPEC);
    Turns(p, p', [Conclude]);
    FinishedAgrees(q, p', [Conclude], [Conclude]);
    var r, r' := AfterFinished(q, [Conclude], Verified(q)), AfterFinished(p', [Conclude], Verified(q));
    BothDone(r, r', transcript);
    MeetThen(p, p', q, p', r, r');
    MeetThen(p, p', r, r', Concluded(p, transcript), Concluded(p', transcript));
  }

  /** Both digests are exchanged, p's first, and both parties are done with
      one transcript. */
  lemma EndingAgrees(p: Party, p': Party) returns (transcript: seq<Msg>)
    requires SameView(p, p') && p.recordType == CHANGE_CIPHER_SPEC && p'.recordType == HANDSHAKE
    requires p.ops == WRITE_CCS_FINISHED[1..] + (READ_CCS_FINISHED + [Conclude])
    requires p'.ops == READ_CCS_FINISHED + (WRITE_CCS_FINISHED + [Conclude])
    ensures p.transcript <= transcript
    ensures Meet(p, p', Concluded(p, transcript), Concluded(p', transcript))
  {
    hide Meet;
    var rest, rest' := READ_CCS_FINISHED + [Conclude], WRITE_CCS_FINISHED + [Conclude];
    FinishedAgrees(p, p', rest, rest');
    var q, q' := AfterFinished(p, rest, Verified(p)), AfterFinished(p', rest', Verified(p));
    transcript := q'.transcript + [Verified(q')];
    AnswerAgrees(q', q, transcript);
    MeetSymmetric(q', q, Concluded(q', transcript), Concluded(q, transcript));
    MeetThen(p, p', q, q', Concluded(p, transcript), Concluded(p', transcript));
  }
}
