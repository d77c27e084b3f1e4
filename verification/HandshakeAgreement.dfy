/** A client and a server agree exactly if they fit together. */
module HandshakeAgreement {
  import opened Wrappers
  import opened Lines
  import opened Handshake
  import opened HandshakeRuns
  import opened HandshakeLegs
  import opened HandshakeFlows

  /** The client's first message. */
  function Hello(c: Config): Msg
    requires c.Client?
  {
    ClientHello(c.versionMax, c.offered.sid, c.suites)
  }

  /** The version and the suite of the session are ones the client takes. */
  predicate Accepts(c: Config, session: Session)
    requires c.Client?
  {
    && c.versionMin <= session.version <= c.versionMax
    && session.suite in c.suites
    && (session.suite.NeedsTls12() ==> session.version >= 0x0303)
  }

  /** The client takes a session ID that comes back for a resumption. */
  predicate Resembles(c: Config, session: Session)
    requires c.Client?
  {
    session.sid != [] && session.sid == c.offered.sid
  }

  /** The server can negotiate, the client accepts the outcome, the two agree
      about a cached session, and a new session ID is new. */
  predicate Compatible(c: Config, s: Config)
  {
    && c.Client? && s.Server?
    && match Negotiated(s, Hello(c))
       case None => false
       case Some((session, resume)) =>
         && Accepts(c, session)
         && (if resume then session == c.offered
             else !Resembles(c, session) && s.chain != [] && c.trusts(s.chain))
  }

  function OwnChain(c: Config): seq<Cert>
    requires c.Client?
  {
    if c.credential.Some? then c.credential.value.chain else []
  }

  predicate IsStatic(c: Config)
    requires c.Client?
  {
    c.credential.Some? && c.credential.value.isStatic
  }

  lemma HelloPasses(c: Config, s: Config, lengths: Msg -> nat) returns (p: Party, q: Party)
    requires c.Client? && s.Server? && Negotiated(s, Hello(c)).Some?
    ensures Meet(StartClient(c, lengths), StartServer(s, lengths), p, q)
    ensures p == StartClient(c, lengths).(ops := [Hear(AtServerHello)], transcript := [Hello(c)])
    ensures q == OnClientHello(Ops(StartServer(s, lengths), []), Hello(c)).(transcript := [Hello(c)])
  {
    hide Together, Meet, OnClientHello;
    var p0, q0 := StartClient(c, lengths), StartServer(s, lengths);
    Begin(p0, q0);
    Pass(p0, q0, p0, q0, Hello(c));
    var p1, q1 := Said(p0, Hello(c)), HeardAll(q0, Hello(c));
    assert q1 == OnClientHello(Ops(q0, [NoMore]), Hello(c)).(transcript := [Hello(c)]);
    HelloIsChecked(Ops(q0, []), Hello(c));
    PushOut(p0, q0, p1, q1);
    p, q := Did(p1, Flush), AfterCheck(q1);
  }

  lemma HelloIsChecked(q: Party, m: Msg)
    requires q.config.Server? && m.ClientHello? && q.ops == [] && q.status == Running && Negotiated(q.config, m).Some?
    ensures var r := OnClientHello(Ops(q, [NoMore]), m);
            WantOf(r) == Checks && Did(r, Quiet) == OnClientHello(q, m)
  {
    hide Negotiated, ServerRest;
    assert [NoMore] + OnClientHello(q, m).ops == OnClientHello(Ops(q, [NoMore]), m).ops;
  }

  lemma ResumptionHeard(p: Party, c: Config, session: Session)
    requires c.Client? && p.config == c && p.ops == [Hear(AtServerHello)] && p.progress == 0 && p.status == Running
    requires Accepts(c, session) && session == c.offered == p.session && Resembles(c, session)
    ensures var m := ServerHello(session.version, session.sid, session.suite);
            HeardAll(p, m) == p.(ops := READ_CCS_FINISHED + (WRITE_CCS_FINISHED + [Conclude]),
                                 transcript := p.transcript + [m])
  {
    var m := ServerHello(session.version, session.sid, session.suite);
    assert OnServerHello(p.(ops := []), m).ops == READ_CCS_FINISHED + (WRITE_CCS_FINISHED + [Conclude]);
  }

  /** A resumed session. */
  lemma Resumes(p: Party, q: Party, c: Config, s: Config, lengths: Msg -> nat, session: Session)
    returns (transcript: seq<Msg>, p': Party, q': Party)
    requires Compatible(c, s) && Negotiated(s, Hello(c)) == Some((session, true))
    requires p == StartClient(c, lengths).(ops := [Hear(AtServerHello)], transcript := [Hello(c)])
    requires q == OnClientHello(Ops(StartServer(s, lengths), []), Hello(c)).(transcript := [Hello(c)])
    ensures Meet(p, q, Concluded(p', transcript), Concluded(q', transcript))
    ensures p'.session == session && q'.session == session
  {
    hide Together, Meet, Accept, Accepts;
    var m := ServerHello(session.version, session.sid, session.suite);
    var rest := READ_CCS_FINISHED + [Conclude];
    assert q.ops == [Say(m)] + WRITE_CCS_FINISHED + rest;
    Begin(q, p);
    ResumptionHeard(p, c, session);
    Pass(q, p, q, p, m);
    var q1, p1 := Said(q, m), HeardAll(p, m);
    assert q1.ops == WRITE_CCS_FINISHED + rest;
    PushOut(q, p, q1, p1);
    q', p' := Did(q1, Flush), p1;
    transcript := EndingAgrees(q', p');
    MeetThen(q, p, q', p', Concluded(q', transcript), Concluded(p', transcript));
    MeetSymmetric(q, p, Concluded(q', transcript), Concluded(p', transcript));
  }

  // A new session

  /** The parties differ in the master secret only. */
  ghost predicate Alike(c: Config, s: Config, p: Party, q: Party)
  {
    && c.Client? && s.Server? && p.config == c && q.config == s
    && p.status == Running && q.status == Running && p.progress == 0 && q.progress == 0
    && p.recordType == HANDSHAKE && q.recordType == HANDSHAKE
    && p.transcript == q.transcript
    && p.session == q.session.(master := p.session.master)
    && p.chainLeft == []
  }

  /** p after one more message of the other, with ops left to do. */
  function Onward(p: Party, ops: seq<Op>, m: Msg): Party
  {
    p.(ops := ops, transcript := p.transcript + [m])
  }

  lemma SaidPlainly(p: Party, m: Msg, ops: seq<Op>)
    requires p.ops == [Say(m)] + ops && p.recordType == HANDSHAKE && p.progress == 0
    requires p.config.Server? && (m.Certificate? ==> p.chainLeft == [])
    ensures Said(p, m) == Onward(p, ops, m)
  {}

  lemma ServerHelloHeard(p: Party, session: Session)
    requires p.config.Client? && p.ops == [Hear(AtServerHello)] && p.progress == 0
    requires Accepts(p.config, session) && p.session == p.config.offered && !Resembles(p.config, session)
    ensures var m := ServerHello(session.version, session.sid, session.suite);
            HeardAll(p, m) ==
            Onward(p, [Hear(AtServerCertificate)] + ClientRest(session.suite), m)
            .(session := session.(master := p.session.master))
  {
    var ops := [Hear(AtServerCertificate)] + ClientRest(session.suite);
    assert OnServerHello(p.(ops := []), ServerHello(session.version, session.sid, session.suite)).ops == ops;
  }

  lemma AnswerPasses(p: Party, q: Party, c: Config, s: Config, lengths: Msg -> nat, session: Session, ops: seq<Op>)
    returns (p': Party, q': Party)
    requires Compatible(c, s) && Negotiated(s, Hello(c)) == Some((session, false))
    requires p == StartClient(c, lengths).(ops := [Hear(AtServerHello)], transcript := [Hello(c)])
    requires q == StartServer(s, lengths).(ops := [Say(ServerHello(session.version, session.sid, session.suite))] + ops,
                                           session := session, transcript := [Hello(c)])
    ensures Together(q, p, q', p') && Alike(c, s, p', q')
    ensures q'.session == session && q'.ops == ops && q'.chainLeft == []
    ensures p'.ops == [Hear(AtServerCertificate)] + ClientRest(session.suite)
  {
    hide Together, Said, Accept, Negotiated;
    var m := ServerHello(session.version, session.sid, session.suite);
    Begin(q, p);
    Pass(q, p, q, p, m);
    SaidPlainly(q, m, ops);
    ServerHelloHeard(p, session);
    q', p' := Said(q, m), HeardAll(p, m);
  }

  lemma CertificatePasses(p0: Party, q0: Party, p: Party, q: Party, c: Config, s: Config, ops: seq<Op>, ops': seq<Op>)
    returns (p': Party, q': Party)
    requires Together(q0, p0, q, p) && Alike(c, s, p, q)
    requires s.chain != [] && c.trusts(s.chain) && q.chainLeft == []
    requires q.ops == [Say(Certificate(s.chain))] + ops && p.ops == [Hear(AtServerCertificate)] + ops'
    ensures Together(q0, p0, q', p') && Alike(c, s, p', q') && q'.session == q.session
    ensures q'.ops == ops && p'.ops == ops'
  {
    hide Together, Said;
    var m := Certificate(s.chain);
    Pass(q0, p0, q, p, m);
    SaidPlainly(q, m, ops);
    q', p' := Said(q, m), HeardAll(p, m);
  }

  lemma ServerOpens(s: Config, lengths: Msg -> nat, session: Session, m: Msg)
    requires s.Server? && m.ClientHello? && Negotiated(s, m) == Some((session, false))
    ensures OnClientHello(Ops(StartServer(s, lengths), []), m) ==
            StartServer(s, lengths).(
              ops := [Say(ServerHello(session.version, session.sid, session.suite))]
                     + ([Say(Certificate(s.chain))] + ServerRest(s, session.suite)),
              session := session)
  {
    hide Negotiated, ServerRest;
    var p := Ops(StartServer(s, lengths), []);
    assert OnClientHello(p, m).ops == [Say(ServerHello(session.version, session.sid, session.suite))]
                                      + ([Say(Certificate(s.chain))] + ServerRest(s, session.suite));
  }

  lemma OpeningPasses(p: Party, q: Party, c: Config, s: Config, lengths: Msg -> nat, session: Session)
    returns (p': Party, q': Party)
    requires Compatible(c, s) && Negotiated(s, Hello(c)) == Some((session, false))
    requires p == StartClient(c, lengths).(ops := [Hear(AtServerHello)], transcript := [Hello(c)])
    requires q == OnClientHello(Ops(StartServer(s, lengths), []), Hello(c)).(transcript := [Hello(c)])
    ensures Together(q, p, q', p') && Alike(c, s, p', q') && q'.session == session
    ensures q'.ops == ServerRest(s, session.suite) && p'.ops == ClientRest(session.suite)
  {
    hide Together, Alike, OnClientHello, Negotiated, ServerRest;
    ServerOpens(s, lengths, session, Hello(c));
    var ops := [Say(Certificate(s.chain))] + ServerRest(s, session.suite);
    var p1, q1 := AnswerPasses(p, q, c, s, lengths, session, ops);
    p', q' := CertificatePasses(p, q, p1, q1, c, s, ServerRest(s, session.suite), ClientRest(session.suite));
  }

  /** The server sends a key exchange exactly if the client expects one. */
  lemma KeyExchangePasses(p0: Party, q0: Party, p: Party, q: Party, c: Config, s: Config, ops: seq<Op>)
    returns (p': Party, q': Party)
    requires Together(q0, p0, q, p) && Alike(c, s, p, q)
    requires q.ops == If(q.session.suite.UsesEcdhe(), [Say(ServerKeyExchange)]) + ops
    requires p.ops == ClientRest(q.session.suite)
    ensures Together(q0, p0, q', p') && Alike(c, s, p', q') && q'.session == q.session
    ensures q'.ops == ops && p'.ops == [Hear(AtRequestOrDone)]
  {
    hide Together;
    if q.session.suite.UsesEcdhe() {
      Pass(q0, p0, q, p, ServerKeyExchange);
      q', p' := Said(q, ServerKeyExchange), HeardAll(p, ServerKeyExchange);
    } else {
      q', p' := q, p;
    }
  }

  /** What the client says when the server is done. */
  function Reply(c: Config, asked: bool): seq<Op>
    requires c.Client?
  {
    var ending := WRITE_CCS_FINISHED + (READ_CCS_FINISHED + [Conclude]);
    if asked then
      [Say(Certificate(OwnChain(c)))]
      + (if IsStatic(c) then [Say(ClientKeyExchange(None))]
         else [Say(ClientKeyExchange(Some(c.premaster))), VerifyIfCertified])
      + ending
    else [Say(ClientKeyExchange(Some(c.premaster)))] + ending
  }

  lemma RequestPasses(p0: Party, q0: Party, p: Party, q: Party, c: Config, s: Config, ops: seq<Op>)
    returns (p': Party, q': Party)
    requires Together(q0, p0, q, p) && Alike(c, s, p, q)
    requires q.ops == If(s.asksClient, [Say(CertificateRequest)]) + ops && p.ops == [Hear(AtRequestOrDone)]
    ensures Together(q0, p0, q', p') && Alike(c, s, p'.(chainLeft := []), q') && q'.session == q.session
    ensures q'.ops == ops && p'.ops == [Hear(if s.asksClient then AtDone else AtRequestOrDone)]
    ensures p'.chainLeft == if s.asksClient then OwnChain(c) else []
  {
    hide Together, Said;
    if s.asksClient {
      Pass(q0, p0, q, p, CertificateRequest);
      SaidPlainly(q, CertificateRequest, ops);
      q', p' := Said(q, CertificateRequest), HeardAll(p, CertificateRequest);
    } else {
      q', p' := q, p;
    }
  }

  lemma ReplyFollows(p: Party, asked: bool)
    requires p.config.Client? && p.ops == [] && p.chainLeft == if asked then OwnChain(p.config) else []
    ensures ClientReply(p, asked) == Ops(p, [NoMore] + Reply(p.config, asked))
  {
    assert ClientReply(p, asked).ops == [NoMore] + Reply(p.config, asked);
  }

  lemma DonePasses(p0: Party, q0: Party, p: Party, q: Party, c: Config, s: Config, ops: seq<Op>)
    returns (p': Party, q': Party)
    requires Together(q0, p0, q, p) && Alike(c, s, p.(chainLeft := []), q)
    requires q.ops == [Say(ServerHelloDone), Push] + ops
    requires p.ops == [Hear(if s.asksClient then AtDone else AtRequestOrDone)]
    requires p.chainLeft == if s.asksClient then OwnChain(c) else []
    ensures Meet(q0, p0, q', p') && Alike(c, s, p'.(chainLeft := []), q') && q'.session == q.session
    ensures q'.ops == ops && p'.ops == Reply(c, s.asksClient) && p'.chainLeft == p.chainLeft
  {
    hide Together, Meet, Said, ClientReply;
    Pass(q0, p0, q, p, ServerHelloDone);
    SaidPlainly(q, ServerHelloDone, [Push] + ops);
    var q1, p1 := Said(q, ServerHelloDone), HeardAll(p, ServerHelloDone);
    ReplyFollows(p.(ops := []), s.asksClient);
    assert p.(progress := 0, ops := p.ops[1..]) == p.(ops := []);
    assert p1 == Onward(p, [NoMore] + Reply(c, s.asksClient), ServerHelloDone);
    PushOut(q0, p0, q1, p1);
    q', p' := Did(q1, Flush), AfterCheck(p1);
    assert p' == Onward(p, Reply(c, s.asksClient), ServerHelloDone);
  }

  // The client's answer

  /** The server's part when it is content with the client's answer. */
  const SERVER_ENDING: seq<Op> := READ_CCS_FINISHED + (WRITE_CCS_FINISHED + [Conclude])

  const CLIENT_ENDING: seq<Op> := WRITE_CCS_FINISHED + (READ_CCS_FINISHED + [Conclude])

  /** The client has said what sets the master secret; the rest is one way. */
  lemma Concludes(p0: Party, q0: Party, p: Party, q: Party) returns (transcript: seq<Msg>)
    requires Together(p0, q0, p, q) && SameView(p, q) && p.recordType == HANDSHAKE && q.recordType == HANDSHAKE
    requires p.ops == CLIENT_ENDING && q.ops == SERVER_ENDING
    ensures Meet(p0, q0, Concluded(p, transcript), Concluded(q, transcript)) && p.transcript <= transcript
  {
    hide Together, Meet;
    var ops := WRITE_CCS_FINISHED[1..] + (READ_CCS_FINISHED + [Conclude]);
    var p1 := Ops(p, ops).(recordType := CHANGE_CIPHER_SPEC);
    PushOut(p0, q0, p, q);
    assert Did(p, Flush) == p1;
    transcript := EndingAgrees(p1, q);
    MeetThen(p0, q0, p1, q, Concluded(p1, transcript), Concluded(q, transcript));
  }

  /** Without a certificate request. */
  lemma PlainAnswer(p: Party, q: Party, c: Config, s: Config) returns (transcript: seq<Msg>, p': Party, q': Party)
    requires Alike(c, s, p, q) && p.ops == Reply(c, false) && q.ops == ServerTail(false)
    ensures Meet(p, q, Concluded(p', transcript), Concluded(q', transcript)) && p'.session == q'.session
    ensures p'.session == q.session.(master := c.premaster)
  {
    hide Together, Meet;
    var m := ClientKeyExchange(Some(c.premaster));
    assert p.ops == [Say(m)] + CLIENT_ENDING && q.ops == [Hear(AtKeyExchange)] + SERVER_ENDING;
    Begin(p, q);
    Pass(p, q, p, q, m);
    p', q' := Said(p, m), HeardAll(q, m);
    assert p'.ops == CLIENT_ENDING && q'.ops == SERVER_ENDING;
    transcript := Concludes(p, q, p', q');
  }

  /** The server accepts what the client can send when asked, and static key
      agreement gives both sides one secret. */
  predicate AnswersWell(c: Config, s: Config, suite: Suite)
    requires c.Client? && s.Server?
  {
    if OwnChain(c) == [] then
      s.toleratesNone && !IsStatic(c)
    else
      IsStatic(c) && s.verdict(OwnChain(c)).Valid? && s.verdict(OwnChain(c)).agrees && suite.UsesEcdh()
      && s.secretWith(OwnChain(c)) == c.staticSecret
  }

  /** The client's certificate, when the server does not reject it. */
  lemma OwnChainPasses(p: Party, q: Party, c: Config, s: Config) returns (p': Party, q': Party)
    requires Alike(c, s, p.(chainLeft := []), q) && p.chainLeft == OwnChain(c)
    requires p.ops == Reply(c, true) && q.ops == ServerTail(true)
    ensures Together(p, q, p', q') && p'.chainLeft == []
    ensures p'.ops == (if IsStatic(c) then [Say(ClientKeyExchange(None))]
                       else [Say(ClientKeyExchange(Some(c.premaster))), VerifyIfCertified]) + CLIENT_ENDING
    ensures p' == p.(ops := p'.ops, chainLeft := [], transcript := p.transcript + [Certificate(OwnChain(c))])
    ensures q' == OnClientCertificate(Ops(q, []), OwnChain(c)).(transcript := q.transcript + [Certificate(OwnChain(c))])
  {
    hide Together, OnClientCertificate;
    var m := Certificate(OwnChain(c));
    var ops := (if IsStatic(c) then [Say(ClientKeyExchange(None))]
                else [Say(ClientKeyExchange(Some(c.premaster))), VerifyIfCertified]) + CLIENT_ENDING;
    assert p.ops == [Say(m)] + ops && q.ops == [Hear(AtClientCertificate)];
    Begin(p, q);
    Pass(p, q, p, q, m);
    p', q' := Said(p, m), HeardAll(q, m);
    assert q.(progress := 0, ops := q.ops[1..]) == Ops(q, []);
  }

  /** The server's answer to the certificate is good. */
  lemma CertifiedAnswer(p: Party, q: Party, c: Config, s: Config) returns (transcript: seq<Msg>, p': Party, q': Party)
    requires Alike(c, s, p.(chainLeft := []), q) && p.chainLeft == OwnChain(c)
    requires p.ops == Reply(c, true) && q.ops == ServerTail(true)
    requires AnswersWell(c, s, q.session.suite)
    ensures Meet(p, q, Concluded(p', transcript), Concluded(q', transcript)) && p'.session == q'.session
    ensures p'.session == q.session.(master := if IsStatic(c) then c.staticSecret else c.premaster)
  {
    hide Together, Meet;
    var p1, q1 := OwnChainPasses(p, q, c, s);
    var m := ClientKeyExchange(if IsStatic(c) then None else Some(c.premaster));
    var ops := If(!IsStatic(c), [VerifyIfCertified]) + CLIENT_ENDING;
    assert p1.ops == [Say(m)] + ops;
    assert q1.ops == if IsStatic(c) then [Hear(AtCertifiedKeyExchange(OwnChain(c)))]
                     else [Hear(AtKeyExchange)] + SERVER_ENDING;
    Pass(p, q, p1, q1, m);
    p', q' := Said(p1, m), HeardAll(q1, m);
    assert p' == Onward(p1, ops, m).(session := p'.session);
    assert q'.ops == SERVER_ENDING;
    if !IsStatic(c) {
      Alone(p, q, p', q', Ops(p', CLIENT_ENDING)) by { assert Did(p', Think) == Ops(p', CLIENT_ENDING); }
      p' := Ops(p', CLIENT_ENDING);
    }
    transcript := Concludes(p, q, p', q');
  }

  // When the answer is not good

  /** The client comes to wait for a server that has failed. */
  ghost predicate Breaks(p: Party, q: Party)
  {
    exists l: Line<Tok>, m: Line<Tok> :: BreaksBy(p, q, l, m)
  }

  ghost predicate BreaksBy(p: Party, q: Party, l: Line<Tok>, m: Line<Tok>)
  {
    Follows(p, l) && Follows(q, m) && Sound(l, m) && Rested(p, l, m) && Rested(q, m, l) && At(q, m).status == Failed
  }

  lemma BreaksLater(p: Party, q: Party, p': Party, q': Party)
    requires Meet(p, q, p', q') && Breaks(p', q')
    ensures Breaks(p, q)
  {
    var l: Line<Tok>, m: Line<Tok> :| MeetBy(p, q, p', q', l, m);
    var l2: Line<Tok>, m2: Line<Tok> :| BreaksBy(p', q', l2, m2);
    FollowsConcat(p, l, l2);
    FollowsConcat(q, m, m2);
    AtConcat(p, l, l2);
    AtConcat(q, m, m2);
    FitComposes(l, l2, m, m2);
    Concat(l, l2);
    Concat(m, m2);
    assert BreaksBy(p, q, l + l2, m + m2);
  }

  predicate Speaking(ops: seq<Op>)
  {
    forall k | 0 <= k < |ops| :: !ops[k].Hear? && !ops[k].NoMore? && !ops[k].Conclude?
  }

  function Work(ops: seq<Op>): nat
  {
    if ops == [] then 0 else (if ops[0].MakeFinished? || ops[0].VerifyIfCertified? then 2 else 1) + Work(ops[1..])
  }

  /** A party says all it has to say, whether or not anyone listens. */
  lemma {:induction false} TalksOn(p: Party, ops: seq<Op>, rest: seq<Op>) returns (r: Party, toks: seq<Tok>)
    requires p.status == Running && p.progress == 0 && p.ops == ops + rest && Speaking(ops)
    ensures Tells(p, r, toks) && r.status == Running && r.progress == 0 && r.ops == rest
    decreases Work(ops)
  {
    hide Tells;
    if ops == [] {
      TellsNothing(p);
      return p, [];
    }
    var q, head, tail := p, [], ops[1..];
    if ops[0].Say? {
      q, head := Said(p, ops[0].msg), Bytes(p.recordType, ops[0].msg, Length(p, ops[0].msg));
      Says(p, ops[0].msg);
    } else {
      q := Did(p, if WantOf(p) == Thinks then Think else Flush);
      TellsByThinking(p);
      if ops[0].MakeFinished? {
        tail := [q.ops[0]] + tail;
      } else if ops[0].VerifyIfCertified? && p.chainLeft != [] {
        tail := [Say(CertificateVerify)] + tail;
      }
    }
    assert q.ops == tail + rest;
    var more;
    r, more := TalksOn(q, tail, rest);
    TellsThen(p, q, r, head, more);
    toks := head + more;
  }

  lemma OnlyReads(q: Party, q1: Party, toks: seq<Tok>) returns (heard: Line<Tok>)
    requires Hears(q, q1, toks)
    ensures Follows(q, heard) && At(q, heard) == q1 && Listens(heard) && Reads(heard) == toks
    ensures forall i | 0 <= i < |heard| :: !heard[i].Quiet?
  {
    heard :| HearsBy(q, q1, toks, heard);
    forall i | 0 <= i < |heard| ensures !heard[i].Quiet? {
      assert heard[i] in heard;
    }
  }

  lemma FailureBreaks(p: Party, q: Party, p1: Party, q1: Party, ops: seq<Op>, rest: seq<Op>)
    requires Together(p, q, p1, q1) && q1.status == Failed && p1.status == Running && p1.progress == 0
    requires p1.ops == ops + ([Push] + rest) && Speaking(ops) && rest != [] && rest[0].Hear?
    ensures Breaks(p, q)
  {
    hide Tells, Hears;
    var toks: seq<Tok> :| Tells(p, p1, toks) && Hears(q, q1, toks);
    var r, more := TalksOn(p1, ops, [Push] + rest);
    TellsThen(p, p1, r, toks, more);
    assert [Push] + rest == r.ops && r.ops[1..] == rest;
    TalkBreaks(p, q, r, q1, toks, more);
  }

  /** The speech goes on past what the failing server heard. */
  lemma TalkBreaks(p: Party, q: Party, r: Party, q1: Party, toks: seq<Tok>, more: seq<Tok>)
    requires Tells(p, r, toks + more) && Hears(q, q1, toks) && q1.status == Failed
    requires r.status == Running && |r.ops| > 1 && r.ops[0] == Push && r.ops[1].Hear?
    ensures Breaks(p, q)
  {
    hide Tells, Hears, Speaks, Listens, Follows, At, Sound, Boundary;
    var speech := Speech(p, r, toks + more);
    var heard := OnlyReads(q, q1, toks);
    FlightIsSound(speech, heard);
    SpeakerReadsNothing(speech);
    SpeakerReadsNothing(heard);
    assert WantOf(Did(r, Flush)) == Needs;
    assert BreaksBy(p, q, speech, heard);
  }

  const CCS_SPEECH: seq<Op> := [Switch(CHANGE_CIPHER_SPEC), Say(ChangeCipherSpec), Push, Switch(HANDSHAKE),
    MakeFinished]

  lemma EndingSplits(ops: seq<Op>)
    requires Speaking(ops)
    ensures ops + CLIENT_ENDING == (ops + CCS_SPEECH) + ([Push] + (READ_CCS_FINISHED + [Conclude]))
    ensures Speaking(ops + CCS_SPEECH)
  {}

  /** A party hears a record of the wrong type and fails at its first byte. */
  lemma WrongRecordBreaks(p: Party, q: Party, p1: Party, q1: Party, m: Msg, ops: seq<Op>, rest: seq<Op>)
    requires Together(p, q, p1, q1) && p1.status == Running && p1.progress == 0
    requires p1.ops == [Say(m)] + (ops + ([Push] + rest)) && Speaking(ops) && rest != [] && rest[0].Hear?
    requires WantOf(q1).Needs? && p1.recordType != RecordOf(q1.ops[0].point)
    ensures Breaks(p, q)
  {
    hide Tells, Hears, Breaks;
    var toks: seq<Tok> :| Tells(p, p1, toks) && Hears(q, q1, toks);
    var bytes := Bytes(p1.recordType, m, Length(p1, m));
    Says(p1, m);
    TellsThen(p, p1, Said(p1, m), toks, bytes);
    var r, more := TalksOn(Said(p1, m), ops, [Push] + rest);
    TellsThen(p, Said(p1, m), r, toks + bytes, more);
    Rejects(q1, bytes[0]);
    HearsThen(q, q1, Fail(q1), toks, [bytes[0]]);
    assert toks + bytes + more == (toks + [bytes[0]]) + (bytes[1..] + more);
    assert [Push] + rest == r.ops && r.ops[1..] == rest;
    TalkBreaks(p, q, r, Fail(q1), toks + [bytes[0]], bytes[1..] + more);
  }

  /** A server that expects a verification of the certificate hears the change
      of cipher instead. */
  lemma NoVerifyBreaks(p: Party, q: Party, p1: Party, q1: Party)
    requires Together(p, q, p1, q1) && p1.status == Running && p1.progress == 0 && p1.ops == CLIENT_ENDING
    requires q1.status == Running && q1.progress == 0 && q1.ops != []
    requires q1.ops[0] == Hear(AtVerify) || q1.ops[0] == Hear(AtSkippedVerify)
    ensures Breaks(p, q)
  {
    hide Together, Breaks;
    var p2 := Ops(p1, CLIENT_ENDING[1..]).(recordType := CHANGE_CIPHER_SPEC);
    assert Did(p1, Flush) == p2;
    Alone(p, q, p1, q1, p2);
    var ops, rest := [Push, Switch(HANDSHAKE), MakeFinished], READ_CCS_FINISHED + [Conclude];
    assert p2.ops == [Say(ChangeCipherSpec)] + (ops + ([Push] + rest));
    WrongRecordBreaks(p, q, p2, q1, ChangeCipherSpec, ops, rest);
  }

  lemma Rejects(q: Party, t: Tok)
    requires WantOf(q).Needs? && t.rtype != RecordOf(q.ops[0].point)
    ensures Hears(q, Fail(q), [t])
  {
    OneAct(q, Read(t));
    assert HearsBy(q, Fail(q), [t], [Read(t)]);
  }

  /** Without one master secret the first digest is refused. */
  lemma WrongDigestBreaks(p: Party, q: Party, rest: seq<Op>, rest': seq<Op>)
    requires BothRun(p, q) && p.session.master != q.session.master && p.recordType == CHANGE_CIPHER_SPEC
    requires p.ops == WRITE_CCS_FINISHED[1..] + rest && q.ops == READ_CCS_FINISHED + rest'
    requires rest != [] && rest[0].Hear?
    ensures Breaks(p, q)
  {
    hide Together, Meet, Breaks, Length;
    var ops, ops' := [Switch(HANDSHAKE), MakeFinished, Push] + rest, [Hear(AtFinished)] + rest';
    assert p.ops == [Say(ChangeCipherSpec), Push] + ops && q.ops == [Hear(AtCcs), NoMore] + ops';
    CcsPasses(p, q, ops, ops');
    var p1, q1 := Ops(p, ops), Ops(q, ops');
    DigestIsReady(p1, q1, rest);
    var p2 := Ops(p1, [Say(Verified(p1)), Push] + rest).(recordType := HANDSHAKE);
    Pass(p1, q1, p2, q1, Verified(p1));
    assert Said(p2, Verified(p1)).ops == [] + ([Push] + rest);
    FailureBreaks(p1, q1, Said(p2, Verified(p1)), HeardAll(q1, Verified(p1)), [], rest);
    BreaksLater(p, q, p1, q1);
  }

  /** The same before the speaker has turned to the other record type. */
  lemma WrongMasterBreaks(p: Party, q: Party, p1: Party, q1: Party, rest': seq<Op>)
    requires Together(p, q, p1, q1) && BothRun(p1, q1) && p1.session.master != q1.session.master
    requires p1.ops == WRITE_CCS_FINISHED + (READ_CCS_FINISHED + [Conclude])
    requires q1.ops == READ_CCS_FINISHED + rest'
    ensures Breaks(p, q)
  {
    hide Together, Meet, Breaks;
    var rest := READ_CCS_FINISHED + [Conclude];
    var p2 := Ops(p1, WRITE_CCS_FINISHED[1..] + rest).(recordType := CHANGE_CIPHER_SPEC);
    PushOut(p, q, p1, q1);
    assert Did(p1, Flush) == p2;
    WrongDigestBreaks(p2, q1, rest, rest');
    BreaksLater(p, q, p2, q1);
  }

  /** What the server makes of the key exchange after an answer that it does
      not end well with. */
  lemma KeyExchangeHeard(c: Config, s: Config, q: Party, m: Msg)
    requires c.Client? && q.config == s && s.Server? && q.status == Running
    requires !AnswersWell(c, s, q.session.suite) && q.ops != []
    requires m == ClientKeyExchange(if IsStatic(c) then None else Some(c.premaster))
    requires q.ops == OnClientCertificate(Ops(q, []), OwnChain(c)).ops
    requires OnClientCertificate(Ops(q, []), OwnChain(c)).status == Running
    ensures q.ops[0].Hear? && RecordOf(q.ops[0].point) == HANDSHAKE && Admits(q.ops[0].point, m)
    ensures var r := HeardAll(q, m);
            r.status == Failed
            || (r.status == Running && r.progress == 0
                && if IsStatic(c) then r.ops == SERVER_ENDING && r.session.master != c.staticSecret
                   else r.ops != [] && (r.ops[0] == Hear(AtVerify) || r.ops[0] == Hear(AtSkippedVerify)))
  {}

  /** Every other answer ends with the server failing. */
  lemma BadAnswer(p: Party, q: Party, c: Config, s: Config)
    requires Alike(c, s, p.(chainLeft := []), q) && p.chainLeft == OwnChain(c)
    requires p.ops == Reply(c, true) && q.ops == ServerTail(true)
    requires !AnswersWell(c, s, q.session.suite)
    ensures Breaks(p, q)
  {
    hide Together, Breaks, AnswersWell, Admits, Accept;
    var p1, q1 := OwnChainPasses(p, q, c, s);
    var m := ClientKeyExchange(if IsStatic(c) then None else Some(c.premaster));
    var check := If(!IsStatic(c), [VerifyIfCertified]);
    assert p1.ops == ([Say(m)] + check) + CLIENT_ENDING;
    EndingSplits([Say(m)] + check);
    if q1.status == Failed {
      FailureBreaks(p, q, p1, q1, [Say(m)] + check + CCS_SPEECH, READ_CCS_FINISHED + [Conclude]);
      return;
    }
    KeyExchangeHeard(c, s, q1, m);
    Pass(p, q, p1, q1, m);
    var p2, q2 := Said(p1, m), HeardAll(q1, m);
    assert p2.ops == check + CLIENT_ENDING;
    EndingSplits(check);
    if q2.status == Failed {
      FailureBreaks(p, q, p2, q2, check + CCS_SPEECH, READ_CCS_FINISHED + [Conclude]);
    } else if IsStatic(c) {
      WrongMasterBreaks(p, q, p2, q2, WRITE_CCS_FINISHED + [Conclude]);
    } else {
      assert Did(p2, Think) == Ops(p2, CLIENT_ENDING);
      Alone(p, q, p2, q2, Ops(p2, CLIENT_ENDING));
      NoVerifyBreaks(p, q, Ops(p2, CLIENT_ENDING), q2);
    }
  }

  // If the chain were kept

  /** A server that has heard the chain waits for the key exchange, and what it
      then expects is a CertificateVerify, to be checked or skipped. */
  ghost predicate Awaits(q: Party, chain: seq<Cert>)
  {
    && q.config.Server? && chain != [] && q.status == Running && q.progress == 0
    && q == OnClientCertificate(Ops(q, []), chain)
  }

  /** The server goes on if the key can sign or the chain is not looked at. */
  predicate Signs(q: Party, chain: seq<Cert>)
    requires q.config.Server?
  {
    q.config.verdict(chain).Valid? ==> q.config.verdict(chain).signs
  }

  lemma VerifyAwaited(q: Party, chain: seq<Cert>, x: nat)
    requires Awaits(q, chain)
    ensures q.ops != [] && q.ops[0].Hear? && RecordOf(q.ops[0].point) == HANDSHAKE
    ensures var m := ClientKeyExchange(Some(x));
            && Admits(q.ops[0].point, m)
            && var r := HeardAll(q, m);
               if Signs(q, chain) then
                 && r == q.(ops := r.ops, session := q.session.(master := x), transcript := q.transcript + [m])
                 && (r.ops == [Hear(AtVerify)] + SERVER_ENDING || r.ops == [Hear(AtSkippedVerify)] + SERVER_ENDING)
               else r.status == Failed
  {}

  lemma VerifyHeard(q: Party, point: Point, ops: seq<Op>)
    requires point == AtVerify || point == AtSkippedVerify
    requires q.ops == [Hear(point)] + ops && q.progress == 0
    ensures HeardAll(q, CertificateVerify) == q.(ops := ops, transcript := q.transcript + [CertificateVerify])
  {}

  /** A client that still had its chain when it tests for it would send
      CertificateVerify, and the two would agree, exactly if the server finds
      that the key can sign or does not look at the chain: using the chain up is
      all that is wrong with a chain for signing. */
  lemma KeptChainAgrees(p: Party, q: Party, c: Config, chain: seq<Cert>)
    returns (transcript: seq<Msg>, p': Party, q': Party)
    requires c.Client? && p.config == c && Awaits(q, chain) && p.chainLeft == chain
    requires BothRun(p, q) && p.recordType == HANDSHAKE && q.recordType == HANDSHAKE
    requires p.transcript == q.transcript && p.session.(master := 0) == q.session.(master := 0)
    requires p.ops == [Say(ClientKeyExchange(Some(c.premaster))), VerifyIfCertified] + CLIENT_ENDING
    ensures if Signs(q, chain) then
              && Meet(p, q, Concluded(p', transcript), Concluded(q', transcript)) && p'.session == q'.session
              && p'.session.master == c.premaster && CertificateVerify in transcript
            else Breaks(p, q)
  {
    hide Together, Meet, Breaks, OnClientCertificate, Accept;
    var m := ClientKeyExchange(Some(c.premaster));
    VerifyAwaited(q, chain, c.premaster);
    Begin(p, q);
    Pass(p, q, p, q, m);
    var p1, q1 := Said(p, m), HeardAll(q, m);
    assert p1.ops == [VerifyIfCertified] + CLIENT_ENDING;
    if !Signs(q, chain) {
      EndingSplits([VerifyIfCertified]);
      FailureBreaks(p, q, p1, q1, [VerifyIfCertified] + CCS_SPEECH, READ_CCS_FINISHED + [Conclude]);
      transcript, p', q' := [], p, q;
    } else {
      var p2 := Ops(p1, [Say(CertificateVerify)] + CLIENT_ENDING);
      assert Did(p1, Think) == p2;
      Alone(p, q, p1, q1, p2);
      VerifyHeard(q1, q1.ops[0].point, SERVER_ENDING);
      Pass(p, q, p2, q1, CertificateVerify);
      p', q' := Said(p2, CertificateVerify), HeardAll(q1, CertificateVerify);
      assert p'.ops == CLIENT_ENDING && q'.ops == SERVER_ENDING;
      transcript := Concludes(p, q, p', q');
      assert p'.transcript[|p'.transcript| - 1] == CertificateVerify;
    }
  }

  // When the two are not compatible

  /** A server that cannot negotiate fails on the first message. */
  lemma NothingNegotiated(c: Config, s: Config, lengths: Msg -> nat)
    requires c.Client? && s.Server? && Negotiated(s, Hello(c)).None?
    ensures Breaks(StartClient(c, lengths), StartServer(s, lengths))
  {
    hide Together, Breaks, Negotiated;
    var p, q := StartClient(c, lengths), StartServer(s, lengths);
    Begin(p, q);
    Pass(p, q, p, q, Hello(c));
    var rest := [Hear(AtServerHello)];
    assert Said(p, Hello(c)).ops == [] + ([Push] + rest);
    FailureBreaks(p, q, Said(p, Hello(c)), HeardAll(q, Hello(c)), [], rest);
  }

  /** What the client makes of the answer to its first message. */
  lemma AnswerTaken(p: Party, session: Session)
    requires p.config.Client? && p.ops == [Hear(AtServerHello)] && p.progress == 0 && p.status == Running
    requires p.session == p.config.offered
    ensures var m := ServerHello(session.version, session.sid, session.suite);
            var r := HeardAll(p, m);
            && r.progress == 0 && r.config == p.config
            && (if !Accepts(p.config, session) then r.status == Failed
                else if Resembles(p.config, session) then
                  if session.(master := 0) != p.session.(master := 0) then r.status == Failed
                  else r.status == Running && r.session.master == p.session.master
                       && r.ops == READ_CCS_FINISHED + (WRITE_CCS_FINISHED + [Conclude])
                else r.status == Running && r.ops == [Hear(AtServerCertificate)] + ClientRest(session.suite))
  {
    var m := ServerHello(session.version, session.sid, session.suite);
    var r := OnServerHello(p.(ops := []), m);
    if r.status == Running {
      assert r.ops == if Resembles(p.config, session) then READ_CCS_FINISHED + (WRITE_CCS_FINISHED + [Conclude])
                      else [Hear(AtServerCertificate)] + ClientRest(session.suite);
    }
  }

  /** What the server says after its certificate, up to where it waits. */
  function ServerSpeech(s: Config, suite: Suite): seq<Op>
    requires s.Server?
  {
    If(suite.UsesEcdhe(), [Say(ServerKeyExchange)])
    + (If(s.asksClient, [Say(CertificateRequest)]) + [Say(ServerHelloDone)])
  }

  lemma RestSplits(s: Config, suite: Suite)
    requires s.Server?
    ensures Speaking(ServerSpeech(s, suite))
    ensures ServerRest(s, suite) == ServerSpeech(s, suite) + ([Push] + ServerTail(s.asksClient))
  {}

  lemma CertificateRefused(p: Party, c: Config, chain: seq<Cert>)
    requires c.Client? && p.config == c && p.ops != [] && p.ops[0] == Hear(AtServerCertificate)
    requires !(chain != [] && c.trusts(chain))
    ensures HeardAll(p, Certificate(chain)).status == Failed
  {}

  /** The client does not go along with a new session. */
  lemma NewSessionRefused(p: Party, q: Party, c: Config, s: Config, session: Session)
    requires c.Client? && s.Server? && BothRun(p, q) && p.config == c && p.session == c.offered
    requires p.recordType == HANDSHAKE && q.recordType == HANDSHAKE && q.config == s
    requires p.ops == [Hear(AtServerHello)]
    requires q.ops == [Say(ServerHello(session.version, session.sid, session.suite))]
                      + ([Say(Certificate(s.chain))] + ServerRest(s, session.suite))
    requires !(Accepts(c, session) && !Resembles(c, session) && s.chain != [] && c.trusts(s.chain))
    ensures Breaks(q, p)
  {
    hide Together, Breaks, Length, Accept, ServerRest, Accepts, ClientRest;
    var m, speech, rest := Certificate(s.chain), ServerSpeech(s, session.suite), ServerTail(s.asksClient);
    var hello := ServerHello(session.version, session.sid, session.suite);
    Begin(q, p);
    Pass(q, p, q, p, hello);
    AnswerTaken(p, session);
    RestSplits(s, session.suite);
    var q1, p1 := Said(q, hello), HeardAll(p, hello);
    assert q1.ops == [Say(m)] + (speech + ([Push] + rest));
    if p1.status == Failed {
      assert q1.ops == ([Say(m)] + speech) + ([Push] + rest);
      FailureBreaks(q, p, q1, p1, [Say(m)] + speech, rest);
    } else if Resembles(c, session) {
      WrongRecordBreaks(q, p, q1, p1, m, speech, rest);
    } else {
      CertificateRefused(p1, c, s.chain);
      Pass(q, p, q1, p1, m);
      FailureBreaks(q, p, Said(q1, m), HeardAll(p1, m), speech, rest);
    }
  }

  /** The client does not go along with a resumption. */
  lemma ResumptionRefused(p: Party, q: Party, c: Config, session: Session)
    requires c.Client? && q.config.Server? && BothRun(p, q) && p.config == c && p.session == c.offered
    requires p.recordType == HANDSHAKE && q.recordType == HANDSHAKE && q.session == session
    requires p.ops == [Hear(AtServerHello)] && Resembles(c, session)
    requires q.ops == [Say(ServerHello(session.version, session.sid, session.suite))]
                      + (WRITE_CCS_FINISHED + (READ_CCS_FINISHED + [Conclude]))
    requires !(Accepts(c, session) && session == c.offered)
    ensures Breaks(q, p)
  {
    hide Together, Breaks, Length, Accept, Accepts, ClientRest;
    var hello := ServerHello(session.version, session.sid, session.suite);
    Begin(q, p);
    Pass(q, p, q, p, hello);
    AnswerTaken(p, session);
    var q1, p1 := Said(q, hello), HeardAll(p, hello);
    if p1.status == Failed {
      var speech, rest := [Switch(CHANGE_CIPHER_SPEC)] + CCS_SPEECH[1..], READ_CCS_FINISHED + [Conclude];
      assert q1.ops == speech + ([Push] + rest);
      FailureBreaks(q, p, q1, p1, speech, rest);
    } else {
      WrongMasterBreaks(q, p, q1, p1, WRITE_CCS_FINISHED + [Conclude]);
    }
  }

  lemma Incompatible(p: Party, q: Party, c: Config, s: Config, lengths: Msg -> nat)
    requires c.Client? && s.Server? && Negotiated(s, Hello(c)).Some? && !Compatible(c, s)
    requires p == StartClient(c, lengths).(ops := [Hear(AtServerHello)], transcript := [Hello(c)])
    requires q == OnClientHello(Ops(StartServer(s, lengths), []), Hello(c)).(transcript := [Hello(c)])
    ensures Breaks(q, p)
  {
    hide Breaks, ServerRest, Accepts;
    var (session, resume) := Negotiated(s, Hello(c)).value;
    if resume {
      assert q.ops == [Say(ServerHello(session.version, session.sid, session.suite))]
                      + (WRITE_CCS_FINISHED + (READ_CCS_FINISHED + [Conclude]));
      ResumptionRefused(p, q, c, session);
    } else {
      ServerOpens(s, lengths, session, Hello(c));
      NewSessionRefused(p, q, c, s, session);
    }
  }

  // The whole handshake

  function Outcome(c: Config, s: Config): (Session, bool)
    requires Compatible(c, s)
  {
    Negotiated(s, Hello(c)).value
  }

  /** What a client and a server must settle beforehand: if the server asks
      for a certificate in a new session, it must accept what the client can
      answer. A chain that calls for a signature is never accepted. */
  predicate Suits(c: Config, s: Config)
    requires Compatible(c, s)
  {
    var (session, resume) := Outcome(c, s);
    resume || !s.asksClient || AnswersWell(c, s, session.suite)
  }

  lemma NewSessionHasNoSecret(c: Config, s: Config)
    requires Compatible(c, s) && !Outcome(c, s).1
    ensures Outcome(c, s).0.master == 0
  {}

  lemma NewSession(p: Party, q: Party, c: Config, s: Config, lengths: Msg -> nat, session: Session)
    returns (transcript: seq<Msg>, p': Party, q': Party)
    requires Compatible(c, s) && Outcome(c, s) == (session, false)
    requires p == StartClient(c, lengths).(ops := [Hear(AtServerHello)], transcript := [Hello(c)])
    requires q == OnClientHello(Ops(StartServer(s, lengths), []), Hello(c)).(transcript := [Hello(c)])
    ensures Suits(c, s) ==>
              Meet(p, q, Concluded(p', transcript), Concluded(q', transcript)) && p'.session == q'.session
              && p'.session.(master := 0) == session
    ensures !Suits(c, s) ==> Breaks(p, q)
  {
    hide Together, Meet, Breaks, OnClientHello, Negotiated, AnswersWell;
    NewSessionHasNoSecret(c, s);
    var p1, q1 := OpeningPasses(p, q, c, s, lengths, session);
    var tail := [Say(ServerHelloDone), Push] + ServerTail(s.asksClient);
    var p2, q2 := KeyExchangePasses(p, q, p1, q1, c, s, If(s.asksClient, [Say(CertificateRequest)]) + tail);
    var p3, q3 := RequestPasses(p, q, p2, q2, c, s, tail);
    var p4, q4 := DonePasses(p, q, p3, q3, c, s, ServerTail(s.asksClient));
    MeetSymmetric(q, p, q4, p4);
    if !Suits(c, s) {
      BadAnswer(p4, q4, c, s);
      BreaksLater(p, q, p4, q4);
      transcript, p', q' := [], p, q;
    } else {
      if s.asksClient {
        transcript, p', q' := CertifiedAnswer(p4, q4, c, s);
      } else {
        transcript, p', q' := PlainAnswer(p4, q4, c, s);
      }
      MeetThen(p, q, p4, q4, Concluded(p', transcript), Concluded(q', transcript));
    }
  }

  /** The two lines that every run of the pair stays on. */
  ghost predicate Course(p: Party, q: Party, p': Party, q': Party, l: Line<Tok>, m: Line<Tok>)
  {
    && Settled(Duet(p, q, l, m))
    && At(p, l) == p' && At(q, m) == q'
    && (p'.status == Done && q'.status == Done ==> Reads(l) == Writes(m) && Reads(m) == Writes(l))
  }

  lemma MeetIsCourse(p: Party, q: Party, p': Party, q': Party) returns (l: Line<Tok>, m: Line<Tok>)
    requires Meet(p, q, p', q') && p'.status == Done && q'.status == Done
    ensures Course(p, q, p', q', l, m)
  {
    l, m :| MeetBy(p, q, p', q', l, m);
  }

  lemma BreakIsCourse(p: Party, q: Party) returns (p': Party, q': Party, l: Line<Tok>, m: Line<Tok>)
    requires Breaks(p, q)
    ensures Course(p, q, p', q', l, m) && q'.status == Failed
  {
    l, m :| BreaksBy(p, q, l, m);
    p', q' := At(p, l), At(q, m);
  }

  /** The same seen from the other side. */
  lemma BackBreakIsCourse(p: Party, q: Party) returns (p': Party, q': Party, l: Line<Tok>, m: Line<Tok>)
    requires Breaks(q, p)
    ensures Course(p, q, p', q', l, m) && p'.status == Failed
  {
    m, l :| BreaksBy(q, p, m, l);
    SoundSymmetric(m, l);
    p', q' := At(p, l), At(q, m);
  }

  /** The two can agree: they are compatible and suit each other. */
  predicate Fits(c: Config, s: Config)
  {
    Compatible(c, s) && Suits(c, s)
  }

  /** Both parties are done, with one session and one transcript. */
  ghost predicate Agreed(p: Party, q: Party)
  {
    && p.status == Done && q.status == Done
    && p.session == q.session && p.transcript == q.transcript
  }

  lemma CompatibleCourse(p0: Party, q0: Party, p: Party, q: Party, c: Config, s: Config, lengths: Msg -> nat)
    returns (p': Party, q': Party, l: Line<Tok>, m: Line<Tok>)
    requires Compatible(c, s) && Meet(p0, q0, p, q)
    requires p == StartClient(c, lengths).(ops := [Hear(AtServerHello)], transcript := [Hello(c)])
    requires q == OnClientHello(Ops(StartServer(s, lengths), []), Hello(c)).(transcript := [Hello(c)])
    ensures Course(p0, q0, p', q', l, m)
    ensures if Suits(c, s) then Agreed(p', q') && p'.session.(master := 0) == Outcome(c, s).0.(master := 0)
            else q'.status == Failed
  {
    hide Meet, Breaks, OnClientHello, Negotiated, AnswersWell, Course;
    var (session, resume) := Outcome(c, s);
    var transcript, a, b;
    if resume {
      transcript, a, b := Resumes(p, q, c, s, lengths, session);
    } else {
      transcript, a, b := NewSession(p, q, c, s, lengths, session);
    }
    if Suits(c, s) {
      p', q' := Concluded(a, transcript), Concluded(b, transcript);
      MeetThen(p0, q0, p, q, p', q');
      l, m := MeetIsCourse(p0, q0, p', q');
    } else {
      BreaksLater(p0, q0, p, q);
      p', q', l, m := BreakIsCourse(p0, q0);
    }
  }

  /** Every pair has its course, and it ends well exactly if the two fit. */
  lemma CourseExists(c: Config, s: Config, lengths: Msg -> nat)
    returns (p': Party, q': Party, l: Line<Tok>, m: Line<Tok>)
    requires c.Client? && s.Server?
    ensures Course(StartClient(c, lengths), StartServer(s, lengths), p', q', l, m)
    ensures if Fits(c, s) then Agreed(p', q') && p'.session.(master := 0) == Outcome(c, s).0.(master := 0)
            else p'.status == Failed || q'.status == Failed
    ensures Compatible(c, s) && !Suits(c, s) ==> q'.status == Failed
  {
    hide Meet, Breaks, OnClientHello, Negotiated, Suits, Course;
    var p0, q0 := StartClient(c, lengths), StartServer(s, lengths);
    if Negotiated(s, Hello(c)).None? {
      NothingNegotiated(c, s, lengths);
      p', q', l, m := BreakIsCourse(p0, q0);
      return;
    }
    var p, q := HelloPasses(c, s, lengths);
    if Compatible(c, s) {
      p', q', l, m := CompatibleCourse(p0, q0, p, q, c, s, lengths);
    } else {
      Incompatible(p, q, c, s, lengths);
      MeetSymmetric(p0, q0, p, q);
      BreaksLater(q0, p0, q, p);
      p', q', l, m := BackBreakIsCourse(p0, q0);
    }
  }

  function Start(c: Config, s: Config, lengths: Msg -> nat): System
    requires c.Client? && s.Server?
  {
    System(StartClient(c, lengths), StartServer(s, lengths), EMPTY_CHANNEL, EMPTY_CHANNEL)
  }

  /** A party on its line has failed only if the line ends with a failure. */
  lemma RunningOnTheLine(p: Party, l: Line<Tok>, i: nat)
    requires Follows(p, l) && i <= |l|
    ensures i < |l| ==> At(p, l[..i]).status == Running
    ensures i == |l| ==> l[..i] == l
  {
    if i < |l| {
      AtNext(p, l, i);
    }
  }

  lemma AllArrived(c: Channel, w: Line<Tok>, r: Line<Tok>)
    requires Carries(c, w, |w|, r, |r|) && Reads(r) == Writes(w)
    ensures c.wire == [] && c.pending == []
  {
    assert w[..|w|] == w && r[..|r|] == r;
  }

  /** Any client and any server, whatever the order of steps and wherever
      records are cut: when neither can go on, they have agreed, exactly if
      they fit, and otherwise one of them has failed. */
  lemma HandshakeAgrees(c: Config, s: Config, lengths: Msg -> nat, moves: seq<Move>)
    requires c.Client? && s.Server? && Run(Start(c, s, lengths), moves).Some?
    requires Still(Run(Start(c, s, lengths), moves).value)
    ensures var e := Run(Start(c, s, lengths), moves).value;
            && (Agreed(e.client, e.server) <==> Fits(c, s))
            && (!Fits(c, s) ==> e.client.status == Failed || e.server.status == Failed)
            && (Compatible(c, s) && !Suits(c, s) ==> e.server.status == Failed)
            && (Fits(c, s) ==>
                  e.up.wire == [] && e.up.pending == [] && e.down.wire == [] && e.down.pending == []
                  && e.client.session.(master := 0) == Outcome(c, s).0.(master := 0))
  {
    hide Suits, Compatible, Still, Stands, Settled, Follows;
    var p, q, l, m := CourseExists(c, s, lengths);
    var ls := Duet(StartClient(c, lengths), StartServer(s, lengths), l, m);
    StartStands(ls);
    var i, j := RunStands(ls, Start(c, s, lengths), 0, 0, moves);
    var e := Run(Start(c, s, lengths), moves).value;
    StillIsDone(ls, e, i, j);
    StandsAtEnd(ls, e);
    if Fits(c, s) {
      AllArrived(e.up, l, m);
      AllArrived(e.down, m, l);
    }
  }

  lemma StandsAtEnd(ls: Duet, e: System)
    requires Stands(ls, e, |ls.up|, |ls.down|)
    ensures e.client == At(ls.client, ls.up) && e.server == At(ls.server, ls.down)
    ensures Carries(e.up, ls.up, |ls.up|, ls.down, |ls.down|) && Carries(e.down, ls.down, |ls.down|, ls.up, |ls.up|)
  {
    assert ls.up[..|ls.up|] == ls.up && ls.down[..|ls.down|] == ls.down;
  }

  /** At no time does a party that fits the other fail. */
  lemma HandshakeNeverFails(c: Config, s: Config, lengths: Msg -> nat, moves: seq<Move>)
    requires Fits(c, s) && Run(Start(c, s, lengths), moves).Some?
    ensures var e := Run(Start(c, s, lengths), moves).value;
            e.client.status != Failed && e.server.status != Failed
  {
    hide Suits, Negotiated, Accepts, Follows;
    var p, q, l, m := CourseExists(c, s, lengths);
    var ls := Duet(StartClient(c, lengths), StartServer(s, lengths), l, m);
    StartStands(ls);
    var i, j := RunStands(ls, Start(c, s, lengths), 0, 0, moves);
    RunningOnTheLine(ls.client, l, i);
    RunningOnTheLine(ls.server, m, j);
  }

  /** Every schedule comes to an end: there is a number of steps of the two
      parties that no run exceeds. */
  lemma HandshakeEnds(c: Config, s: Config, lengths: Msg -> nat) returns (most: nat)
    requires c.Client? && s.Server?
    ensures forall moves | Run(Start(c, s, lengths), moves).Some? :: Goes(moves) <= most
  {
    hide Suits, Compatible;
    var p, q, l, m := CourseExists(c, s, lengths);
    var ls := Duet(StartClient(c, lengths), StartServer(s, lengths), l, m);
    StartStands(ls);
    most := |l| + |m|;
    forall moves | Run(Start(c, s, lengths), moves).Some? ensures Goes(moves) <= most {
      var i, j := RunStands(ls, Start(c, s, lengths), 0, 0, moves);
    }
  }
}
