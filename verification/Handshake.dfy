/** The two handshake coroutines as machines that say and hear messages one
    piece at a time. What a party does next is its list of operations; what
    it hears can change the rest of the list. */
module Handshake {
  import opened Wrappers
  import opened Lines

  type Sid = seq<int>
  type Cert = nat

  /** A cipher suite and its entry in the suite table. */
  datatype Suite = Suite(id: nat, elements: nat)
  {
    function KeyKind(): nat
    {
      elements / 0x1000 % 0x10
    }

    /** The expected key type of the certificate has the signing bit. */
    predicate ExpectsSigner()
    {
      match KeyKind()
      case 0 => false
      case 1 => true
      case 2 => true
      case _ => false
    }

    predicate UsesEcdhe()
    {
      1 <= KeyKind() <= 2
    }

    predicate UsesEcdh()
    {
      KeyKind() > 2
    }

    /** The MAC field does not name HMAC with SHA-1. */
    predicate NeedsTls12()
    {
      elements / 0x10 % 0x10 != 2
    }
  }

  /** The four fields of an entry. A suite exchanges its key in one way; the
      certificate must be able to sign exactly where the key is ephemeral; and
      the suites with a MAC other than HMAC with SHA-1 are those of TLS 1.2. */
  lemma SuiteFields(id: nat, kind: nat, cipher: nat, mac: nat, prf: nat)
    requires kind < 0x10 && cipher < 0x10 && mac < 0x10 && prf < 0x10
    ensures var s := Suite(id, ((kind * 0x10 + cipher) * 0x10 + mac) * 0x10 + prf);
            && s.KeyKind() == kind
            && (kind == 0 <==> !s.UsesEcdhe() && !s.UsesEcdh()) && !(s.UsesEcdhe() && s.UsesEcdh())
            && (s.ExpectsSigner() <==> s.UsesEcdhe())
            && (s.NeedsTls12() <==> mac != 2)
  {
    var e := ((kind * 0x10 + cipher) * 0x10 + mac) * 0x10 + prf;
    assert e / 0x10 == (kind * 0x10 + cipher) * 0x10 + mac;
    assert e / 0x1000 == kind;
  }

  const FALLBACK_SCSV: nat := 0x5600

  /** A message stands for its bytes. The key exchange carries what both sides
      derive the master secret from, None for the empty one; a Finished is
      the keyed digest of everything said and heard before it. */
  datatype Msg =
    | ClientHello(version: nat, sid: Sid, suites: seq<Suite>)
    | ServerHello(version: nat, sid: Sid, suite: Suite)
    | Certificate(chain: seq<Cert>)
    | ServerKeyExchange
    | CertificateRequest
    | ServerHelloDone
    | ClientKeyExchange(secret: Option<nat>)
    | CertificateVerify
    | ChangeCipherSpec
    | Finished(fromClient: bool, master: nat, transcript: seq<Msg>)

  const HANDSHAKE: nat := 22
  const CHANGE_CIPHER_SPEC: nat := 20

  /** Byte index of a message of the given length, in a record of a type. */
  datatype Tok = Tok(rtype: nat, msg: Msg, index: nat, length: nat)

  datatype Session = Session(sid: Sid, version: nat, suite: Suite, master: nat)

  /** What the server's validation of a client's chain finds; a good key may
      be fit for static key agreement, for signing, or both. */
  datatype Verdict = Invalid | Valid(agrees: bool, signs: bool)

  datatype Credential = Credential(chain: seq<Cert>, isStatic: bool)

  datatype Config =
    | Client(
        versionMin: nat, versionMax: nat, suites: seq<Suite>, offered: Session,
        trusts: seq<Cert> -> bool, credential: Option<Credential>, premaster: nat, staticSecret: nat)
    | Server(
        versionMin: nat, versionMax: nat, cache: map<Sid, Session>, freshSid: Sid,
        policy: (nat, seq<Suite>) -> Option<Suite>, chain: seq<Cert>, asksClient: bool, toleratesNone: bool,
        verdict: seq<Cert> -> Verdict, secretWith: seq<Cert> -> nat)

  /** Where a party reads, and so what it does with the message. */
  datatype Point =
    | AtClientHello | AtServerHello | AtServerCertificate | AtServerKeyExchange | AtRequestOrDone | AtDone
    | AtClientCertificate | AtKeyExchange | AtCertifiedKeyExchange(chain: seq<Cert>) | AtVerify | AtSkippedVerify
    | AtCcs | AtFinished

  datatype Op =
    | Say(msg: Msg)
    | Push
    | Switch(rtype: nat)
    | Hear(point: Point)
    | NoMore
    | MakeFinished
    | VerifyIfCertified
    | Conclude

  datatype Status = Running | Done | Failed

  datatype Party = Party(
    config: Config,
    lengths: Msg -> nat,
    ops: seq<Op>,
    progress: nat,
    recordType: nat,
    session: Session,
    chainLeft: seq<Cert>,
    transcript: seq<Msg>,
    status: Status)

  const NO_SESSION: Session := Session([], 0, Suite(0, 0), 0)

  function Length(p: Party, m: Msg): (r: nat)
    ensures r > 0
  {
    if m.ChangeCipherSpec? then 1 else 4 + p.lengths(m)
  }

  function Fail(p: Party): Party
  {
    p.(status := Failed)
  }

  // What the two coroutines do

  const WRITE_CCS_FINISHED: seq<Op> := [Switch(CHANGE_CIPHER_SPEC), Say(ChangeCipherSpec), Push, Switch(HANDSHAKE),
    MakeFinished, Push]

  const READ_CCS_FINISHED: seq<Op> := [Hear(AtCcs), NoMore, Hear(AtFinished)]

  function StartClient(config: Config, lengths: Msg -> nat): Party
    requires config.Client?
  {
    Party(config, lengths,
      [Say(ClientHello(config.versionMax, config.offered.sid, config.suites)), Push, Hear(AtServerHello)],
      0, HANDSHAKE, config.offered, [], [], Running)
  }

  function StartServer(config: Config, lengths: Msg -> nat): Party
    requires config.Server?
  {
    Party(config, lengths, [Hear(AtClientHello), NoMore], 0, HANDSHAKE, NO_SESSION, [], [], Running)
  }

  function If(b: bool, ops: seq<Op>): seq<Op>
  {
    if b then ops else []
  }

  function ClientRest(suite: Suite): seq<Op>
  {
    If(suite.ExpectsSigner(), [Hear(AtServerKeyExchange)]) + [Hear(AtRequestOrDone)]
  }

  function OnServerHello(p: Party, m: Msg): Party
    requires p.config.Client? && m.ServerHello?
  {
    if m.version < p.config.versionMin || m.version > p.config.versionMax then Fail(p) else
    var resume := |m.sid| == |p.session.sid| && |m.sid| > 0 && m.sid == p.session.sid;
    if resume && p.session.version != m.version then Fail(p) else
    if m.suite !in p.config.suites || (m.suite.NeedsTls12() && m.version < 0x0303) then Fail(p) else
    if resume && p.session.suite != m.suite then Fail(p) else
    p.(session := p.session.(sid := m.sid, version := m.version, suite := m.suite),
       ops := p.ops +
         if resume then READ_CCS_FINISHED + (WRITE_CCS_FINISHED + [Conclude])
         else [Hear(AtServerCertificate)] + ClientRest(m.suite))
  }

  /** After ServerHelloDone. The chain is written only if it was asked for;
      writing it uses it up. */
  function ClientReply(p: Party, asked: bool): Party
    requires p.config.Client?
  {
    var ending := WRITE_CCS_FINISHED + (READ_CCS_FINISHED + [Conclude]);
    if asked && p.config.credential.Some? && p.config.credential.value.isStatic then
      p.(ops := p.ops + [NoMore, Say(Certificate(p.chainLeft)), Say(ClientKeyExchange(None))] + ending)
    else
      p.(ops := p.ops + [NoMore] + (if asked then [Say(Certificate(p.chainLeft))] else [])
                + [Say(ClientKeyExchange(Some(p.config.premaster)))]
                + (if asked then [VerifyIfCertified] else []) + ending)
  }

  function Negotiated(s: Config, m: Msg): Option<(Session, bool)>
    requires s.Server? && m.ClientHello?
  {
    var cached := if |m.sid| == 32 && m.sid in s.cache then Some(s.cache[m.sid]) else None;
    var ver := if m.version < s.versionMax then m.version else s.versionMax;
    if (exists o <- m.suites :: o.id == FALLBACK_SCSV) && s.versionMin <= m.version < s.versionMax then None
    else if ver < 0x0300 || m.version < s.versionMin then None
    else if cached.Some? && cached.value.suite in m.suites && cached.value.version <= m.version then
      Some((cached.value.(sid := m.sid), true))
    else
      match s.policy(ver, m.suites)
      case None => None
      case Some(suite) => Some((Session(s.freshSid, ver, suite, 0), false))
  }

  function ServerTail(asks: bool): seq<Op>
  {
    [Hear(if asks then AtClientCertificate else AtKeyExchange)]
    + If(!asks, READ_CCS_FINISHED + (WRITE_CCS_FINISHED + [Conclude]))
  }

  /** What the server does after its certificate. */
  function ServerRest(s: Config, suite: Suite): seq<Op>
    requires s.Server?
  {
    If(suite.UsesEcdhe(), [Say(ServerKeyExchange)])
    + (If(s.asksClient, [Say(CertificateRequest)]) + ([Say(ServerHelloDone), Push] + ServerTail(s.asksClient)))
  }

  function OnClientHello(p: Party, m: Msg): Party
    requires p.config.Server? && m.ClientHello?
  {
    match Negotiated(p.config, m)
    case None => Fail(p)
    case Some((session, resume)) =>
      var hello := Say(ServerHello(session.version, session.sid, session.suite));
      p.(session := session,
         ops := p.ops +
           if resume then [hello] + (WRITE_CCS_FINISHED + (READ_CCS_FINISHED + [Conclude]))
           else [hello] + ([Say(Certificate(p.config.chain))] + ServerRest(p.config, session.suite)))
  }

  function OnClientCertificate(p: Party, chain: seq<Cert>): Party
    requires p.config.Server?
  {
    var ending := READ_CCS_FINISHED + (WRITE_CCS_FINISHED + [Conclude]);
    if chain == [] then
      if p.config.toleratesNone then p.(ops := p.ops + [Hear(AtKeyExchange)] + ending) else Fail(p)
    else match p.config.verdict(chain)
    case Invalid =>
      if p.config.toleratesNone then p.(ops := p.ops + [Hear(AtKeyExchange), Hear(AtSkippedVerify)] + ending)
      else Fail(p)
    case Valid(_, _) => p.(ops := p.ops + [Hear(AtCertifiedKeyExchange(chain))])
  }

  function OnCertifiedKeyExchange(p: Party, chain: seq<Cert>, secret: Option<nat>): Party
    requires p.config.Server?
  {
    var ending := READ_CCS_FINISHED + (WRITE_CCS_FINISHED + [Conclude]);
    var v := p.config.verdict(chain);
    match secret
    case None =>
      if v.Valid? && v.agrees && p.session.suite.UsesEcdh()
      then p.(session := p.session.(master := p.config.secretWith(chain)), ops := p.ops + ending)
      else Fail(p)
    case Some(x) =>
      if v.Valid? && v.signs
      then p.(session := p.session.(master := x), ops := p.ops + [Hear(AtVerify)] + ending)
      else Fail(p)
  }

  // One piece at a time

  function RecordOf(point: Point): nat
  {
    if point.AtCcs? then CHANGE_CIPHER_SPEC else HANDSHAKE
  }

  /** The test of the message type in the header. */
  predicate Admits(point: Point, m: Msg)
  {
    match point
    case AtClientHello => m.ClientHello?
    case AtServerHello => m.ServerHello?
    case AtServerCertificate => m.Certificate?
    case AtServerKeyExchange => m.ServerKeyExchange?
    case AtRequestOrDone => m.CertificateRequest? || m.ServerHelloDone?
    case AtDone => m.ServerHelloDone?
    case AtClientCertificate => m.Certificate?
    case AtKeyExchange => m.ClientKeyExchange?
    case AtCertifiedKeyExchange(_) => m.ClientKeyExchange?
    case AtVerify => m.CertificateVerify?
    case AtSkippedVerify => m.CertificateVerify?
    case AtCcs => m.ChangeCipherSpec?
    case AtFinished => m.Finished?
  }

  /** p has heard all of m; its transcript does not hold m yet. */
  function Accept(p: Party, point: Point, m: Msg): Party
  {
    if !Admits(point, m) then Fail(p) else
    match point
    case AtClientHello => if p.config.Server? then OnClientHello(p, m) else Fail(p)
    case AtServerHello => if p.config.Client? then OnServerHello(p, m) else Fail(p)
    case AtServerCertificate => if p.config.Client? && m.chain != [] && p.config.trusts(m.chain) then p else Fail(p)
    case AtRequestOrDone =>
      if !p.config.Client? then Fail(p)
      else if m.CertificateRequest? then
        p.(chainLeft := if p.config.credential.Some? then p.config.credential.value.chain else [],
           ops := p.ops + [Hear(AtDone)])
      else ClientReply(p, false)
    case AtDone => if p.config.Client? then ClientReply(p, true) else Fail(p)
    case AtClientCertificate => if p.config.Server? then OnClientCertificate(p, m.chain) else Fail(p)
    case AtKeyExchange =>
      if m.secret.Some? then p.(session := p.session.(master := m.secret.value)) else Fail(p)
    case AtCertifiedKeyExchange(chain) =>
      if p.config.Server? then OnCertifiedKeyExchange(p, chain, m.secret) else Fail(p)
    case AtFinished =>
      if m == Finished(p.config.Server?, p.session.master, p.transcript) then p else Fail(p)
    case _ => p
  }

  /** The running hash takes in handshake records only. */
  function Hashed(p: Party, rtype: nat, m: Msg): seq<Msg>
  {
    if rtype == HANDSHAKE then p.transcript + [m] else p.transcript
  }

  function Heard(p: Party, point: Point, t: Tok): Party
    requires p.ops != []
  {
    if t.rtype != RecordOf(point) || t.index != p.progress || !Admits(point, t.msg) then Fail(p) else
    if p.progress + 1 < t.length then p.(progress := p.progress + 1) else
    Accept(p.(progress := 0, ops := p.ops[1..]), point, t.msg).(transcript := Hashed(p, t.rtype, t.msg))
  }

  /** The whole of m is written. A key exchange sets the master secret, and
      the chain is used up by writing it. */
  function Said(p: Party, m: Msg): Party
    requires p.ops != []
  {
    p.(progress := 0, ops := p.ops[1..], transcript := Hashed(p, p.recordType, m),
       chainLeft := if m.Certificate? then [] else p.chainLeft,
       session :=
         if m.ClientKeyExchange? && p.config.Client?
         then p.session.(master := match m.secret case Some(x) => x case None => p.config.staticSecret)
         else p.session)
  }

  datatype Want = Emits(tok: Tok) | Pushes | Needs | Checks | Thinks | Rests

  function WantOf(p: Party): Want
  {
    if p.status != Running || p.ops == [] then Rests else
    match p.ops[0]
    case Say(m) => Emits(Tok(p.recordType, m, p.progress, Length(p, m)))
    case Push => Pushes
    case Switch(_) => Pushes
    case Hear(_) => Needs
    case NoMore => Checks
    case _ => Thinks
  }

  predicate Matches(w: Want, a: Act<Tok>)
  {
    match w
    case Emits(t) => a == Write(t)
    case Pushes => a.Flush?
    case Needs => a.Read?
    case Checks => a.Quiet?
    case Thinks => a.Think?
    case Rests => false
  }

  function Did(p: Party, a: Act<Tok>): Party
    requires Matches(WantOf(p), a)
  {
    match p.ops[0]
    case Say(m) => if p.progress + 1 < Length(p, m) then p.(progress := p.progress + 1) else Said(p, m)
    case Push => p.(ops := p.ops[1..])
    case Switch(t) => p.(ops := p.ops[1..], recordType := t)
    case Hear(point) => Heard(p, point, a.tok)
    case NoMore => p.(ops := p.ops[1..])
    case MakeFinished =>
      p.(ops := [Say(Finished(p.config.Client?, p.session.master, p.transcript))] + p.ops[1..])
    case VerifyIfCertified => p.(ops := (if p.chainLeft != [] then [Say(CertificateVerify)] else []) + p.ops[1..])
    case Conclude => p.(ops := p.ops[1..], status := Done)
  }
}
