/** What a server makes of a client's first message, and which pairs of
    configurations fit: said of the configurations alone. */
module Negotiation {
  import opened Wrappers
  import opened Handshake
  import opened HandshakeAgreement

  /** The client says that it has fallen back, although the server could have
      gone higher. */
  predicate FallsBackWrongly(s: Config, m: Msg)
    requires s.Server? && m.ClientHello?
  {
    (exists o <- m.suites :: o.id == FALLBACK_SCSV) && s.versionMin <= m.version < s.versionMax
  }

  /** A version that the maxima of both sides allow. */
  predicate Allowed(s: Config, m: Msg, v: nat)
    requires s.Server? && m.ClientHello?
  {
    0x0300 <= v <= m.version && v <= s.versionMax
  }

  ghost predicate Highest(s: Config, m: Msg, v: nat)
    requires s.Server? && m.ClientHello?
  {
    Allowed(s, m, v) && forall u: nat | Allowed(s, m, u) :: u <= v
  }

  /** The server holds a session of that ID, whose suite is offered and whose
      version the client reaches. */
  predicate CanResume(s: Config, m: Msg)
    requires s.Server? && m.ClientHello?
  {
    |m.sid| == 32 && m.sid in s.cache && s.cache[m.sid].suite in m.suites && s.cache[m.sid].version <= m.version
  }

  /** The server goes on with this session. */
  ghost predicate Chooses(s: Config, m: Msg, session: Session, resume: bool)
    requires s.Server? && m.ClientHello?
  {
    && !FallsBackWrongly(s, m) && s.versionMin <= m.version && (exists v: nat :: Allowed(s, m, v))
    && (resume <==> CanResume(s, m))
    && if resume then session == s.cache[m.sid].(sid := m.sid)
       else Highest(s, m, session.version) && s.policy(session.version, m.suites) == Some(session.suite)
            && session.sid == s.freshSid && session.master == 0
  }

  /** The server resumes exactly a session that it can resume; a new one has the
      highest version that both allow, and the suite that the policy finds for
      that version. */
  lemma NegotiatesExactly(s: Config, m: Msg, session: Session, resume: bool)
    requires s.Server? && m.ClientHello?
    ensures Negotiated(s, m) == Some((session, resume)) <==> Chooses(s, m, session, resume)
  {
    var v := if m.version < s.versionMax then m.version else s.versionMax;
    assert v >= 0x0300 ==> Highest(s, m, v);
  }

  /** It refuses exactly on a fallback that was not needed, on a client that is
      too old, without a common version, or without a suite for a new session. */
  lemma RefusesExactly(s: Config, m: Msg)
    requires s.Server? && m.ClientHello?
    ensures Negotiated(s, m).None? <==>
              || FallsBackWrongly(s, m) || m.version < s.versionMin || (forall v: nat :: !Allowed(s, m, v))
              || (!CanResume(s, m) && forall v: nat | Highest(s, m, v) :: s.policy(v, m.suites).None?)
  {
    var v := if m.version < s.versionMax then m.version else s.versionMax;
    assert v >= 0x0300 ==> Highest(s, m, v);
  }

  // ----- which pairs fit -----

  /** The client can take part in a new session of that version. */
  predicate NewFits(c: Config, s: Config, v: nat)
    requires c.Client? && s.Server?
  {
    && c.versionMin <= v
    && s.chain != [] && c.trusts(s.chain)
    && (s.freshSid == [] || s.freshSid != c.offered.sid)
    && match s.policy(v, c.suites)
       case None => false
       case Some(suite) =>
         && suite in c.suites && (suite.NeedsTls12() ==> v >= 0x0303)
         && (s.asksClient ==> AnswersWell(c, s, suite))
  }

  /** What the server would resume is what the client offers, and in its range. */
  predicate ResumedFits(c: Config, s: Config)
    requires c.Client? && s.Server? && c.offered.sid in s.cache
  {
    && s.cache[c.offered.sid].(sid := c.offered.sid) == c.offered
    && c.versionMin <= c.offered.version
    && (c.offered.suite.NeedsTls12() ==> c.offered.version >= 0x0303)
  }

  /** Which clients and servers come to an agreement, read off the two
      configurations; v is the highest version that both allow. */
  lemma FitsExactly(c: Config, s: Config, v: nat)
    requires c.Client? && s.Server? && Highest(s, Hello(c), v)
    ensures Fits(c, s) <==>
              && !FallsBackWrongly(s, Hello(c)) && s.versionMin <= c.versionMax
              && if CanResume(s, Hello(c)) then ResumedFits(c, s) else NewFits(c, s, v)
    ensures Fits(c, s) && !CanResume(s, Hello(c)) ==> Outcome(c, s).0.version == v
  {
    hide Negotiated, AnswersWell, Suite.NeedsTls12;
    var m := Hello(c);
    if CanResume(s, m) {
      ChosenResumed(s, m, v);
    } else {
      ChosenNew(s, m, v);
    }
  }

  lemma ChosenResumed(s: Config, m: Msg, v: nat)
    requires s.Server? && m.ClientHello? && Highest(s, m, v) && CanResume(s, m)
    ensures Negotiated(s, m) ==
            if FallsBackWrongly(s, m) || m.version < s.versionMin then None
            else Some((s.cache[m.sid].(sid := m.sid), true))
  {
    RefusesExactly(s, m);
    NegotiatesExactly(s, m, s.cache[m.sid].(sid := m.sid), true);
  }

  lemma ChosenNew(s: Config, m: Msg, v: nat)
    requires s.Server? && m.ClientHello? && Highest(s, m, v) && !CanResume(s, m)
    ensures Negotiated(s, m) ==
            if FallsBackWrongly(s, m) || m.version < s.versionMin then None
            else match s.policy(v, m.suites)
                 case None => None
                 case Some(suite) => Some((Session(s.freshSid, v, suite, 0), false))
  {
    RefusesExactly(s, m);
    if suite: Suite :| s.policy(v, m.suites) == Some(suite) {
      NegotiatesExactly(s, m, Session(s.freshSid, v, suite, 0), false);
    }
  }

  /** Without a common version nothing fits. */
  lemma NoVersion(c: Config, s: Config)
    requires c.Client? && s.Server? && forall v: nat :: !Allowed(s, Hello(c), v)
    ensures !Fits(c, s)
  {
    RefusesExactly(s, Hello(c));
  }

  /** A version in the ranges of both. */
  predicate InBoth(c: Config, s: Config, u: nat)
  {
    c.versionMin <= u <= c.versionMax && s.versionMin <= u <= s.versionMax
  }

  /** Two ranges of versions have a version in common exactly if the highest
      one that both maxima allow is in both. */
  lemma RangesMeet(c: Config, s: Config, v: nat)
    requires c.Client? && s.Server? && Highest(s, Hello(c), v)
    requires c.versionMin <= c.versionMax && 0x0300 <= s.versionMin <= s.versionMax
    ensures c.versionMin <= v && s.versionMin <= c.versionMax <==> exists u: nat :: InBoth(c, s, u)
    ensures forall u: nat | InBoth(c, s, u) :: u <= v
  {
    var m := Hello(c);
    assert Allowed(s, m, if c.versionMax < s.versionMax then c.versionMax else s.versionMax);
    forall u: nat | InBoth(c, s, u) ensures u <= v {
      assert Allowed(s, m, u);
    }
    if c.versionMin <= v && s.versionMin <= c.versionMax {
      assert InBoth(c, s, v);
    }
  }
}
