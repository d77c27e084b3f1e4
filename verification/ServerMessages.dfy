/** Messages whose length is worked out before they are written: by a dry run
    of the same writer, or by adding up a chain. */
module ServerMessages {
  import opened Wrappers
  import opened HelloSpec
  import opened HelloWriter

  // ----- CertificateRequest -----

  datatype Request = Request(ecdh: bool, rsa: bool, ecdsa: bool, tls12: bool, hashes: set<nat>, anchors: seq<Bytes>)

  const SERVER_PREFERENCE: seq<nat> := [4, 5, 6, 3, 2]

  /** Client certificate types: the two fixed ECDH types, RSA, ECDSA. */
  function AuthBytes(c: Request): Bytes
  {
    (if c.ecdh then W8(65) + W8(66) else []) + (if c.rsa then W8(1) else []) + (if c.ecdsa then W8(64) else [])
  }

  /** With neither algorithm everything is declared supported, for static
      ECDH. */
  function SignHashBytes(c: Request): Bytes
  {
    if !c.rsa && !c.ecdsa then
      HashPairs({2, 3, 4, 5, 6}, 1, SERVER_PREFERENCE) + HashPairs({2, 3, 4, 5, 6}, 3, SERVER_PREFERENCE)
    else
      (if c.rsa then HashPairs(c.hashes, 1, SERVER_PREFERENCE) else [])
      + (if c.ecdsa then HashPairs(c.hashes, 3, SERVER_PREFERENCE) else [])
  }

  function AnchorBytes(anchors: seq<Bytes>): Bytes
  {
    if anchors == [] then [] else W16(|anchors[0]|) + anchors[0] + AnchorBytes(anchors[1..])
  }

  function RequestBytes(c: Request): Bytes
  {
    W8(|AuthBytes(c)|) + AuthBytes(c) + (if c.tls12 then W16(|SignHashBytes(c)|) + SignHashBytes(c) else [])
    + W16(|AnchorBytes(c.anchors)|) + AnchorBytes(c.anchors)
  }

  function RequestMessage(c: Request): Bytes
  {
    W8(13) + W24(|RequestBytes(c)|) + RequestBytes(c)
  }

  /** A writer that only counts when it is not to write. */
  method Put8(o: Output, doWrite: bool, n: nat) returns (r: Got<()>)
    requires o.Valid()
    modifies o
    ensures o.Valid() && (r.Got? || r == Starved)
    ensures r.Got? ==> o.written == old(o.written) + if doWrite then W8(n) else []
  {
    if doWrite {
      r := o.Write8(n);
    } else {
      r := Got(());
    }
  }

  /** The number of bytes, whether or not they are written. */
  method WriteListAuth(o: Output, c: Request, doWrite: bool) returns (r: Got<nat>)
    requires o.Valid()
    modifies o
    ensures o.Valid() && (r.Got? || r == Starved)
    ensures r.Got? ==> r.value == |AuthBytes(c)|
    ensures r.Got? ==> o.written == old(o.written) + if doWrite then AuthBytes(c) else []
  {
    var len := 0;
    if c.ecdh {
      len := len + 2;
      var _ :- Put8(o, doWrite, 65);
      var _ :- Put8(o, doWrite, 66);
    }
    if c.rsa {
      len := len + 1;
      var _ :- Put8(o, doWrite, 1);
    }
    if c.ecdsa {
      len := len + 1;
      var _ :- Put8(o, doWrite, 64);
    }
    r := Got(len);
  }

  method WriteSignHashInner2(o: Output, doWrite: bool, algo: nat, hashes: set<nat>, len: nat, id: nat)
    returns (r: Got<nat>)
    requires o.Valid()
    modifies o
    ensures o.Valid() && (r.Got? || r == Starved)
    ensures var x := PairIn(hashes, id, algo);
            r.Got? ==> r.value == len + |x| && o.written == old(o.written) + if doWrite then x else []
  {
    if id !in hashes {
      return Got(len);
    }
    var _ :- Put8(o, doWrite, id);
    var _ :- Put8(o, doWrite, algo);
    Join2(old(o.written), W8(id), W8(algo));
    r := Got(len + 2);
  }

  method WriteSignHashInner1(o: Output, doWrite: bool, algo: nat, hashes: set<nat>) returns (r: Got<nat>)
    requires o.Valid()
    modifies o
    ensures o.Valid() && (r.Got? || r == Starved)
    ensures var x := HashPairs(hashes, algo, SERVER_PREFERENCE);
            r.Got? ==> r.value == |x| && o.written == old(o.written) + if doWrite then x else []
  {
    hide W8, PairIn, HashPairs;
    var len :- WriteSignHashInner2(o, doWrite, algo, hashes, 0, 4);
    len :- WriteSignHashInner2(o, doWrite, algo, hashes, len, 5);
    len :- WriteSignHashInner2(o, doWrite, algo, hashes, len, 6);
    len :- WriteSignHashInner2(o, doWrite, algo, hashes, len, 3);
    len :- WriteSignHashInner2(o, doWrite, algo, hashes, len, 2);
    ServerPairs(hashes, algo);
    Join5(old(o.written), PairIn(hashes, 4, algo), PairIn(hashes, 5, algo), PairIn(hashes, 6, algo),
          PairIn(hashes, 3, algo), PairIn(hashes, 2, algo));
    r := Got(len);
  }

  function PairIn(hashes: set<nat>, id: nat, algo: nat): Bytes
  {
    if id in hashes then W8(id) + W8(algo) else []
  }

  lemma ServerPairs(hashes: set<nat>, algo: nat)
    ensures HashPairs(hashes, algo, SERVER_PREFERENCE)
            == PairIn(hashes, 4, algo) + PairIn(hashes, 5, algo) + PairIn(hashes, 6, algo) + PairIn(hashes, 3, algo)
               + PairIn(hashes, 2, algo)
  {
    hide W8;
    var p := SERVER_PREFERENCE;
    assert p == [4, 5, 6, 3, 2];
    var q := [5, 6, 3, 2];
    assert p[1..] == q && q[1..] == [6, 3, 2] && [6, 3, 2][1..] == [3, 2] && [3, 2][1..] == [2] && [2][1..] == [];
    assert HashPairs(hashes, algo, [2]) == PairIn(hashes, 2, algo) + HashPairs(hashes, algo, []);
    assert HashPairs(hashes, algo, [3, 2]) == PairIn(hashes, 3, algo) + HashPairs(hashes, algo, [2]);
    assert HashPairs(hashes, algo, [6, 3, 2]) == PairIn(hashes, 6, algo) + HashPairs(hashes, algo, [3, 2]);
    assert HashPairs(hashes, algo, q) == PairIn(hashes, 5, algo) + HashPairs(hashes, algo, [6, 3, 2]);
    assert HashPairs(hashes, algo, p) == PairIn(hashes, 4, algo) + HashPairs(hashes, algo, q);
  }

  method WriteListSignHash(o: Output, c: Request, doWrite: bool) returns (r: Got<nat>)
    requires o.Valid()
    modifies o
    ensures o.Valid() && (r.Got? || r == Starved)
    ensures r.Got? ==> r.value == |SignHashBytes(c)|
    ensures r.Got? ==> o.written == old(o.written) + if doWrite then SignHashBytes(c) else []
  {
    hide HashPairs;
    var len, more := 0, 0;
    ghost var w := o.written;
    if !c.rsa && !c.ecdsa {
      len :- WriteSignHashInner1(o, doWrite, 1, {2, 3, 4, 5, 6});
      more :- WriteSignHashInner1(o, doWrite, 3, {2, 3, 4, 5, 6});
      return Got(len + more);
    }
    if c.rsa {
      len :- WriteSignHashInner1(o, doWrite, 1, c.hashes);
    }
    if c.ecdsa {
      more :- WriteSignHashInner1(o, doWrite, 3, c.hashes);
    }
    r := Got(len + more);
  }

  /** Two bytes of length for each name. */
  method NamesTotalLength(anchors: seq<Bytes>) returns (len: nat)
    ensures len == |AnchorBytes(anchors)|
  {
    len := 0;
    var u := 0;
    while u < |anchors|
      invariant 0 <= u <= |anchors| && len + |AnchorBytes(anchors[u..])| == |AnchorBytes(anchors)|
    {
      assert anchors[u..][1..] == anchors[u + 1..];
      len := len + |anchors[u]| + 2;
      u := u + 1;
    }
  }

  /** The names one after the other, each in pieces of at most the size of the
      pad. */
  method WriteNames(o: Output, anchors: seq<Bytes>, pad: nat) returns (r: Got<()>)
    requires o.Valid() && pad > 0
    modifies o
    ensures o.Valid() && (r.Got? || r == Starved)
    ensures r.Got? ==> o.written == old(o.written) + AnchorBytes(anchors)
  {
    hide W16;
    var u := 0;
    while u < |anchors|
      invariant 0 <= u <= |anchors| && o.Valid()
      invariant o.written + AnchorBytes(anchors[u..]) == old(o.written) + AnchorBytes(anchors)
    {
      var x := anchors[u];
      assert anchors[u..][1..] == anchors[u + 1..];
      Join3(o.written, W16(|x|), x, AnchorBytes(anchors[u + 1..]));
      var _ :- o.Write16(|x|);
      var _ :- WritePieces(o, x, pad);
      u := u + 1;
    }
    r := Got(());
  }

  /** x through the pad, piece by piece. */
  method WritePieces(o: Output, x: Bytes, pad: nat) returns (r: Got<()>)
    requires o.Valid() && pad > 0
    modifies o
    ensures o.Valid() && (r.Got? || r == Starved)
    ensures r.Got? ==> o.written == old(o.written) + x
  {
    var cur := x;
    while |cur| > 0
      invariant o.Valid() && o.written + cur == old(o.written) + x
      decreases |cur|
    {
      var clen := if |cur| > pad then pad else |cur|;
      Join2(o.written, cur[..clen], cur[clen..]);
      var _ :- o.WriteBlob(cur[..clen]);
      assert cur[..clen] + cur[clen..] == cur;
      cur := cur[clen..];
    }
    r := Got(());
  }

  /** The lengths come from a dry run. */
  method WriteCertificateRequest(o: Output, c: Request, pad: nat) returns (r: Got<()>)
    requires o.Valid() && pad > 0
    modifies o
    ensures o.Valid() && (r.Got? || r == Starved)
    ensures r.Got? ==> o.written == old(o.written) + RequestMessage(c)
  {
    hide W8, W16, W24, AuthBytes, SignHashBytes, AnchorBytes;
    ghost var w := o.written;
    var auth :- WriteListAuth(o, c, false);
    var sh := 0;
    if c.tls12 {
      sh :- WriteListSignHash(o, c, false);
    }
    var ta := NamesTotalLength(c.anchors);
    var total := auth + (if c.tls12 then 2 + sh else 0) + ta + 3;
    RequestLength(c);
    assert o.written == w;
    var _ :- o.Write8(13);
    var _ :- o.Write24(total);
    var _ :- WriteRequestBody(o, c, pad, auth, sh, ta);
    Join3(w, W8(13), W24(total), RequestBytes(c));
    r := Got(());
  }

  lemma RequestLength(c: Request)
    ensures |RequestBytes(c)|
            == |AuthBytes(c)| + (if c.tls12 then 2 + |SignHashBytes(c)| else 0) + |AnchorBytes(c.anchors)| + 3
  {
    hide AuthBytes, SignHashBytes, AnchorBytes;
  }

  method WriteRequestBody(o: Output, c: Request, pad: nat, auth: nat, sh: nat, ta: nat) returns (r: Got<()>)
    requires o.Valid() && pad > 0
    requires auth == |AuthBytes(c)| && (c.tls12 ==> sh == |SignHashBytes(c)|) && ta == |AnchorBytes(c.anchors)|
    modifies o
    ensures o.Valid() && (r.Got? || r == Starved)
    ensures r.Got? ==> o.written == old(o.written) + RequestBytes(c)
  {
    hide W8, W16, AuthBytes, SignHashBytes, AnchorBytes;
    ghost var w := o.written;
    var _ :- o.Write8(auth);
    var _ :- WriteListAuth(o, c, true);
    if c.tls12 {
      var _ :- o.Write16(sh);
      var _ :- WriteListSignHash(o, c, true);
      Join2(w + W8(auth) + AuthBytes(c), W16(sh), SignHashBytes(c));
    }
    ghost var pairs := if c.tls12 then W16(sh) + SignHashBytes(c) else [];
    assert o.written == w + W8(auth) + AuthBytes(c) + pairs;
    var _ :- o.Write16(ta);
    var _ :- WriteNames(o, c.anchors, pad);
    Join5(w, W8(auth), AuthBytes(c), pairs, W16(ta), AnchorBytes(c.anchors));
    r := Got(());
  }

  // ----- Certificate -----

  /** Each certificate with three bytes of length. */
  function ChainBytes(chain: seq<Bytes>): Bytes
  {
    if chain == [] then [] else W24(|chain[0]|) + chain[0] + ChainBytes(chain[1..])
  }

  function CertificateMessage(chain: seq<Bytes>): Bytes
  {
    var list := ChainBytes(chain);
    W8(11) + W24(|W24(|list|) + list|) + (W24(|list|) + list)
  }

  /** The engine's pointer into the chain that it sends. */
  class ChainCursor {
    var chain: seq<Bytes>

    constructor (chain: seq<Bytes>)
      ensures this.chain == chain
    {
      this.chain := chain;
    }

    method TotalLength() returns (total: nat)
      ensures total == |ChainBytes(chain)|
    {
      total := 0;
      var u := 0;
      while u < |chain|
        invariant 0 <= u <= |chain| && total + |ChainBytes(chain[u..])| == |ChainBytes(chain)|
      {
        assert chain[u..][1..] == chain[u + 1..];
        total := total + 3 + |chain[u]|;
        u := u + 1;
      }
    }

    /** The next certificate, which leaves the chain. */
    method BeginCert() returns (cert: Option<Bytes>)
      modifies this
      ensures old(chain) == [] ==> cert == None && chain == []
      ensures old(chain) != [] ==> cert == Some(old(chain)[0]) && chain == old(chain)[1..]
    {
      if chain == [] {
        return None;
      }
      cert, chain := Some(chain[0]), chain[1..];
    }
  }

  /** The certificates one after the other, each in pieces. */
  method WriteChain(o: Output, e: ChainCursor, pad: nat) returns (r: Got<()>)
    requires o.Valid() && pad > 0
    modifies o, e
    ensures o.Valid() && (r.Got? || r == Starved)
    ensures r.Got? ==> e.chain == [] && o.written == old(o.written) + ChainBytes(old(e.chain))
  {
    hide W24;
    while true
      invariant o.Valid()
      invariant o.written + ChainBytes(e.chain) == old(o.written) + ChainBytes(old(e.chain))
      decreases |e.chain|
    {
      var cert := e.BeginCert();
      if cert.None? {
        break;
      }
      Join3(o.written, W24(|cert.value|), cert.value, ChainBytes(e.chain));
      var _ :- o.Write24(|cert.value|);
      var _ :- WritePieces(o, cert.value, pad);
    }
    r := Got(());
  }

  /** The chain is used up by sending it. */
  method WriteCertificate(o: Output, e: ChainCursor, pad: nat) returns (r: Got<nat>)
    requires o.Valid() && pad > 0
    modifies o, e
    ensures o.Valid() && (r.Got? || r == Starved)
    ensures r.Got? ==> e.chain == [] && r.value == |ChainBytes(old(e.chain))|
    ensures r.Got? ==> o.written == old(o.written) + CertificateMessage(old(e.chain))
  {
    hide W8, W24, ChainBytes;
    ghost var w, list := o.written, ChainBytes(e.chain);
    var total := e.TotalLength();
    ThreeBytes(total);
    var _ :- o.Write8(11);
    var _ :- o.Write24(total + 3);
    var _ :- o.Write24(total);
    var _ :- WriteChain(o, e, pad);
    Join2(w + W8(11) + W24(total + 3), W24(total), list);
    Join3(w, W8(11), W24(total + 3), W24(total) + list);
    r := Got(total);
  }

  lemma ThreeBytes(n: nat)
    ensures |W24(n)| == 3
  {}

  // ----- ServerHello -----

  datatype Answer = Answer(
    version: nat, random: Bytes, sid: Bytes, suite: nat, reneg: nat, initial: bool, finished: Bytes,
    peerLogFrag: nat, protocol: Option<Bytes>)
  {
    predicate Valid()
    {
      |random| == 32 && |sid| == 32 && |finished| == 24 && (peerLogFrag == 0 || peerLogFrag >= 8)
    }
  }

  function AnswerRenegLength(a: Answer): nat { if a.reneg != 2 then 0 else if a.initial then 5 else 29 }

  function AnswerFragLength(a: Answer): nat { if a.peerLogFrag != 0 then 5 else 0 }

  function AnswerAlpnLength(a: Answer): nat { if a.protocol.Some? then |a.protocol.value| + 7 else 0 }

  function AnswerExtLength(a: Answer): nat
  {
    AnswerRenegLength(a) + AnswerFragLength(a) + AnswerAlpnLength(a)
  }

  /** The length in the header. */
  function AnswerLength(a: Answer): nat
  {
    70 + AnswerExtLength(a) + if AnswerExtLength(a) != 0 then 2 else 0
  }

  function AnswerRenegBytes(a: Answer): Bytes
    requires a.Valid()
  {
    if AnswerRenegLength(a) == 0 then [] else
    var n := AnswerRenegLength(a);
    W16(0xFF01) + W16(n - 4) + W8(n - 5) + a.finished[..n - 5]
  }

  function AnswerFragBytes(a: Answer): Bytes
    requires a.Valid()
  {
    if AnswerFragLength(a) == 0 then [] else W16(0x0001) + W16(1) + W8(a.peerLogFrag - 8)
  }

  function AnswerAlpnBytes(a: Answer): Bytes
  {
    if a.protocol.None? then [] else
    W16(0x0010) + W16(AnswerAlpnLength(a) - 4) + W16(AnswerAlpnLength(a) - 6) + W8(|a.protocol.value|)
    + a.protocol.value
  }

  function AnswerHeadBytes(a: Answer): Bytes
  {
    W16(a.version) + a.random + W8(32) + a.sid + W16(a.suite) + W8(0)
  }

  function AnswerExtBytes(a: Answer): Bytes
    requires a.Valid()
  {
    AnswerRenegBytes(a) + AnswerFragBytes(a) + AnswerAlpnBytes(a)
  }

  function AnswerBody(a: Answer): Bytes
    requires a.Valid()
  {
    AnswerHeadBytes(a) + if AnswerExtLength(a) != 0 then W16(AnswerExtLength(a)) + AnswerExtBytes(a) else []
  }

  function AnswerMessage(a: Answer): Bytes
    requires a.Valid()
  {
    W8(2) + W24(|AnswerBody(a)|) + AnswerBody(a)
  }

  /** The lengths worked out for a ServerHello are those of its parts. */
  lemma AnswerDeclared(a: Answer)
    requires a.Valid()
    ensures |AnswerBody(a)| == AnswerLength(a) && |AnswerExtBytes(a)| == AnswerExtLength(a)
    ensures |AnswerRenegBytes(a)| == AnswerRenegLength(a) && |AnswerFragBytes(a)| == AnswerFragLength(a)
    ensures |AnswerAlpnBytes(a)| == AnswerAlpnLength(a)
  {
    AnswerParts(a);
    assert |AnswerHeadBytes(a)| == 70;
    assert |W16(AnswerExtLength(a))| == 2;
    hide AnswerHeadBytes, AnswerRenegBytes, AnswerFragBytes, AnswerAlpnBytes, W16;
  }

  lemma AnswerParts(a: Answer)
    requires a.Valid()
    ensures |AnswerRenegBytes(a)| == AnswerRenegLength(a) && |AnswerFragBytes(a)| == AnswerFragLength(a)
    ensures |AnswerAlpnBytes(a)| == AnswerAlpnLength(a)
  {}

  method WriteAnswerReneg(o: Output, a: Answer) returns (r: Got<()>)
    requires o.Valid() && a.Valid()
    modifies o
    ensures o.Valid() && (r.Got? || r == Starved)
    ensures r.Got? ==> o.written == old(o.written) + AnswerRenegBytes(a)
  {
    hide W8, W16;
    var n := AnswerRenegLength(a);
    if n != 0 {
      var _ :- o.Write16(0xFF01);
      var _ :- o.Write16(n - 4);
      var _ :- o.Write8(n - 5);
      var _ :- o.WriteBlob(a.finished[..n - 5]);
      Join4(old(o.written), W16(0xFF01), W16(n - 4), W8(n - 5), a.finished[..n - 5]);
    }
    r := Got(());
  }

  method WriteAnswerFrag(o: Output, a: Answer) returns (r: Got<()>)
    requires o.Valid() && a.Valid()
    modifies o
    ensures o.Valid() && (r.Got? || r == Starved)
    ensures r.Got? ==> o.written == old(o.written) + AnswerFragBytes(a)
  {
    hide W8, W16;
    if AnswerFragLength(a) != 0 {
      var _ :- o.Write16(0x0001);
      var _ :- o.Write16(1);
      var _ :- o.Write8(a.peerLogFrag - 8);
      Join3(old(o.written), W16(1), W16(1), W8(a.peerLogFrag - 8));
    }
    r := Got(());
  }

  method WriteAnswerAlpn(o: Output, a: Answer) returns (r: Got<()>)
    requires o.Valid()
    modifies o
    ensures o.Valid() && (r.Got? || r == Starved)
    ensures r.Got? ==> o.written == old(o.written) + AnswerAlpnBytes(a)
  {
    hide W8, W16;
    var n := AnswerAlpnLength(a);
    if n != 0 {
      var name := a.protocol.value;
      var _ :- o.Write16(0x0010);
      var _ :- o.Write16(n - 4);
      var _ :- o.Write16(n - 6);
      var _ :- o.Write8(|name|);
      var _ :- o.WriteBlob(name);
      Join5(old(o.written), W16(0x0010), W16(n - 4), W16(n - 6), W8(|name|), name);
    }
    r := Got(());
  }

  method WriteAnswerHead(o: Output, a: Answer) returns (r: Got<()>)
    requires o.Valid()
    modifies o
    ensures o.Valid() && (r.Got? || r == Starved)
    ensures r.Got? ==> o.written == old(o.written) + AnswerHeadBytes(a)
  {
    hide W8, W16;
    var _ :- o.Write16(a.version);
    var _ :- o.WriteBlob(a.random);
    var _ :- o.Write8(32);
    var _ :- o.WriteBlob(a.sid);
    var _ :- o.Write16(a.suite);
    var _ :- o.Write8(0);
    Join6(old(o.written), W16(a.version), a.random, W8(32), a.sid, W16(a.suite), W8(0));
    r := Got(());
  }

  method WriteServerHello(o: Output, a: Answer) returns (r: Got<()>)
    requires o.Valid() && a.Valid()
    modifies o
    ensures o.Valid() && (r.Got? || r == Starved)
    ensures r.Got? ==> o.written == old(o.written) + AnswerMessage(a)
  {
    hide W8, W16, W24, AnswerHeadBytes, AnswerRenegBytes, AnswerFragBytes, AnswerAlpnBytes, AnswerExtLength,
      AnswerLength;
    ghost var w := o.written;
    AnswerDeclared(a);
    var n := AnswerExtLength(a);
    var _ :- o.Write8(2);
    var _ :- o.Write24(AnswerLength(a));
    ghost var start := o.written;
    var _ :- WriteAnswerHead(o, a);
    if n != 0 {
      var _ :- o.Write16(n);
      ghost var front := o.written;
      var _ :- WriteAnswerReneg(o, a);
      var _ :- WriteAnswerFrag(o, a);
      var _ :- WriteAnswerAlpn(o, a);
      Join3(front, AnswerRenegBytes(a), AnswerFragBytes(a), AnswerAlpnBytes(a));
      Join2(start + AnswerHeadBytes(a), W16(n), AnswerExtBytes(a));
      Join2(start, AnswerHeadBytes(a), W16(n) + AnswerExtBytes(a));
    }
    assert o.written == start + AnswerBody(a);
    Join3(w, W8(2), W24(AnswerLength(a)), AnswerBody(a));
    r := Got(());
  }

  // ----- ServerKeyExchange -----

  /** sign is the pair of hash and signature numbers that TLS 1.2 adds. */
  datatype KeyExchange = KeyExchange(curve: nat, point: Bytes, sign: Option<(nat, nat)>, signature: Bytes)

  function KeyExchangeLength(k: KeyExchange): nat
  {
    |k.signature| + |k.point| + (if k.sign.Some? then 2 else 0) + 6
  }

  /** The named curve and the point. */
  function CurvePart(k: KeyExchange): Bytes
  {
    W8(3) + W16(k.curve) + W8(|k.point|) + k.point
  }

  function SignPart(k: KeyExchange): Bytes
  {
    (if k.sign.Some? then W8(k.sign.value.0) + W8(k.sign.value.1) else []) + W16(|k.signature|) + k.signature
  }

  function KeyExchangeBody(k: KeyExchange): Bytes
  {
    CurvePart(k) + SignPart(k)
  }

  function KeyExchangeMessage(k: KeyExchange): Bytes
  {
    W8(12) + W24(|KeyExchangeBody(k)|) + KeyExchangeBody(k)
  }

  /** The length worked out is that of the body. */
  lemma KeyExchangeDeclared(k: KeyExchange)
    ensures |KeyExchangeBody(k)| == KeyExchangeLength(k)
  {
    assert |CurvePart(k)| == 4 + |k.point|;
    assert |SignPart(k)| == (if k.sign.Some? then 2 else 0) + 2 + |k.signature|;
  }

  method WriteCurvePart(o: Output, k: KeyExchange) returns (r: Got<()>)
    requires o.Valid()
    modifies o
    ensures o.Valid() && (r.Got? || r == Starved)
    ensures r.Got? ==> o.written == old(o.written) + CurvePart(k)
  {
    hide W8, W16;
    var _ :- o.Write8(3);
    var _ :- o.Write16(k.curve);
    var _ :- o.Write8(|k.point|);
    var _ :- o.WriteBlob(k.point);
    Join4(old(o.written), W8(3), W16(k.curve), W8(|k.point|), k.point);
    r := Got(());
  }

  method WriteSignPart(o: Output, k: KeyExchange) returns (r: Got<()>)
    requires o.Valid()
    modifies o
    ensures o.Valid() && (r.Got? || r == Starved)
    ensures r.Got? ==> o.written == old(o.written) + SignPart(k)
  {
    hide W8, W16;
    if k.sign.Some? {
      var _ :- o.Write8(k.sign.value.0);
      var _ :- o.Write8(k.sign.value.1);
      Join2(old(o.written), W8(k.sign.value.0), W8(k.sign.value.1));
    }
    ghost var sign := if k.sign.Some? then W8(k.sign.value.0) + W8(k.sign.value.1) else [];
    assert o.written == old(o.written) + sign;
    var _ :- o.Write16(|k.signature|);
    var _ :- o.WriteBlob(k.signature);
    Join3(old(o.written), sign, W16(|k.signature|), k.signature);
    r := Got(());
  }

  method WriteServerKeyExchange(o: Output, k: KeyExchange) returns (r: Got<()>)
    requires o.Valid()
    modifies o
    ensures o.Valid() && (r.Got? || r == Starved)
    ensures r.Got? ==> o.written == old(o.written) + KeyExchangeMessage(k)
  {
    hide W8, W24, CurvePart, SignPart, KeyExchangeLength;
    ghost var w := o.written;
    KeyExchangeDeclared(k);
    var _ :- o.Write8(12);
    var _ :- o.Write24(KeyExchangeLength(k));
    var _ :- WriteCurvePart(o, k);
    var _ :- WriteSignPart(o, k);
    Join2(w + W8(12) + W24(KeyExchangeLength(k)), CurvePart(k), SignPart(k));
    Join3(w, W8(12), W24(KeyExchangeLength(k)), KeyExchangeBody(k));
    r := Got(());
  }
}
