/** The messages with lengths worked out beforehand, read back by a reader of
    the vectors of section 4.3 of RFC 5246: when every length that they declare
    is the length of what follows it. */
module ServerReadBack {
  import opened Base128
  import opened Wrappers
  import opened HelloSpec
  import opened ServerMessages

  /** The number in some bytes, the highest first. */
  function Number(b: Bytes): nat
  {
    if b == [] then 0 else Number(b[..|b| - 1]) * 256 + b[|b| - 1]
  }

  type Width = k: nat | 1 <= k <= 3 witness 1

  function Limit(k: Width): nat
  {
    if k == 1 then 0x100 else if k == 2 then 0x1_0000 else 0x100_0000
  }

  function Field(k: Width, n: nat): (b: Bytes)
    ensures |b| == k
  {
    if k == 1 then W8(n) else if k == 2 then W16(n) else W24(n)
  }

  lemma LowDigit(n: nat)
    ensures n / 256 % 256 * 256 + n % 256 == n % 0x1_0000
    ensures n / 256 % 0x1_0000 * 256 + n % 256 == n % 0x100_0000
    ensures n / 256 / 256 == n / 65536
  {}

  lemma NumberSnoc(b: Bytes, x: byte)
    ensures Number(b + [x]) == Number(b) * 256 + x
  {
    assert (b + [x])[..|b|] == b;
  }

  /** A field holds a number up to multiples of its limit. */
  lemma FieldReads(k: Width, n: nat)
    ensures Number(Field(k, n)) == n % Limit(k)
    ensures Number(Field(k, n)) == n <==> n < Limit(k)
  {
    hide Number;
    var hi, mid, lo := n / 65536 % 256, n / 256 % 256, n % 256;
    NumberEmpty();
    LowDigit(n);
    LowDigit(n / 256);
    if k == 1 {
      NumberSnoc([], lo);
      assert Field(k, n) == [] + [lo];
    } else if k == 2 {
      NumberSnoc([], mid);
      NumberSnoc([] + [mid], lo);
      assert Field(k, n) == [] + [mid] + [lo];
    } else {
      NumberSnoc([], hi);
      NumberSnoc([] + [hi], mid);
      NumberSnoc([] + [hi] + [mid], lo);
      assert Field(k, n) == [] + [hi] + [mid] + [lo];
    }
  }

  lemma NumberEmpty()
    ensures Number([]) == 0
  {}

  /** k bytes of length, and that many bytes: these, and what follows. */
  function Vec(k: Width, b: Bytes): Got<(Bytes, Bytes)>
  {
    if |b| < k then BadParam else
    var n := Number(b[..k]);
    if |b| < k + n then BadParam else Got((b[k..k + n], b[k + n..]))
  }

  /** A vector is read up to multiples of the limit of its length. */
  lemma VecReads(k: Width, x: Bytes, t: Bytes)
    ensures Vec(k, Field(k, |x|) + (x + t)) == Got((x[..|x| % Limit(k)], x[|x| % Limit(k)..] + t))
    ensures Vec(k, Field(k, |x|) + (x + t)) == Got((x, t)) <==> |x| < Limit(k)
    ensures x[..|x| % Limit(k)] == x <==> |x| < Limit(k)
  {
    hide Field;
    FieldReads(k, |x|);
    var m := |x| % Limit(k);
    var b := Field(k, |x|) + (x + t);
    assert b[..k] == Field(k, |x|);
    assert b[k..] == x + t;
    assert b[k..k + m] == x[..m] && b[k + m..] == x[m..] + t;
    if m == |x| {
      assert x[..m] == x && x[m..] + t == t;
    }
  }

  /** Vectors until nothing is left. */
  function Vecs(k: Width, b: Bytes): Got<seq<Bytes>>
    decreases |b|
  {
    if b == [] then Got([]) else
    var (x, rest) :- Vec(k, b);
    var xs :- Vecs(k, rest);
    Got([x] + xs)
  }

  lemma {:induction false} AnchorsRead(anchors: seq<Bytes>)
    requires |AnchorBytes(anchors)| < 0x1_0000
    ensures Vecs(2, AnchorBytes(anchors)) == Got(anchors)
  {
    hide W16;
    if anchors != [] {
      var x, rest := anchors[0], AnchorBytes(anchors[1..]);
      assert W16(|x|) == Field(2, |x|);
      assert AnchorBytes(anchors) == Field(2, |x|) + (x + rest);
      VecReads(2, x, rest);
      AnchorsRead(anchors[1..]);
      assert anchors == [x] + anchors[1..];
    }
  }

  lemma {:induction false} ChainRead(chain: seq<Bytes>)
    requires |ChainBytes(chain)| < 0x100_0000
    ensures Vecs(3, ChainBytes(chain)) == Got(chain)
  {
    hide W24;
    if chain != [] {
      var x, rest := chain[0], ChainBytes(chain[1..]);
      assert W24(|x|) == Field(3, |x|);
      assert ChainBytes(chain) == Field(3, |x|) + (x + rest);
      VecReads(3, x, rest);
      ChainRead(chain[1..]);
      assert chain == [x] + chain[1..];
    }
  }

  /** The body of a handshake message of some type, and what follows. */
  function Framed(kind: byte, b: Bytes): Got<(Bytes, Bytes)>
  {
    if b == [] || b[0] != kind then Unexpected else Vec(3, b[1..])
  }

  lemma FramedReads(kind: byte, body: Bytes, t: Bytes)
    ensures var m := |body| % 0x100_0000;
            Framed(kind, W8(kind) + W24(|body|) + body + t) == Got((body[..m], body[m..] + t))
    ensures Framed(kind, W8(kind) + W24(|body|) + body + t) == Got((body, t)) <==> |body| < 0x100_0000
  {
    var b := W8(kind) + W24(|body|) + body + t;
    assert b[1..] == Field(3, |body|) + (body + t);
    VecReads(3, body, t);
  }

  // ----- CertificateRequest -----

  /** Certificate types, hash pairs and names. */
  function ReadRequestBody(tls12: bool, body: Bytes): Got<(Bytes, Bytes, seq<Bytes>)>
  {
    var (auth, b1) :- Vec(1, body);
    var (pairs, b2) :- if tls12 then Vec(2, b1) else Got(([], b1));
    var (names, b3) :- Vec(2, b2);
    if b3 != [] then BadParam else
    var anchors :- Vecs(2, names);
    Got((auth, pairs, anchors))
  }

  /** The same of a message, and what follows it. */
  function ReadRequest(tls12: bool, b: Bytes): Got<((Bytes, Bytes, seq<Bytes>), Bytes)>
  {
    var (body, rest) :- Framed(13, b);
    var parts :- ReadRequestBody(tls12, body);
    Got((parts, rest))
  }

  function RequestParts(c: Request): (Bytes, Bytes, seq<Bytes>)
  {
    (AuthBytes(c), if c.tls12 then SignHashBytes(c) else [], c.anchors)
  }

  lemma RequestPartsShort(c: Request)
    ensures |AuthBytes(c)| <= 4 && |SignHashBytes(c)| <= 20
  {
    hide HashPairs;
    PairsShort(c.hashes, 1);
    PairsShort(c.hashes, 3);
    PairsShort({2, 3, 4, 5, 6}, 1);
    PairsShort({2, 3, 4, 5, 6}, 3);
  }

  lemma PairsShort(hashes: set<nat>, sign: nat)
    ensures |HashPairs(hashes, sign, SERVER_PREFERENCE)| <= 10
  {
    hide HashPairs;
    ServerPairs(hashes, sign);
  }

  lemma RequestBodyReadBack(c: Request)
    ensures ReadRequestBody(c.tls12, RequestBytes(c)) == Got(RequestParts(c)) <==> |AnchorBytes(c.anchors)| < 0x1_0000
  {
    hide AuthBytes, SignHashBytes, AnchorBytes, W8, W16, Vec, Vecs, Field;
    var auth, names := AuthBytes(c), AnchorBytes(c.anchors);
    var pairs := if c.tls12 then SignHashBytes(c) else [];
    RequestPartsShort(c);
    FieldIs(|auth|, |pairs|, |names|);
    var b2 := Field(2, |names|) + (names + []);
    var b1 := if c.tls12 then Field(2, |pairs|) + (pairs + b2) else b2;
    assert RequestBytes(c) == Field(1, |auth|) + (auth + b1);
    VecReads(1, auth, b1);
    if c.tls12 {
      VecReads(2, pairs, b2);
    }
    VecReads(2, names, []);
    if |names| < 0x1_0000 {
      AnchorsRead(c.anchors);
    }
  }

  lemma FieldIs(a: nat, b: nat, c: nat)
    ensures W8(a) == Field(1, a) && W16(b) == Field(2, b) && W16(c) == Field(2, c)
  {}

  /** A certificate request is read back with all its parts exactly if the list
      of names fits its two bytes of length. */
  lemma RequestReadBack(c: Request, t: Bytes)
    ensures ReadRequest(c.tls12, RequestMessage(c) + t) == Got((RequestParts(c), t))
            <==> |AnchorBytes(c.anchors)| < 0x1_0000
  {
    hide AuthBytes, SignHashBytes, AnchorBytes, RequestBytes, RequestParts, W8, W24, Framed, ReadRequestBody;
    FramedReads(13, RequestBytes(c), t);
    RequestBodyReadBack(c);
    RequestPartsShort(c);
    RequestLength(c);
  }

  // ----- Certificate -----

  function ReadCertificate(b: Bytes): Got<(seq<Bytes>, Bytes)>
  {
    var (body, rest) :- Framed(11, b);
    var (list, b1) :- Vec(3, body);
    if b1 != [] then BadParam else
    var chain :- Vecs(3, list);
    Got((chain, rest))
  }

  /** A chain is read back exactly if its list, with the three bytes of its own
      length, fits the three bytes of the message's. */
  lemma CertificateReadBack(chain: seq<Bytes>, t: Bytes)
    ensures ReadCertificate(CertificateMessage(chain) + t) == Got((chain, t)) <==> |ChainBytes(chain)| + 3 < 0x100_0000
  {
    hide W8, W24, ChainBytes, Framed, Vec, Vecs, Field;
    var list := ChainBytes(chain);
    var body := W24(|list|) + list;
    ThreeBytes(|list|);
    FramedReads(11, body, t);
    assert body == Field(3, |list|) + (list + []) by {
      assert W24(|list|) == Field(3, |list|) by { WideField(|list|); }
    }
    VecReads(3, list, []);
    if |list| < 0x100_0000 {
      ChainRead(chain);
    }
  }

  lemma WideField(n: nat)
    ensures W24(n) == Field(3, n)
  {}

  // ----- ServerKeyExchange -----

  /** The pair of algorithms, if there is one, and the signature. */
  function ReadSign(tls12: bool, b: Bytes): Got<(Option<(nat, nat)>, Bytes)>
  {
    if tls12 && |b| < 2 then BadParam else
    var (signature, rest) :- Vec(2, if tls12 then b[2..] else b);
    if rest != [] then BadParam else
    Got((if tls12 then Some((b[0] as nat, b[1] as nat)) else None, signature))
  }

  function ReadKeyExchangeBody(tls12: bool, body: Bytes): Got<KeyExchange>
  {
    if |body| < 3 || body[0] != 3 then BadParam else
    var (point, b) :- Vec(1, body[3..]);
    var (sign, signature) :- ReadSign(tls12, b);
    Got(KeyExchange(Number(body[1..3]), point, sign, signature))
  }

  function ReadKeyExchange(tls12: bool, b: Bytes): Got<(KeyExchange, Bytes)>
  {
    var (body, rest) :- Framed(12, b);
    var k :- ReadKeyExchangeBody(tls12, body);
    Got((k, rest))
  }

  predicate SignFits(k: KeyExchange)
  {
    |k.signature| < 0x1_0000 && (k.sign.Some? ==> k.sign.value.0 < 0x100 && k.sign.value.1 < 0x100)
  }

  /** Every number fits its field. */
  predicate FieldsFit(k: KeyExchange)
  {
    k.curve < 0x1_0000 && |k.point| < 0x100 && SignFits(k)
  }

  lemma SignReadBack(k: KeyExchange)
    ensures ReadSign(k.sign.Some?, SignPart(k)) == Got((k.sign, k.signature)) <==> SignFits(k)
  {
    hide W16, Vec, Field;
    FieldIs(0, 0, |k.signature|);
    var b := Field(2, |k.signature|) + (k.signature + []);
    VecReads(2, k.signature, []);
    if k.sign.Some? {
      var (x, y) := k.sign.value;
      assert SignPart(k) == [x % 256, y % 256] + b;
      assert SignPart(k)[2..] == b;
    } else {
      assert SignPart(k) == b;
    }
  }

  lemma CurveParts(k: KeyExchange)
    ensures var body := KeyExchangeBody(k);
            && |body| >= 3 && body[0] == 3 && body[1..3] == Field(2, k.curve)
            && body[3..] == Field(1, |k.point|) + (k.point + SignPart(k))
  {
    hide W16, Field, SignPart;
    FieldIs(|k.point|, k.curve, 0);
    assert KeyExchangeBody(k) == W8(3) + Field(2, k.curve) + (Field(1, |k.point|) + (k.point + SignPart(k)));
  }

  lemma KeyExchangeBodyReadBack(k: KeyExchange)
    ensures ReadKeyExchangeBody(k.sign.Some?, KeyExchangeBody(k)) == Got(k) <==> FieldsFit(k)
  {
    hide W16, Vec, Field, Number, KeyExchangeBody, SignPart, SignFits, ReadSign;
    CurveParts(k);
    FieldReads(2, k.curve);
    VecReads(1, k.point, SignPart(k));
    SignReadBack(k);
    var tail := ReadSign(k.sign.Some?, SignPart(k));
    assert tail.Got? ==> tail.value == (tail.value.0, tail.value.1);
  }

  /** A key exchange is read back exactly if its point fits one byte of length,
      its signature two, and its numbers their fields. */
  lemma KeyExchangeReadBack(k: KeyExchange, t: Bytes)
    ensures ReadKeyExchange(k.sign.Some?, KeyExchangeMessage(k) + t) == Got((k, t)) <==> FieldsFit(k)
  {
    hide W8, W16, W24, KeyExchangeBody, Framed, ReadKeyExchangeBody;
    FramedReads(12, KeyExchangeBody(k), t);
    KeyExchangeBodyReadBack(k);
    KeyExchangeDeclared(k);
  }

  // ----- ServerHello -----

  /** Extensions, by number, until nothing is left. */
  function ReadExts(b: Bytes): Got<seq<(nat, Bytes)>>
    decreases |b|
  {
    if b == [] then Got([]) else
    if |b| < 2 then BadParam else
    var (x, rest) :- Vec(2, b[2..]);
    var xs :- ReadExts(rest);
    Got([(Number(b[..2]), x)] + xs)
  }

  /** A list of one protocol name. */
  function ReadAlpn(b: Bytes): Got<Bytes>
  {
    var (list, b1) :- Vec(2, b);
    if b1 != [] then BadParam else
    var (name, b2) :- Vec(1, list);
    if b2 != [] then BadParam else Got(name)
  }

  function FindExt(exts: seq<(nat, Bytes)>, id: nat): Option<Bytes>
  {
    if exts == [] then None else if exts[0].0 == id then Some(exts[0].1) else FindExt(exts[1..], id)
  }

  datatype Heard = Heard(version: nat, random: Bytes, sid: Bytes, suite: nat, exts: seq<(nat, Bytes)>,
                         protocol: Option<Bytes>)

  function ReadAnswerBody(body: Bytes): Got<Heard>
  {
    if |body| < 34 then BadParam else
    var (sid, b1) :- Vec(1, body[34..]);
    if |b1| < 3 then BadParam else
    var exts :- ReadAllExts(b1[3..]);
    var protocol :- ReadProtocol(exts);
    Got(Heard(Number(body[..2]), body[2..34], sid, Number(b1[..2]), exts, protocol))
  }

  /** No extensions at all, or their list. */
  function ReadAllExts(b: Bytes): Got<seq<(nat, Bytes)>>
  {
    if b == [] then Got([]) else
    var (list, rest) :- Vec(2, b);
    if rest != [] then BadParam else ReadExts(list)
  }

  function ReadProtocol(exts: seq<(nat, Bytes)>): Got<Option<Bytes>>
  {
    match FindExt(exts, 0x0010)
    case None => Got(None)
    case Some(x) =>
      var name :- ReadAlpn(x);
      Got(Some(name))
  }

  function ReadAnswer(b: Bytes): Got<(Heard, Bytes)>
  {
    var (body, rest) :- Framed(2, b);
    var x :- ReadAnswerBody(body);
    Got((x, rest))
  }

  function AlpnData(name: Bytes): Bytes
  {
    W16(|name| + 1) + (W8(|name|) + name)
  }

  function RenegExts(a: Answer): seq<(nat, Bytes)>
    requires a.Valid()
  {
    var n := AnswerRenegLength(a);
    if n == 0 then [] else [(0xFF01, W8(n - 5) + a.finished[..n - 5])]
  }

  function FragExts(a: Answer): seq<(nat, Bytes)>
    requires a.Valid()
  {
    if AnswerFragLength(a) == 0 then [] else [(0x0001, W8(a.peerLogFrag - 8))]
  }

  function AlpnExts(a: Answer): seq<(nat, Bytes)>
  {
    if a.protocol.None? then [] else [(0x0010, AlpnData(a.protocol.value))]
  }

  function AnswerExts(a: Answer): seq<(nat, Bytes)>
    requires a.Valid()
  {
    RenegExts(a) + (FragExts(a) + AlpnExts(a))
  }

  function ToHear(a: Answer): Heard
    requires a.Valid()
  {
    Heard(a.version, a.random, a.sid, a.suite, AnswerExts(a), a.protocol)
  }

  function ExtBytes(x: (nat, Bytes)): Bytes
  {
    W16(x.0) + W16(|x.1|) + x.1
  }

  function AllExtBytes(xs: seq<(nat, Bytes)>): Bytes
  {
    if xs == [] then [] else ExtBytes(xs[0]) + AllExtBytes(xs[1..])
  }

  lemma {:induction false} ExtsRead(xs: seq<(nat, Bytes)>)
    requires forall x <- xs :: x.0 < 0x1_0000 && |x.1| < 0x1_0000
    ensures ReadExts(AllExtBytes(xs)) == Got(xs)
  {
    hide W16, Vec, Number;
    if xs != [] {
      var x, rest := xs[0], AllExtBytes(xs[1..]);
      FieldIs(0, x.0, |x.1|);
      FieldReads(2, x.0);
      var b := AllExtBytes(xs);
      assert b == Field(2, x.0) + (Field(2, |x.1|) + (x.1 + rest));
      assert b[..2] == Field(2, x.0) && b[2..] == Field(2, |x.1|) + (x.1 + rest);
      VecReads(2, x.1, rest);
      ExtsRead(xs[1..]);
      assert xs == [x] + xs[1..];
    }
  }

  lemma {:induction false} AllExtsConcat(xs: seq<(nat, Bytes)>, ys: seq<(nat, Bytes)>)
    ensures AllExtBytes(xs + ys) == AllExtBytes(xs) + AllExtBytes(ys)
  {
    hide ExtBytes;
    if xs == [] {
      assert xs + ys == ys;
    } else {
      assert (xs + ys)[1..] == xs[1..] + ys;
      AllExtsConcat(xs[1..], ys);
    }
  }

  /** The client finds the protocol exactly if its length fits one byte. */
  lemma AlpnReads(name: Bytes)
    ensures ReadAlpn(AlpnData(name)) == Got(name) <==> |name| < 0x100
  {
    hide W8, W16, Vec, Field;
    FieldIs(|name|, |name| + 1, 0);
    var list := Field(1, |name|) + (name + []);
    assert list == W8(|name|) + name && |list| == |name| + 1;
    assert AlpnData(name) == Field(2, |list|) + (list + []);
    VecReads(2, list, []);
    VecReads(1, name, []);
  }

  lemma {:induction false} OneExt(x: (nat, Bytes))
    ensures AllExtBytes([x]) == ExtBytes(x) && AllExtBytes([]) == []
  {
    assert [x][1..] == [];
  }

  lemma AnswerExtsAre(a: Answer)
    requires a.Valid()
    ensures AllExtBytes(AnswerExts(a)) == AnswerExtBytes(a)
  {
    hide W8, W16, AllExtBytes, AlpnData;
    AllExtsConcat(RenegExts(a), FragExts(a) + AlpnExts(a));
    AllExtsConcat(FragExts(a), AlpnExts(a));
    RenegExtsAre(a);
    FragExtsAre(a);
    AlpnExtsAre(a);
    hide *;
  }

  lemma RenegExtsAre(a: Answer)
    requires a.Valid()
    ensures AllExtBytes(RenegExts(a)) == AnswerRenegBytes(a)
  {
    hide W16, AllExtBytes;
    OneExt((0, []));
    if RenegExts(a) != [] {
      OneExt(RenegExts(a)[0]);
    }
  }

  lemma FragExtsAre(a: Answer)
    requires a.Valid()
    ensures AllExtBytes(FragExts(a)) == AnswerFragBytes(a)
  {
    hide W16, AllExtBytes;
    OneExt((0, []));
    if FragExts(a) != [] {
      OneExt(FragExts(a)[0]);
    }
  }

  lemma AlpnExtsAre(a: Answer)
    ensures AllExtBytes(AlpnExts(a)) == AnswerAlpnBytes(a)
  {
    hide AllExtBytes;
    OneExt((0, []));
    if AlpnExts(a) != [] {
      OneExt(AlpnExts(a)[0]);
    }
  }

  lemma AnswerHead(a: Answer, t: Bytes)
    requires a.Valid()
    ensures var b := AnswerHeadBytes(a) + t;
            && |b| >= 34 && b[..2] == Field(2, a.version) && b[2..34] == a.random
            && b[34..] == Field(1, 32) + (a.sid + (Field(2, a.suite) + W8(0) + t))
  {
    hide W16, Field;
    FieldIs(32, a.version, a.suite);
    assert AnswerHeadBytes(a) + t
           == Field(2, a.version) + a.random + (Field(1, 32) + (a.sid + (Field(2, a.suite) + W8(0) + t)));
  }

  /** The parts whose length the writer does not bound by itself. */
  predicate AnswerFits(a: Answer)
  {
    a.version < 0x1_0000 && a.suite < 0x1_0000 && (a.protocol.Some? ==> |a.protocol.value| < 0x100)
  }

  lemma ExtsFit(a: Answer)
    requires a.Valid() && AnswerFits(a)
    ensures forall x <- AnswerExts(a) :: x.0 < 0x1_0000 && |x.1| < 0x1_0000
    ensures AnswerExtLength(a) < 0x1_0000
    ensures AnswerExtLength(a) == 0 <==> AnswerExts(a) == []
  {
    forall x | x in AnswerExts(a) ensures x.0 < 0x1_0000 && |x.1| < 0x1_0000 {
      assert x in RenegExts(a) || x in FragExts(a) || x in AlpnExts(a);
    }
  }

  /** The extensions as the whole rest of the body. */
  lemma AllExtsRead(a: Answer)
    requires a.Valid() && AnswerFits(a)
    ensures var n := AnswerExtLength(a);
            ReadAllExts(if n != 0 then W16(n) + AnswerExtBytes(a) else []) == Got(AnswerExts(a))
  {
    hide W16, Vec, Field, AnswerExtLength, AnswerExts, ReadExts, AnswerExtBytes;
    ExtsFit(a);
    AnswerDeclared(a);
    AnswerExtsAre(a);
    ExtsRead(AnswerExts(a));
    var list := AnswerExtBytes(a);
    if AnswerExtLength(a) != 0 {
      FieldIs(0, |list|, 0);
      assert W16(|list|) + list == Field(2, |list|) + (list + []);
      VecReads(2, list, []);
    }
  }

  lemma ProtocolFound(a: Answer)
    requires a.Valid()
    ensures FindExt(AnswerExts(a), 0x0010) == (if a.protocol.None? then None else Some(AlpnData(a.protocol.value)))
    ensures ReadProtocol(AnswerExts(a)) == Got(a.protocol) <==> a.protocol.None? || |a.protocol.value| < 0x100
  {
    hide AlpnData, ReadAlpn, W8, W16;
    var x, y, z := RenegExts(a), FragExts(a), AlpnExts(a);
    FindLater(x, y + z, 0x0010);
    FindLater(y, z, 0x0010);
    if a.protocol.Some? {
      AlpnReads(a.protocol.value);
    }
  }

  lemma {:induction false} FindLater(x: seq<(nat, Bytes)>, y: seq<(nat, Bytes)>, id: nat)
    requires forall e <- x :: e.0 != id
    ensures FindExt(x + y, id) == FindExt(y, id)
  {
    if x == [] {
      assert x + y == y;
    } else {
      assert (x + y)[1..] == x[1..] + y;
      FindLater(x[1..], y, id);
    }
  }

  lemma AnswerBodyReadBack(a: Answer)
    requires a.Valid()
    ensures ReadAnswerBody(AnswerBody(a)) == Got(ToHear(a)) <==> AnswerFits(a)
  {
    hide W8, W16, Vec, Field, Number, AnswerHeadBytes, AnswerExtLength, AnswerExts, AnswerExtBytes, ReadAllExts,
      ReadProtocol;
    var n := AnswerExtLength(a);
    var t := if n != 0 then W16(n) + AnswerExtBytes(a) else [];
    AnswerHead(a, t);
    var b1 := Field(2, a.suite) + W8(0) + t;
    AfterSid(a.suite, t);
    VecReads(1, a.sid, b1);
    FieldReads(2, a.version);
    FieldReads(2, a.suite);
    ProtocolFound(a);
    if AnswerFits(a) {
      AllExtsRead(a);
    }
  }

  lemma AfterSid(suite: nat, t: Bytes)
    ensures var b := Field(2, suite) + W8(0) + t;
            |b| >= 3 && b[..2] == Field(2, suite) && b[3..] == t
  {}

  /** A ServerHello is read back exactly if the name of the selected protocol
      fits its byte of length; all the other lengths follow from that. */
  lemma AnswerReadBack(a: Answer, t: Bytes)
    requires a.Valid()
    ensures ReadAnswer(AnswerMessage(a) + t) == Got((ToHear(a), t)) <==> AnswerFits(a)
  {
    hide W8, W24, AnswerBody, Framed, ReadAnswerBody, ToHear, AnswerExtLength;
    FramedReads(2, AnswerBody(a), t);
    AnswerBodyReadBack(a);
    if AnswerFits(a) {
      AnswerDeclared(a);
      ExtsFit(a);
    } else if |AnswerBody(a)| % 0x100_0000 == |AnswerBody(a)| {
      assert ReadAnswerBody(AnswerBody(a)) != Got(ToHear(a));
    }
  }
}
